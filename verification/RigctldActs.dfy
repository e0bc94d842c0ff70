/** When a command gets its answer: what reaches the daemon's reply, what is tried again,
    and what is given up (radio/rigctld.py). */
module RigctldActs {
  import opened Prelude
  import opened Text
  import opened Utf8
  import opened Rigctld

  /** The bytes that the recvs take when they are due: nothing past a failure. */
  function Capacity(recvs: seq<Read>): nat {
    if recvs == [] || !recvs[0].Chunk? then 0
    else (if recvs[0].n > 4096 then 4096 else if recvs[0].n == 0 then 1 else recvs[0].n) + Capacity(recvs[1..])
  }

  /** Main result. A well-formed reply is read if and only if the recvs take all of it. */
  lemma {:induction false} ReadIffTaken(r: seq<byte>, k: nat, n: nat, recvs: seq<Read>)
    requires WellFormedAt(r, k) && n < |r|
    ensures ReadReply(r[..n], r[n..], recvs) == (Whole(r), []) <==> Capacity(recvs) >= |r| - n
    decreases |recvs|
  {
    hide Complete, Count, WellFormedAt;
    WithinLimits(r, k);
    if recvs != [] && recvs[0].Chunk? {
      var c := ChunkSize(recvs[0].n, |r| - n);
      assert r[..n] + r[n..][..c] == r[..n + c] && r[n..][c..] == r[n + c..];
      CountPrefix(r, n + c, NL);
      CompleteIffWhole(r, k, n + c);
      if n + c == |r| {
        assert r[..n + c] == r && r[n + c..] == [];
      } else {
        ReadIffTaken(r, k, n + c, recvs[1..]);
      }
    }
  }

  /** The attempt reaches the daemon and brings its whole reply back. */
  ghost predicate Delivers(sock: Socket, a: Attempt) {
    && Quiet(sock) && (sock.None? ==> a.connects) && a.sendFault.None?
    && WellFormed(a.reply) && Capacity(a.recvs) >= |a.reply|
  }

  lemma DeliveryAnswers(sock: Socket, command: string, a: Attempt)
    requires Delivers(sock, a)
    ensures Try(sock, command, a) == (Answered(Interpret(a.reply, command)), Some([]))
    ensures !Interpret(a.reply, command).Malformed?
  {
    hide WellFormedAt, Interpret, ReadReply, Capacity;
    var k: nat :| WellFormedAt(a.reply, k);
    var due := (if sock.Some? then sock.value else []) + a.reply;
    assert due == a.reply && a.reply[..0] == [] && a.reply[0..] == a.reply;
    NotEmpty(a.reply, k);
    ReadIffTaken(a.reply, k, 0, a.recvs);
    TryAnswersOwn(sock, command, a);
  }

  lemma NotEmpty(r: seq<byte>, k: nat)
    requires WellFormedAt(r, k)
    ensures |r| > 0
  {}

  /** Main result. A command whose reply comes through is answered by it, whatever would have
      happened to a second attempt, and leaves the socket open and idle. */
  lemma CommandIsAnswered(sock: Socket, command: string, first: Attempt, second: Attempt)
    requires Delivers(sock, first)
    ensures Transact(sock, command, first, second) == (ResultOf(Interpret(first.reply, command)), Some([]))
  {
    hide Interpret, Try;
    DeliveryAnswers(sock, command, first);
  }

  /** The link breaks under the first attempt: sending fails so, or the peer closes or resets
      before the reply is there. */
  predicate LinkBreaks(sock: Socket, command: string, a: Attempt) {
    Try(sock, command, a).0 == Broke(Broken)
  }

  /** Main result. After a broken link the command is answered by the second attempt. */
  lemma SecondAttemptAnswers(sock: Socket, command: string, first: Attempt, second: Attempt)
    requires LinkBreaks(sock, command, first) && Delivers(None, second)
    ensures Transact(sock, command, first, second) == (ResultOf(Interpret(second.reply, command)), Some([]))
  {
    hide Interpret, Try;
    DeliveryAnswers(None, command, second);
  }

  /** The second attempt matters after a broken link only. */
  lemma RetriedOnlyAfterBreak(sock: Socket, command: string, first: Attempt, one: Attempt, other: Attempt)
    requires !LinkBreaks(sock, command, first)
    ensures Transact(sock, command, first, one) == Transact(sock, command, first, other)
  {
    hide Try;
  }

  /** How the link breaks: sending on it fails, or the peer closes or resets it while a reply
      is awaited. A daemon that cannot be reached and a timeout are no such break. */
  lemma WhatBreaks(sock: Socket, command: string, a: Attempt)
    requires Quiet(sock) && WellFormed(a.reply)
    ensures LinkBreaks(sock, command, a) <==>
      && (sock.Some? || a.connects)
      && (a.sendFault == Some(Broken)
          || (a.sendFault.None? && Capacity(a.recvs) < |a.reply| && EndsBroken(a.recvs)))
  {
    hide WellFormedAt, Interpret, ReadReply, Capacity, EndsBroken;
    var k: nat :| WellFormedAt(a.reply, k);
    var due := (if sock.Some? then sock.value else []) + a.reply;
    assert due == a.reply && a.reply[..0] == [] && a.reply[0..] == a.reply;
    NotEmpty(a.reply, k);
    ReadsWhole(a.reply, k, 0, a.recvs);
    ReadIffTaken(a.reply, k, 0, a.recvs);
    BrokenReading(a.reply, k, 0, a.recvs);
  }

  /** The first recv that is no chunk is a close or a reset. */
  predicate EndsBroken(recvs: seq<Read>) {
    recvs != [] && (recvs[0] == PeerClosed || recvs[0] == Failed(Broken) || (recvs[0].Chunk? && EndsBroken(recvs[1..])))
  }

  lemma {:induction false} BrokenReading(r: seq<byte>, k: nat, n: nat, recvs: seq<Read>)
    requires WellFormedAt(r, k) && n < |r|
    ensures ReadReply(r[..n], r[n..], recvs).0 == Faulted(Broken) <==> Capacity(recvs) < |r| - n && EndsBroken(recvs)
    decreases |recvs|
  {
    hide Complete, Count, WellFormedAt;
    WithinLimits(r, k);
    if recvs != [] && recvs[0].Chunk? {
      var c := ChunkSize(recvs[0].n, |r| - n);
      assert r[..n] + r[n..][..c] == r[..n + c] && r[n..][c..] == r[n + c..];
      CountPrefix(r, n + c, NL);
      CompleteIffWhole(r, k, n + c);
      if n + c < |r| {
        BrokenReading(r, k, n + c, recvs[1..]);
      }
    }
  }

  /** A connection error always leaves the socket closed, so the next command connects. */
  lemma FailureCloses(sock: Socket, command: string, first: Attempt, second: Attempt)
    requires Transact(sock, command, first, second).0 == ConnectionError
    ensures Transact(sock, command, first, second).1.None?
  {
    hide ReadReply, Interpret;
  }

  /** Without a connection there is no answer. */
  lemma NoLinkNoAnswer(command: string, first: Attempt, second: Attempt)
    requires !first.connects
    ensures Transact(None, command, first, second) == (ConnectionError, None)
  {}

  /** Opening succeeds exactly when there is a socket afterwards, and keeps one that is open;
      closing always leaves none. */
  lemma OpenAndClose(sock: Socket, connects: bool)
    ensures var (r, s) := Perform(sock, Open(connects));
      && (r == Reply([]) <==> s.Some?) && (r == ConnectionError <==> s.None?)
      && (s.None? <==> sock.None? && !connects) && (sock.Some? ==> s == sock)
      && (sock.None? && s.Some? ==> s == Some([]))
    ensures Perform(sock, Close) == (Reply([]), None)
  {}

  /** Main result. Over any history in which every command's reply comes through, every
      command is answered by its own reply. */
  lemma {:induction false} EveryCommandIsAnswered(calls: seq<Call>, n: nat)
    requires n < |calls| && calls[n].Command? && FairDaemon(calls)
    requires calls[n].first.connects && calls[n].first.sendFault.None?
    requires Capacity(calls[n].first.recvs) >= |calls[n].first.reply|
    ensures Perform(SocketAt(calls, n), calls[n]) ==
      (ResultOf(Interpret(calls[n].first.reply, calls[n].command)), Some([]))
  {
    hide Transact, Interpret, Capacity, WellFormed;
    NeverOffByOne(calls, n);
    CommandIsAnswered(SocketAt(calls, n), calls[n].command, calls[n].first, calls[n].second);
  }
}
