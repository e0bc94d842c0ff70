/** One command and its reply over the rigctld socket (radio/rigctld.py). */
module Rigctld {
  import opened Prelude
  import opened Text
  import opened Utf8

  const NL: byte := 10
  const RPRT: seq<byte> := [82, 80, 82, 84, 32]
  const MAX_RESPONSE_LINES := 1000
  const MAX_RESPONSE_BYTES := 65536

  // ---- when a reply is complete ----

  function Count(buf: seq<byte>, b: byte): (n: nat)
    ensures n <= |buf|
  {
    if buf == [] then 0 else Count(buf[..|buf| - 1], b) + (if buf[|buf| - 1] == b then 1 else 0)
  }

  predicate StartsAt(buf: seq<byte>, i: int, prefix: seq<byte>) {
    0 <= i && i + |prefix| <= |buf| && buf[i..i + |prefix|] == prefix
  }

  /** `buf.rfind(b"\nRPRT ")`: its last position before `below`, or -1. */
  function LastAnchor(buf: seq<byte>, below: nat): (i: int)
    ensures -1 <= i < below || i == -1
    ensures i >= 0 ==> StartsAt(buf, i, [NL] + RPRT)
    ensures forall j :: i < j < below ==> !StartsAt(buf, j, [NL] + RPRT)
  {
    if below == 0 then -1
    else if StartsAt(buf, below - 1, [NL] + RPRT) then below - 1
    else LastAnchor(buf, below - 1)
  }

  /** The stop test of `_read_until_rprt`: a line starting with `RPRT ` has ended. */
  predicate Complete(buf: seq<byte>) {
    (StartsAt(buf, 0, RPRT) && NL in buf)
    || (LastAnchor(buf, |buf|) >= 0 && NL in buf[LastAnchor(buf, |buf|) + 1..])
  }

  // ---- what a reply says ----

  /** `text.split("\n")` without a last empty piece. */
  function Lines(text: string): seq<string>
    decreases |text|
  {
    var k := IndexOf(text, '\n', 0);
    if text == "" then []
    else if k == |text| then [text]
    else [text[..k]] + Lines(text[k + 1..])
  }

  function FirstWord(s: string): string {
    if s == "" || IsSpace(s[0]) then "" else [s[0]] + FirstWord(s[1..])
  }

  datatype Answer = Body(lines: seq<string>) | Rejected(rprt: int) | Malformed

  function LongName(op: string): string {
    if op == "f" then "get_freq" else if op == "F" then "set_freq" else if op == "m" then "get_mode"
    else if op == "M" then "set_mode" else if op == "t" then "get_ptt" else if op == "T" then "set_ptt"
    else if op == "l" then "get_level" else ""
  }

  /** `_is_echoed_command_header`. */
  predicate IsEcho(line: string, command: string) {
    var name := LongName(FirstWord(LStrip(command)));
    name != "" && name + ":" <= line
  }

  /** What `_send_recv_locked` makes of a complete reply. */
  function Interpret(buf: seq<byte>, command: string): Answer {
    var lines := Lines(AsciiText(buf));
    if lines == [] || !("RPRT " <= lines[|lines| - 1]) then Malformed
    else
      match ParseInt(FirstWord(LStrip(lines[|lines| - 1][5..])))
      case None => Malformed
      case Some(n) =>
        if n != 0 then Rejected(n)
        else
          var body := lines[..|lines| - 1];
          Body(if body != [] && IsEcho(body[0], command) then body[1..] else body)
  }

  // ---- the network, as one attempt sees it ----

  /** BrokenPipe, ConnectionReset or ConnectionAborted; TimeoutError; any other OSError. */
  datatype Fault = Broken | TimedOut | OtherOs

  /** One recv: up to n bytes of what is due, the peer's close, or a fault. */
  datatype Read = Chunk(n: nat) | PeerClosed | Failed(fault: Fault)

  /** Whether a needed connect succeeds, how the send ends, what the daemon will answer,
      and how the recvs go; when they run out, or nothing is due, recv times out. */
  datatype Attempt = Attempt(connects: bool, sendFault: Option<Fault>, reply: seq<byte>, recvs: seq<Read>)

  /** The client's socket, as the bytes that are due on it. */
  type Socket = Option<seq<byte>>

  datatype Reading = Whole(buf: seq<byte>) | Oversized | Faulted(fault: Fault)

  function ChunkSize(n: nat, due: nat): (k: nat)
    ensures k <= due && (due > 0 ==> k > 0)
  {
    var k := if n > 4096 then 4096 else if n == 0 then 1 else n;
    if k > due then due else k
  }

  /** `_read_until_rprt` with `buf` read so far and `due` still to come: the outcome and
      what is left on the socket. */
  function ReadReply(buf: seq<byte>, due: seq<byte>, recvs: seq<Read>): (Reading, seq<byte>)
    decreases |recvs|
  {
    if recvs == [] then (Faulted(TimedOut), due)
    else match recvs[0]
      case PeerClosed => (Faulted(Broken), due)
      case Failed(f) => (Faulted(f), due)
      case Chunk(n) =>
        if due == [] then (Faulted(TimedOut), due)
        else
          var k := ChunkSize(n, |due|);
          var more := buf + due[..k];
          if |more| > MAX_RESPONSE_BYTES || Count(more, NL) > MAX_RESPONSE_LINES then (Oversized, due[k..])
          else if Complete(more) then (Whole(more), due[k..])
          else ReadReply(more, due[k..], recvs[1..])
  }

  datatype Outcome = Answered(answer: Answer) | NoConnection | Broke(fault: Fault)

  /** `_connect_locked` and `_send_recv_locked`. */
  function Try(sock: Socket, command: string, a: Attempt): (Outcome, Socket) {
    if sock.None? && !a.connects then (NoConnection, None)
    else
      var due := (if sock.Some? then sock.value else []) + a.reply;
      if a.sendFault.Some? then (Broke(a.sendFault.value), Some(due))
      else match ReadReply([], due, a.recvs)
        case (Whole(buf), rest) => (Answered(Interpret(buf, command)), Some(rest))
        case (Oversized, rest) => (Answered(Malformed), Some(rest))
        case (Faulted(f), rest) => (Broke(f), Some(rest))
  }

  datatype Result = Reply(lines: seq<string>) | CommandError(rprt: Option<int>) | ConnectionError

  function ResultOf(a: Answer): Result {
    match a
    case Body(lines) => Reply(lines)
    case Rejected(n) => CommandError(Some(n))
    case Malformed => CommandError(None)
  }

  /** `_send_recv`: one attempt, and a second one from scratch after a broken link. */
  function Transact(sock: Socket, command: string, first: Attempt, second: Attempt): (Result, Socket) {
    match Try(sock, command, first)
    case (NoConnection, s) => (ConnectionError, s)
    case (Answered(a), s) => (ResultOf(a), if a.Malformed? then None else s)
    case (Broke(f), s) =>
      if f != Broken then (ConnectionError, None)
      else
        match Try(None, command, second)
        case (NoConnection, s2) => (ConnectionError, s2)
        case (Answered(a), s2) => (ResultOf(a), s2)
        case (Broke(_), s2) => (ConnectionError, None)
  }

  // ---- well-formed replies ----

  predicate LineStart(buf: seq<byte>, i: nat) {
    i <= |buf| && (i == 0 || buf[i - 1] == NL)
  }

  predicate RprtLineAt(buf: seq<byte>, i: nat) {
    LineStart(buf, i) && StartsAt(buf, i, RPRT)
  }

  /** The number behind `RPRT `. */
  function Verdict(r: seq<byte>, k: nat): Option<int>
    requires k + 6 <= |r|
  {
    ParseInt(FirstWord(LStrip(AsciiText(r[k + 5..|r| - 1]))))
  }

  /** One reply of the daemon: its last line, at k, is the only one starting with
      `RPRT `, it ends in a number and a newline, and the whole is within the limits. */
  ghost predicate WellFormedAt(r: seq<byte>, k: nat) {
    && RprtLineAt(r, k) && (forall i: nat :: RprtLineAt(r, i) ==> i == k)
    && k + 6 <= |r| && Verdict(r, k).Some? && r[|r| - 1] == NL && (forall j :: k <= j < |r| - 1 ==> r[j] != NL)
    && |r| <= MAX_RESPONSE_BYTES && Count(r, NL) <= MAX_RESPONSE_LINES
  }

  ghost predicate WellFormed(r: seq<byte>) {
    exists k: nat :: WellFormedAt(r, k)
  }

  /** Main step. Read in whatever pieces, a well-formed reply passes the stop test
      exactly when all of it has arrived. */
  lemma CompleteIffWhole(r: seq<byte>, k: nat, n: nat)
    requires WellFormedAt(r, k) && n <= |r|
    ensures Complete(r[..n]) <==> n == |r|
  {
    hide Verdict, Count, LastAnchor;
    if n < |r| {
      PartIncomplete(r, k, n);
    } else {
      assert r[..n] == r;
      WholeComplete(r, k);
    }
  }

  lemma PartIncomplete(r: seq<byte>, k: nat, n: nat)
    requires WellFormedAt(r, k) && n < |r|
    ensures !Complete(r[..n])
  {
    hide Verdict, Count, LastAnchor;
    var p := r[..n];
    var a := LastAnchor(p, n);
    if StartsAt(p, 0, RPRT) {
      assert r[0..5] == p[0..5];
      assert RprtLineAt(r, 0);
    }
    if a >= 0 {
      assert r[a..a + 6] == p[a..a + 6];
      assert r[a] == r[a..a + 6][0] && r[a + 1..a + 6] == r[a..a + 6][1..];
      assert ([NL] + RPRT)[1..] == RPRT;
      assert RprtLineAt(r, a + 1);
    }
  }

  lemma WholeComplete(r: seq<byte>, k: nat)
    requires WellFormedAt(r, k)
    ensures Complete(r)
  {
    hide Verdict, Count, LastAnchor;
    var a := LastAnchor(r, |r|);
    if k > 0 {
      assert r[k - 1..k + 5] == [NL] + r[k..k + 5];
      assert StartsAt(r, k - 1, [NL] + RPRT);
      assert r[a + 1..][|r| - 1 - (a + 1)] == NL;
    } else {
      assert r[|r| - 1] == NL;
    }
  }

  lemma {:induction false} CountPrefix(buf: seq<byte>, n: nat, b: byte)
    requires n <= |buf|
    ensures Count(buf[..n], b) <= Count(buf, b)
    decreases |buf|
  {
    if n < |buf| {
      CountPrefix(buf[..|buf| - 1], n, b);
      assert buf[..|buf| - 1][..n] == buf[..n];
    } else {
      assert buf[..n] == buf;
    }
  }

  /** Reading stops with the whole reply and an empty socket, or fails. */
  lemma {:induction false} ReadsWhole(r: seq<byte>, k: nat, n: nat, recvs: seq<Read>)
    requires WellFormedAt(r, k) && n <= |r|
    ensures ReadReply(r[..n], r[n..], recvs).0.Faulted? || ReadReply(r[..n], r[n..], recvs) == (Whole(r), [])
    decreases |recvs|
  {
    hide Complete, Count, WellFormedAt;
    WithinLimits(r, k);
    if recvs != [] && recvs[0].Chunk? && n < |r| {
      var c := ChunkSize(recvs[0].n, |r| - n);
      assert r[..n] + r[n..][..c] == r[..n + c] && r[n..][c..] == r[n + c..];
      CountPrefix(r, n + c, NL);
      CompleteIffWhole(r, k, n + c);
      assert r[..|r|] == r;
      ReadsWhole(r, k, n + c, recvs[1..]);
    }
  }

  lemma WithinLimits(r: seq<byte>, k: nat)
    requires WellFormedAt(r, k)
    ensures |r| <= MAX_RESPONSE_BYTES && Count(r, NL) <= MAX_RESPONSE_LINES
  {}

  /** Count is the multiplicity. */
  lemma {:induction false} CountIs(buf: seq<byte>, b: byte)
    ensures Count(buf, b) == multiset(buf)[b]
  {
    if buf != [] {
      CountIs(buf[..|buf| - 1], b);
      assert buf == buf[..|buf| - 1] + [buf[|buf| - 1]];
    }
  }

  predicate InLimits(buf: seq<byte>) {
    |buf| <= MAX_RESPONSE_BYTES && multiset(buf)[NL] <= MAX_RESPONSE_LINES
  }

  /** An accepted reply is in the limits and is what came, up to what is left; one is given
      up as too long only when it is. */
  predicate Sound(buf: seq<byte>, due: seq<byte>, reading: Reading, rest: seq<byte>) {
    |rest| <= |due| && due[|due| - |rest|..] == rest
    && var taken := buf + due[..|due| - |rest|];
    match reading
    case Whole(whole) => whole == taken && InLimits(taken)
    case Oversized => !InLimits(taken)
    case Faulted(_) => true
  }

  /** Whatever the daemon sends, a reading is sound. */
  lemma {:induction false} LimitsDecide(buf: seq<byte>, due: seq<byte>, recvs: seq<Read>)
    ensures var (reading, rest) := ReadReply(buf, due, recvs); Sound(buf, due, reading, rest)
    decreases |recvs|
  {
    hide Complete, Count, Sound, InLimits;
    if recvs == [] || !recvs[0].Chunk? || due == [] {
      NothingTaken(buf, due);
    } else {
      var k := ChunkSize(recvs[0].n, |due|);
      LimitsDecide(buf + due[..k], due[k..], recvs[1..]);
      var (reading, rest) := ReadReply(buf + due[..k], due[k..], recvs[1..]);
      MoreTaken(buf, due, k, reading, rest);
      OneTaken(buf, due, k);
    }
  }

  lemma NothingTaken(buf: seq<byte>, due: seq<byte>)
    ensures forall f :: Sound(buf, due, Faulted(f), due)
  {}

  lemma OneTaken(buf: seq<byte>, due: seq<byte>, k: nat)
    requires k <= |due|
    ensures var more := buf + due[..k];
      if |more| > MAX_RESPONSE_BYTES || Count(more, NL) > MAX_RESPONSE_LINES then Sound(buf, due, Oversized, due[k..])
      else Sound(buf, due, Whole(more), due[k..])
  {
    CountIs(buf + due[..k], NL);
    assert |due| - |due[k..]| == k;
    hide Count;
  }

  lemma MoreTaken(buf: seq<byte>, due: seq<byte>, k: nat, reading: Reading, rest: seq<byte>)
    requires k <= |due| && Sound(buf + due[..k], due[k..], reading, rest)
    ensures Sound(buf, due, reading, rest)
  {
    hide InLimits;
    var n := |due[k..]| - |rest|;
    assert due[k..][n..] == due[k + n..];
    assert buf + due[..k] + due[k..][..n] == buf + due[..k + n];
  }

  // ---- what a well-formed reply says ----

  lemma {:induction false} LinesSnoc(a: string, b: string)
    requires (a == "" || a[|a| - 1] == '\n') && '\n' !in b
    ensures Lines(a + b + "\n") == Lines(a) + [b]
    decreases |a|
  {
    hide Lines, IndexOf;
    var text := a + b + "\n";
    if a == "" {
      LinesHead(text, |b|);
      assert text[..|b|] == b && text[|b| + 1..] == "";
      NoLines();
    } else {
      var k := IndexOf(a, '\n', 0);
      assert a[|a| - 1] == '\n';
      assert forall j :: 0 <= j < |a| ==> text[j] == a[j];
      LinesHead(a, k);
      LinesHead(text, k);
      assert text[..k] == a[..k] && text[k + 1..] == a[k + 1..] + b + "\n";
      LinesSnoc(a[k + 1..], b);
      assert [a[..k]] + (Lines(a[k + 1..]) + [b]) == [a[..k]] + Lines(a[k + 1..]) + [b];
    }
  }

  lemma LinesHead(text: string, k: nat)
    requires k < |text| && text[k] == '\n' && forall j :: 0 <= j < k ==> text[j] != '\n'
    ensures Lines(text) == [text[..k]] + Lines(text[k + 1..])
  {
    EndsAt(text, k);
  }

  lemma NoLines()
    ensures Lines("") == []
  {}

  lemma EndsAt(text: string, k: nat)
    requires k < |text| && text[k] == '\n' && forall j :: 0 <= j < k ==> text[j] != '\n'
    ensures IndexOf(text, '\n', 0) == k
  {}

  /** The meaning of a well-formed reply: its verdict, and the lines in front of it
      without the echoed command. */
  lemma WellFormedMeans(r: seq<byte>, k: nat, command: string)
    requires WellFormedAt(r, k)
    ensures var body := Lines(AsciiText(r[..k]));
      Interpret(r, command) ==
        if Verdict(r, k) != Some(0) then Rejected(Verdict(r, k).value)
        else Body(if body != [] && IsEcho(body[0], command) then body[1..] else body)
  {
    hide Count, IsEcho, Verdict, Lines;
    var lines := Lines(AsciiText(r));
    LastLine(r, k);
    assert lines[..|lines| - 1] == Lines(AsciiText(r[..k]));
    VerdictOfLine(r, k);
  }

  /** The first body line is dropped exactly if it is Hamlib's long name of the command, a
      colon and anything: get_ for a small letter and set_ for a capital one. */
  lemma EchoIsNamed(line: string, command: string, op: char, args: string)
    requires op in "fFmMtTl" && (args == "" || IsSpace(args[0])) && LStrip(command) == [op] + args
    ensures IsEcho(line, command) <==> Verb(op) + Noun(op) + ":" <= line
  {
    hide LongName, Verb, Noun, IsSpace, LStrip;
    NotSpace(op);
    assert ([op] + args)[1..] == args;
    assert FirstWord(args) == "" && FirstWord([op] + args) == [op];
    Named(op);
    NameIsThere(op);
  }

  /** No other command has an echo. */
  lemma OthersHaveNoEcho(line: string, command: string)
    requires FirstWord(LStrip(command)) !in {"f", "F", "m", "M", "t", "T", "l"}
    ensures !IsEcho(line, command)
  {}

  function Verb(op: char): string {
    if 'a' <= op <= 'z' then "get_" else "set_"
  }

  function Noun(op: char): string {
    if op in "fF" then "freq" else if op in "mM" then "mode" else if op in "tT" then "ptt" else "level"
  }

  lemma NotSpace(op: char)
    requires op in "fFmMtTl"
    ensures !IsSpace(op)
  {}

  lemma Named(op: char)
    requires op in "fFmMtTl"
    ensures LongName([op]) == Verb(op) + Noun(op)
  {}

  lemma NameIsThere(op: char)
    ensures Verb(op) + Noun(op) != ""
  {}

  /** A line without a colon is a value, never an echo. */
  lemma ValueIsNoEcho(line: string, command: string)
    requires ':' !in line
    ensures !IsEcho(line, command)
  {
    var name := LongName(FirstWord(LStrip(command)));
    assert (name + ":")[|name|] == ':';
  }

  /** The lines of a well-formed reply: those in front, and the verdict line. */
  lemma LastLine(r: seq<byte>, k: nat)
    requires WellFormedAt(r, k)
    ensures Lines(AsciiText(r)) == Lines(AsciiText(r[..k])) + [AsciiText(r[k..|r| - 1])]
  {
    hide Count, Verdict, Lines;
    var a, b := AsciiText(r[..k]), AsciiText(r[k..|r| - 1]);
    assert AsciiText(r) == a + b + "\n";
    assert k > 0 ==> r[k - 1] == NL;
    LinesSnoc(a, b);
  }

  lemma VerdictOfLine(r: seq<byte>, k: nat)
    requires WellFormedAt(r, k)
    ensures var line := AsciiText(r[k..|r| - 1]);
      "RPRT " <= line && Verdict(r, k) == ParseInt(FirstWord(LStrip(line[5..])))
  {
    hide Count, ParseInt, FirstWord, LStrip;
    assert r[k..k + 5] == RPRT;
    RprtText(r[k..|r| - 1]);
    assert AsciiText(r[k..|r| - 1])[5..] == AsciiText(r[k + 5..|r| - 1]);
  }

  lemma RprtText(line: seq<byte>)
    requires |line| >= 5 && line[..5] == RPRT
    ensures "RPRT " <= AsciiText(line)
  {
    assert line[0] == line[..5][0] && line[1] == line[..5][1] && line[2] == line[..5][2];
    assert line[3] == line[..5][3] && line[4] == line[..5][4];
  }

  // ---- main results ----

  /** Nothing is due on the socket: no unread and no outstanding reply. */
  predicate Quiet(sock: Socket) {
    sock.None? || sock.value == []
  }

  /** From a quiet socket, an answer is the answer in this attempt's own reply, and it
      leaves the socket quiet. */
  lemma TryAnswersOwn(sock: Socket, command: string, a: Attempt)
    requires Quiet(sock) && WellFormed(a.reply)
    ensures var (o, s) := Try(sock, command, a);
      && (o.Answered? ==> o.answer == Interpret(a.reply, command) && !o.answer.Malformed? && s == Some([]))
      && (o.NoConnection? ==> s.None?)
  {
    hide WellFormedAt, Interpret;
    var k: nat :| WellFormedAt(a.reply, k);
    var due := (if sock.Some? then sock.value else []) + a.reply;
    assert due == a.reply;
    assert a.reply[..0] == [] && a.reply[0..] == a.reply;
    ReadsWhole(a.reply, k, 0, a.recvs);
    WellFormedMeans(a.reply, k, command);
  }

  /** A call on the client. */
  datatype Call =
    | Open(connects: bool)
    | Close
    | Command(command: string, first: Attempt, second: Attempt)

  function Perform(sock: Socket, c: Call): (Result, Socket) {
    match c
    case Open(connects) =>
      if sock.None? && !connects then (ConnectionError, None) else (Reply([]), if sock.None? then Some([]) else sock)
    case Close => (Reply([]), None)
    case Command(command, first, second) => Transact(sock, command, first, second)
  }

  /** The socket after the first n calls. */
  function SocketAt(calls: seq<Call>, n: nat): Socket
    requires n <= |calls|
  {
    if n == 0 then None else Perform(SocketAt(calls, n - 1), calls[n - 1]).1
  }

  ghost predicate FairDaemon(calls: seq<Call>) {
    forall i :: 0 <= i < |calls| && calls[i].Command?
      ==> WellFormed(calls[i].first.reply) && WellFormed(calls[i].second.reply)
  }

  /** The result was read from a reply to this very command. */
  predicate OwnResult(r: Result, c: Call)
    requires c.Command?
  {
    r == ConnectionError || r == ResultOf(Interpret(c.first.reply, c.command))
      || r == ResultOf(Interpret(c.second.reply, c.command))
  }

  lemma OwnStep(sock: Socket, c: Call)
    requires Quiet(sock) && (c.Command? ==> WellFormed(c.first.reply) && WellFormed(c.second.reply))
    ensures Quiet(Perform(sock, c).1) && (c.Command? ==> OwnResult(Perform(sock, c).0, c))
  {
    hide Try, Interpret, WellFormed;
    if c.Command? {
      TryAnswersOwn(sock, c.command, c.first);
      TryAnswersOwn(None, c.command, c.second);
    }
  }

  /** Main result. Over any history of delays, timeouts, resets, reconnects, rejections
      and chunkings, an idle open socket has nothing due, and every returned reply or
      rejection is the answer to the command just sent. */
  lemma {:induction false} NeverOffByOne(calls: seq<Call>, n: nat)
    requires FairDaemon(calls) && n <= |calls|
    ensures Quiet(SocketAt(calls, n))
    ensures n < |calls| && calls[n].Command? ==> OwnResult(Perform(SocketAt(calls, n), calls[n]).0, calls[n])
  {
    hide Perform, WellFormed, Quiet, OwnResult;
    if n == 0 {
      assert Quiet(None) by { QuietNone(); }
    } else {
      NeverOffByOne(calls, n - 1);
      OwnStep(SocketAt(calls, n - 1), calls[n - 1]);
    }
    if n < |calls| {
      OwnStep(SocketAt(calls, n), calls[n]);
    }
  }

  lemma QuietNone()
    ensures Quiet(None)
  {}

  // ---- the gap: bad replies in the second attempt ----

  /** An unreadable reply closes the socket exactly when it was read in the first
      attempt; read in the second it leaves the rest of the stream due. */
  lemma BadReplyClosesFirstOnly(sock: Socket, command: string, first: Attempt, second: Attempt)
    requires Transact(sock, command, first, second).0 == CommandError(None)
    ensures Transact(sock, command, first, second).1.None? <==> Try(sock, command, first).0.Answered?
  {
    hide ReadReply, Interpret;
  }

  const BAD: seq<byte> := [82, 80, 82, 84, 32, 120, 10]        // "RPRT x\n"
  const DONE: seq<byte> := [82, 80, 82, 84, 32, 48, 10]        // "RPRT 0\n"
  const REFUSED: seq<byte> := [82, 80, 82, 84, 32, 45, 49, 10] // "RPRT -1\n"

  /** Once a bad reply in a second attempt has left a reply due, the next command is
      answered by it: here a rejected command is reported as done. */
  lemma StaleReplyAccepted()
    ensures var broken, retry := Attempt(true, Some(Broken), [], []), Attempt(true, None, BAD + DONE, [Chunk(7)]);
      var next := Attempt(true, None, REFUSED, [Chunk(7)]);
      var (r1, s1) := Transact(Some([]), "T 1", broken, retry);
      var (r2, s2) := Transact(s1, "T 0", next, next);
      && r1 == CommandError(None) && s1 == Some(DONE)
      && r2 == Reply([]) && s2 == Some(REFUSED) && Interpret(REFUSED, "T 0") == Rejected(-1)
  {
    hide Interpret, Complete, Count;
    OneChunk(BAD, DONE);
    OneChunk(DONE, REFUSED);
    BadIsMalformed();
    DoneMeans("T 0");
    RefusedMeans("T 0");
    assert [] + (BAD + DONE) == BAD + DONE;
  }

  lemma OneChunk(a: seq<byte>, b: seq<byte>)
    requires |a| == 7 && StartsAt(a, 0, RPRT) && a[6] == NL
    ensures ReadReply([], a + b, [Chunk(7)]) == (Whole(a), b)
  {
    hide LastAnchor;
    assert [] + (a + b)[..7] == a && (a + b)[7..] == b;
  }

  lemma BadIsMalformed()
    ensures Interpret(BAD, "T 1") == Malformed
  {
    hide FirstWord, ParseInt, Lines;
    var text := AsciiText(BAD);
    assert text == "" + "RPRT x" + "\n";
    LinesSnoc("", "RPRT x");
    NoLines();
    assert "RPRT x"[5..] == "x";
    Letter();
  }

  lemma Letter()
    ensures FirstWord("x") == "x" && ParseInt("x") == None
  {
  }

  lemma DoneMeans(command: string)
    ensures Interpret(DONE, command) == Body([])
  {
    hide FirstWord, ParseInt, Lines, Number;
    var text := AsciiText(DONE);
    assert text == "" + "RPRT 0" + "\n";
    LinesSnoc("", "RPRT 0");
    NoLines();
    assert "RPRT 0"[5..] == "0";
    Zero();
  }

  lemma Zero()
    ensures FirstWord("0") == "0" && ParseInt("0") == Some(0)
  {
    ParsePlain("0");
  }

  lemma RefusedMeans(command: string)
    ensures Interpret(REFUSED, command) == Rejected(-1)
  {
    hide FirstWord, ParseInt, Lines;
    var text := AsciiText(REFUSED);
    assert text == "" + "RPRT -1" + "\n";
    LinesSnoc("", "RPRT -1");
    NoLines();
    assert "RPRT -1"[5..] == "-1";
    MinusOne();
  }

  lemma MinusOne()
    ensures FirstWord("-1") == "-1" && ParseInt("-1") == Some(-1)
  {
    assert "-1"[1..] == "1";
    assert FirstWord("1") == "1";
    ParsePlain("1");
  }
}
