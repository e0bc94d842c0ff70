/** Transmit playback: the interlock with the PortAudio reset and with stop, and the
    exact output of the audio callback (audio/output_stream.py). */
module Playback {
  import opened Prelude
  import opened Rounding

  // ---- the interlock ----

  type Thread = nat

  /** Where a thread is in `play_blocking`, `run_if_tx_idle` or `stop`. */
  datatype Pc =
    | Out
    | Entered            // counted, no stream yet
    | Fast               // inside sd.play, which holds a stream open
    | Open               // own stream open, not yet published
    | Published          // `_active_stream` was set to the own stream
    | Cleared            // `_active_stream` was cleared; stop and close follow
    | Closed             // stream gone, still counted
    | Resetting          // running the reset with the state lock held
    | Aborting(target: Thread) // aborting target's stream with the state lock held

  /** `active` names the thread whose stream is `_active_stream`; `lock` holds the state
      lock across several steps. */
  datatype World = World(count: int, active: Option<Thread>, lock: Option<Thread>, pcs: map<Thread, Pc>)
  {
    function PcOf(t: Thread): Pc {
      if t in pcs then pcs[t] else Out
    }

    function Goto(t: Thread, pc: Pc): World {
      this.(pcs := pcs[t := pc])
    }
  }

  const START := World(0, None, None, map[])

  datatype Action =
    | Enter(t: Thread) | PlayFast(t: Thread) | FastEnds(t: Thread)
    | OpenStream(t: Thread) | OpenFails(t: Thread) | Publish(t: Thread) | Clear(t: Thread) | CloseStream(t: Thread)
    | Exit(t: Thread)
    | ResetStart(t: Thread) | ResetRefused(t: Thread) | ResetEnds(t: Thread)
    | StopStart(t: Thread) | StopNothing(t: Thread) | StopEnds(t: Thread)

  /** Steps that take the state lock wait until it is free. */
  predicate Enabled(w: World, a: Action) {
    match a
    case Enter(t) => w.PcOf(t).Out? && w.lock.None?
    case PlayFast(t) => w.PcOf(t).Entered?
    case FastEnds(t) => w.PcOf(t).Fast?
    case OpenStream(t) => w.PcOf(t).Entered?
    case OpenFails(t) => w.PcOf(t).Entered?
    case Publish(t) => w.PcOf(t).Open? && w.lock.None?
    case Clear(t) => w.PcOf(t).Published? && w.lock.None?
    case CloseStream(t) => w.PcOf(t).Cleared?
    case Exit(t) => w.PcOf(t).Closed? && w.lock.None?
    case ResetStart(t) => w.PcOf(t).Out? && w.lock.None? && w.count <= 0
    case ResetRefused(t) => w.PcOf(t).Out? && w.lock.None? && w.count > 0
    case ResetEnds(t) => w.PcOf(t).Resetting?
    case StopStart(t) => w.PcOf(t).Out? && w.lock.None? && w.active.Some?
    case StopNothing(t) => w.PcOf(t).Out? && w.lock.None? && w.active.None?
    case StopEnds(t) => w.PcOf(t).Aborting?
  }

  function Next(w: World, a: Action): World
    requires Enabled(w, a)
  {
    match a
    case Enter(t) => w.(count := w.count + 1).Goto(t, Entered)
    case PlayFast(t) => w.Goto(t, Fast)
    case FastEnds(t) => w.Goto(t, Closed)
    case OpenStream(t) => w.Goto(t, Open)
    case OpenFails(t) => w.Goto(t, Closed)
    case Publish(t) => w.(active := Some(t)).Goto(t, Published)
    case Clear(t) => w.(active := None).Goto(t, Cleared)
    case CloseStream(t) => w.Goto(t, Closed)
    case Exit(t) => w.(count := w.count - 1).Goto(t, Out)
    case ResetStart(t) => w.(lock := Some(t)).Goto(t, Resetting)
    case ResetRefused(t) => w
    case ResetEnds(t) => w.(lock := None).Goto(t, Out)
    case StopStart(t) => w.(lock := Some(t)).Goto(t, Aborting(w.active.value))
    case StopNothing(t) => w
    case StopEnds(t) => w.(lock := None).Goto(t, Out)
  }

  function After(run: seq<Action>): Option<World> {
    if run == [] then Some(START)
    else
      match After(run[..|run| - 1])
      case None => None
      case Some(w) => if Enabled(w, run[|run| - 1]) then Some(Next(w, run[|run| - 1])) else None
  }

  /** A stream of this thread exists in PortAudio. */
  predicate StreamOpen(pc: Pc) {
    pc.Fast? || pc.Open? || pc.Published? || pc.Cleared?
  }

  predicate Counted(pc: Pc) {
    StreamOpen(pc) || pc.Entered? || pc.Closed?
  }

  function Inside(w: World): set<Thread> {
    set t | t in w.pcs && Counted(w.pcs[t])
  }

  predicate HoldsLock(pc: Pc) {
    pc.Resetting? || pc.Aborting?
  }

  ghost predicate Inv(w: World) {
    && w.count == |Inside(w)|
    && (forall t: Thread :: HoldsLock(w.PcOf(t)) <==> w.lock == Some(t))
    && (w.active.Some? ==> w.PcOf(w.active.value).Published?)
    && (w.lock.Some? && w.PcOf(w.lock.value).Resetting? ==> w.count == 0)
    && (w.lock.Some? && w.PcOf(w.lock.value).Aborting? ==> w.active == Some(w.PcOf(w.lock.value).target))
  }

  lemma InvKept(w: World, a: Action)
    requires Inv(w) && Enabled(w, a)
    ensures Inv(Next(w, a))
  {
    hide Inside;
    SameCount(w, a);
    LockKept(w, a);
    ActiveKept(w, a);
  }

  /** Only a reset or an abort holds the lock across steps, and only its own thread. */
  lemma LockKept(w: World, a: Action)
    requires (forall t: Thread :: HoldsLock(w.PcOf(t)) <==> w.lock == Some(t)) && Enabled(w, a)
    ensures var v := Next(w, a);
      forall t: Thread :: HoldsLock(v.PcOf(t)) <==> v.lock == Some(t)
  {
    var v := Next(w, a);
    assert forall u: Thread :: u != a.t ==> v.PcOf(u) == w.PcOf(u);
    assert w.lock == Some(a.t) <==> HoldsLock(w.PcOf(a.t));
  }

  lemma ActiveKept(w: World, a: Action)
    requires Inv(w) && Enabled(w, a)
    ensures var v := Next(w, a);
      && (v.active.Some? ==> v.PcOf(v.active.value).Published?)
      && (v.lock.Some? && v.PcOf(v.lock.value).Resetting? ==> v.count == 0)
      && (v.lock.Some? && v.PcOf(v.lock.value).Aborting? ==> v.active == Some(v.PcOf(v.lock.value).target))
  {
    hide Inside;
    var v := Next(w, a);
    assert forall u: Thread :: u != a.t ==> v.PcOf(u) == w.PcOf(u);
    assert w.lock == Some(a.t) <==> HoldsLock(w.PcOf(a.t));
  }

  /** The counter follows the threads that are inside. */
  lemma SameCount(w: World, a: Action)
    requires w.count == |Inside(w)| && Enabled(w, a)
    ensures Next(w, a).count == |Inside(Next(w, a))|
  {
    hide Inside, Next, Enabled, Counted;
    var v := Next(w, a);
    InsideOnly(w, v, a);
    CountedStep(w, a);
    match a
    case Enter(t) => assert Inside(v) == Inside(w) + {t} && t !in Inside(w);
    case Exit(t) => assert Inside(v) == Inside(w) - {t} && t in Inside(w);
    case _ => assert Inside(v) == Inside(w);
  }

  lemma CountedStep(w: World, a: Action)
    requires Enabled(w, a)
    ensures var v := Next(w, a);
      && Counted(v.PcOf(a.t)) == (a.Enter? || (!a.Exit? && Counted(w.PcOf(a.t))))
      && v.count == w.count + (if a.Enter? then 1 else if a.Exit? then -1 else 0)
      && (a.Enter? ==> !Counted(w.PcOf(a.t))) && (a.Exit? ==> Counted(w.PcOf(a.t)))
  {}

  lemma InsideOnly(w: World, v: World, a: Action)
    requires Enabled(w, a) && v == Next(w, a)
    ensures Inside(v) == if Counted(v.PcOf(a.t)) then Inside(w) + {a.t} else Inside(w) - {a.t}
    ensures a.t in Inside(w) <==> Counted(w.PcOf(a.t))
  {}

  lemma {:induction false} Reachable(run: seq<Action>)
    requires After(run).Some?
    ensures Inv(After(run).value)
  {
    hide Inv;
    if run == [] {
      StartIsGood();
    } else {
      Reachable(run[..|run| - 1]);
      InvKept(After(run[..|run| - 1]).value, run[|run| - 1]);
    }
  }

  lemma StartIsGood()
    ensures Inv(START)
  {
    assert Inside(START) == {};
  }

  /** Main result. In every interleaving, while a PortAudio reset runs no thread has a
      stream open or is about to open one. */
  lemma ResetNeverOverlapsStream(run: seq<Action>, t: Thread, u: Thread)
    requires After(run).Some? && After(run).value.PcOf(t).Resetting?
    ensures !Counted(After(run).value.PcOf(u))
  {
    Reachable(run);
    var w := After(run).value;
    assert HoldsLock(w.PcOf(t));
    assert Inside(w) == {};
    assert Counted(w.PcOf(u)) ==> u in Inside(w);
  }

  /** Main result. In every interleaving, a stream that `stop` is aborting is open and
      published, and its own thread has not begun to close it. */
  lemma AbortOnlyLiveStream(run: seq<Action>, t: Thread)
    requires After(run).Some? && After(run).value.PcOf(t).Aborting?
    ensures After(run).value.PcOf(After(run).value.PcOf(t).target).Published?
  {
    Reachable(run);
    assert HoldsLock(After(run).value.PcOf(t));
  }

  /** Whom `_active_stream` belongs to, told from the actions alone: the last one that
      published, unless someone cleared it since. */
  function LastWord(run: seq<Action>): Option<Thread> {
    if run == [] then None
    else
      match run[|run| - 1]
      case Publish(t) => Some(t)
      case Clear(_) => None
      case _ => LastWord(run[..|run| - 1])
  }

  lemma {:induction false} ActiveIsLastWord(run: seq<Action>)
    requires After(run).Some?
    ensures After(run).value.active == LastWord(run)
  {
    if run != [] {
      ActiveIsLastWord(run[..|run| - 1]);
    }
  }

  /** Action k is t's latest publication, and t has not cleared since. */
  ghost predicate PublishedAt(run: seq<Action>, t: Thread, k: nat) {
    k < |run| && run[k] == Publish(t) && forall j :: k < j < |run| ==> run[j] != Publish(t) && run[j] != Clear(t)
  }

  predicate Rewrites(a: Action) {
    a.Publish? || a.Clear?
  }

  /** Nobody published or cleared after action k. */
  ghost predicate Undisturbed(run: seq<Action>, k: nat) {
    forall j :: k < j < |run| ==> !Rewrites(run[j])
  }

  lemma {:induction false} PublicationOf(run: seq<Action>, t: Thread) returns (k: nat)
    requires After(run).Some? && After(run).value.PcOf(t).Published?
    ensures PublishedAt(run, t, k)
  {
    var last := |run| - 1;
    if run[last] == Publish(t) {
      k := last;
    } else {
      k := PublicationOf(run[..last], t);
      assert forall j :: k < j < last ==> run[j] == run[..last][j];
    }
  }

  lemma {:induction false} LastWordIff(run: seq<Action>, t: Thread, k: nat)
    requires PublishedAt(run, t, k)
    ensures LastWord(run) == Some(t) <==> Undisturbed(run, k)
  {
    var last := |run| - 1;
    if k < last {
      var shorter := run[..last];
      assert forall j :: k < j < last ==> shorter[j] == run[j];
      if Rewrites(run[last]) {
        assert !Undisturbed(run, k);
      } else {
        LastWordIff(shorter, t, k);
        assert Undisturbed(run, k) <==> Undisturbed(shorter, k);
      }
    }
  }

  /** Main result. In every interleaving, `stop` would abort the stream that t has
      published if and only if nobody published or cleared after t did. */
  lemma StopFindsIff(run: seq<Action>, t: Thread) returns (k: nat)
    requires After(run).Some? && After(run).value.PcOf(t).Published?
    ensures PublishedAt(run, t, k)
    ensures After(run).value.active == Some(t) <==> Undisturbed(run, k)
    ensures forall u: Thread :: Enabled(After(run).value, StopStart(u)) ==>
      (Next(After(run).value, StopStart(u)).PcOf(u) == Aborting(t) <==> Undisturbed(run, k))
  {
    k := PublicationOf(run, t);
    ActiveIsLastWord(run);
    LastWordIff(run, t, k);
  }

  /** Every `play_blocking` was called while `is_tx_active` was false. */
  ghost predicate OneAtATime(run: seq<Action>) {
    forall i :: 0 <= i < |run| && run[i].Enter? ==> After(run[..i]).Some? && After(run[..i]).value.count == 0
  }

  lemma Alone(w: World, t: Thread, u: Thread)
    requires w.count == |Inside(w)| <= 1 && Counted(w.PcOf(t)) && Counted(w.PcOf(u))
    ensures t == u
  {
    if t != u {
      assert {t, u} <= Inside(w);
      SubsetSize({t, u}, Inside(w));
    }
  }

  lemma {:induction false} SubsetSize(a: set<Thread>, b: set<Thread>)
    requires a <= b
    ensures |a| <= |b|
  {
    if a != {} {
      var x :| x in a;
      SubsetSize(a - {x}, b - {x});
    }
  }

  /** Main result. When no playback starts before the one before it has ended, `stop`
      always finds the published stream. */
  lemma {:induction false} StopFindsTheOnlyStream(run: seq<Action>, t: Thread)
    requires After(run).Some? && OneAtATime(run)
    ensures After(run).value.count <= 1
    ensures After(run).value.PcOf(t).Published? ==> After(run).value.active == Some(t)
  {
    hide Inside;
    if run != [] {
      var last := |run| - 1;
      var before, a := run[..last], run[last];
      assert forall i :: 0 <= i < last ==> before[i] == run[i] && before[..i] == run[..i];
      StopFindsTheOnlyStream(before, t);
      var w := After(before).value;
      Reachable(before);
      if Rewrites(a) && Counted(w.PcOf(t)) {
        Alone(w, t, a.t);
      }
    }
  }

  /** With two transmissions the end of the later one hides the earlier one, which stop
      then leaves playing. */
  lemma StopCanMissAnEarlierStream() returns (run: seq<Action>)
    ensures After(run).Some? && After(run).value.PcOf(0).Published?
    ensures Enabled(After(run).value, StopNothing(2))
  {
    hide After;
    Begins();
    var w := START;
    run, w := Extend([], w, Enter(0));
    run, w := Extend(run, w, OpenStream(0));
    run, w := Extend(run, w, Publish(0));
    run, w := Extend(run, w, Enter(1));
    run, w := Extend(run, w, OpenStream(1));
    run, w := Extend(run, w, Publish(1));
    run, w := Extend(run, w, Clear(1));
  }

  lemma Begins()
    ensures After([]) == Some(START)
  {}

  lemma Extend(run: seq<Action>, w: World, a: Action) returns (longer: seq<Action>, next: World)
    requires After(run) == Some(w) && Enabled(w, a)
    ensures longer == run + [a] && next == Next(w, a) && After(longer) == Some(next)
  {
    longer, next := run + [a], Next(w, a);
    assert longer[..|run|] == run;
  }

  // ---- the audio callback ----

  /** One sample as it goes to an integer stream under a gain. */
  function Amplified(sample: int, gain: real, lo: int, hi: int): int {
    if gain == 1.0 then sample else Trunc(Clip(sample as real * gain, lo as real, hi as real))
  }

  function Zeros(n: nat): (z: seq<int>)
    ensures |z| == n
  {
    seq(n, _ => 0)
  }

  /** Samples start..end under a gain. */
  function Block(samples: seq<int>, start: nat, end: nat, gain: real, lo: int, hi: int): (b: seq<int>)
    requires start <= end <= |samples|
    ensures |b| == end - start
  {
    seq(end - start, i requires 0 <= i < end - start => Amplified(samples[start + i], gain, lo, hi))
  }

  /** The callback's closure: the buffer, the clip range and the position. */
  class Player {
    const samples: seq<int>
    const lo: int
    const hi: int
    var position: nat

    constructor (s: seq<int>, clipLo: int, clipHi: int)
      ensures samples == s && lo == clipLo && hi == clipHi && position == 0
    {
      samples, lo, hi, position := s, clipLo, clipHi, 0;
    }

    /** `_audio_callback`: fill one block, and say whether it raised CallbackStop and
        which samples it reports as played. */
    method AudioCallback(outdata: array<int>, stopSet: bool, gain: real)
        returns (stops: bool, played: Option<(nat, nat)>)
      requires position <= |samples|
      modifies this, outdata
      ensures position <= |samples|
      ensures stopSet ==> stops && played.None? && position == old(position) && outdata[..] == Zeros(outdata.Length)
      ensures !stopSet ==>
        var end := Min(old(position) + outdata.Length, |samples|);
        && position == end && played == Some((old(position), end)) && (stops <==> end == |samples|)
        && outdata[..] == Block(samples, old(position), end, gain, lo, hi)
          + Zeros(outdata.Length - (end - old(position)))
    {
      hide Amplified;
      if stopSet {
        for i := 0 to outdata.Length
          invariant forall k :: 0 <= k < i ==> outdata[k] == 0
          invariant position == old(position)
        {
          outdata[i] := 0;
        }
        return true, None;
      }
      var frames := outdata.Length;
      var start := position;
      var end := Min(start + frames, |samples|);
      var n := end - start;
      for i := 0 to n
        invariant position == start
        invariant forall k :: 0 <= k < i ==> outdata[k] == Amplified(samples[start + k], gain, lo, hi)
      {
        outdata[i] := Amplified(samples[start + i], gain, lo, hi);
      }
      for i := n to frames
        invariant position == start
        invariant forall k :: 0 <= k < n ==> outdata[k] == Amplified(samples[start + k], gain, lo, hi)
        invariant forall k :: n <= k < i ==> outdata[k] == 0
      {
        outdata[i] := 0;
      }
      position := end;
      return position >= |samples|, Some((start, end));
    }
  }

  // ---- a whole playback ----

  function Total(frames: seq<nat>): nat {
    if frames == [] then 0 else Total(frames[..|frames| - 1]) + frames[|frames| - 1]
  }

  /** Where the callback stands after these block sizes. */
  function PositionAfter(samples: seq<int>, frames: seq<nat>): (p: nat)
    ensures p <= |samples|
  {
    if frames == [] then 0
    else Min(PositionAfter(samples, frames[..|frames| - 1]) + frames[|frames| - 1], |samples|)
  }

  /** What the callbacks have written, one block after the other, at the given gains. */
  function Output(samples: seq<int>, frames: seq<nat>, gains: seq<real>, lo: int, hi: int): seq<int>
    requires |gains| == |frames|
  {
    if frames == [] then []
    else
      var last := |frames| - 1;
      var start := PositionAfter(samples, frames[..last]);
      var end := PositionAfter(samples, frames);
      Output(samples, frames[..last], gains[..last], lo, hi)
        + Block(samples, start, end, gains[last], lo, hi) + Zeros(frames[last] - (end - start))
  }

  lemma {:induction false} PositionIsTotal(samples: seq<int>, frames: seq<nat>)
    ensures PositionAfter(samples, frames) == Min(Total(frames), |samples|)
  {
    if frames != [] {
      PositionIsTotal(samples, frames[..|frames| - 1]);
    }
  }

  /** Main result. Whatever block sizes the driver asks for, the output at unity gain is
      the buffer exactly once and in order, then silence. */
  lemma {:induction false} PlaysBufferOnce(samples: seq<int>, frames: seq<nat>, gains: seq<real>, lo: int, hi: int)
    requires |gains| == |frames| && forall i :: 0 <= i < |gains| ==> gains[i] == 1.0
    ensures var n := Min(Total(frames), |samples|);
      Output(samples, frames, gains, lo, hi) == samples[..n] + Zeros(Total(frames) - n)
  {
    hide Block, Zeros, PositionAfter;
    ZerosJoin(0, 0);
    PositionIsTotal(samples, frames);
    if frames == [] {
      assert samples[..0] + Zeros(0) == [];
    } else {
      var last := |frames| - 1;
      assert forall i :: 0 <= i < last ==> gains[..last][i] == gains[i];
      PlaysBufferOnce(samples, frames[..last], gains[..last], lo, hi);
      PositionIsTotal(samples, frames[..last]);
      PositionIsTotal(samples, frames);
      var start, end := PositionAfter(samples, frames[..last]), PositionAfter(samples, frames);
      UnityBlock(samples, start, end, lo, hi);
      OneMoreBlock(samples, start, end, Total(frames[..last]) - start, frames[last] - (end - start));
    }
  }

  lemma UnityBlock(samples: seq<int>, start: nat, end: nat, lo: int, hi: int)
    requires start <= end <= |samples|
    ensures Block(samples, start, end, 1.0, lo, hi) == samples[start..end]
  {
    var b := Block(samples, start, end, 1.0, lo, hi);
    forall i | 0 <= i < |b| ensures b[i] == samples[start + i] {
      assert b[i] == Amplified(samples[start + i], 1.0, lo, hi);
    }
  }

  lemma ZerosJoin(a: nat, b: nat)
    ensures Zeros(a) + Zeros(b) == Zeros(a + b) && Zeros(0) == []
  {}

  /** A block either continues the samples or, once they are used up, the silence. */
  lemma OneMoreBlock(samples: seq<int>, start: nat, end: nat, before: nat, after: nat)
    requires start <= end <= |samples| && (before == 0 || start == end)
    ensures samples[..start] + Zeros(before) + samples[start..end] + Zeros(after)
      == samples[..end] + Zeros(before + after)
  {
    hide Zeros;
    ZerosJoin(before, after);
    ZerosJoin(0, 0);
    if before == 0 {
      assert samples[..start] + [] + samples[start..end] == samples[..end];
    } else {
      assert samples[start..end] == [];
      assert samples[..start] + Zeros(before) + [] + Zeros(after) == samples[..start] + (Zeros(before) + Zeros(after));
    }
  }

  /** The blocks up to block i ask for the whole buffer. */
  predicate Done(samples: seq<int>, frames: seq<nat>, i: nat)
    requires i < |frames|
  {
    Total(frames[..i + 1]) >= |samples|
  }

  /** The position stands at the end of the buffer exactly when the blocks asked for all
      of it. */
  lemma StopsWhenDone(samples: seq<int>, frames: seq<nat>, i: nat)
    requires i < |frames|
    ensures PositionAfter(samples, frames[..i + 1]) == |samples| <==> Done(samples, frames, i)
  {
    PositionIsTotal(samples, frames[..i + 1]);
  }

  /** The driver calling back with any block sizes, never stopped by hand. */
  method Drive(p: Player, frames: seq<nat>, gains: seq<real>) returns (out: seq<int>, stops: seq<bool>)
    requires p.position == 0 && |gains| == |frames|
    modifies p
    ensures out == Output(p.samples, frames, gains, p.lo, p.hi)
    ensures p.position == PositionAfter(p.samples, frames)
    ensures |stops| == |frames| && forall i :: 0 <= i < |frames| ==> (stops[i] <==> Done(p.samples, frames, i))
  {
    hide Block, Zeros, Done, Output, PositionAfter;
    out, stops := [], [];
    NothingPlayed(p.samples, p.lo, p.hi);
    assert frames[..0] == [] && gains[..0] == [];
    for i := 0 to |frames|
      invariant p.position == PositionAfter(p.samples, frames[..i])
      invariant out == Output(p.samples, frames[..i], gains[..i], p.lo, p.hi)
      invariant |stops| == i && forall k :: 0 <= k < i ==> (stops[k] <==> Done(p.samples, frames, k))
    {
      var outdata := new int[frames[i]];
      var asked, played := p.AudioCallback(outdata, false, gains[i]);
      BlockPlayed(p.samples, frames, gains, i, p.lo, p.hi);
      StopsWhenDone(p.samples, frames, i);
      out, stops := out + outdata[..], stops + [asked];
    }
    assert frames[..|frames|] == frames && gains[..|gains|] == gains;
  }

  lemma NothingPlayed(samples: seq<int>, lo: int, hi: int)
    ensures PositionAfter(samples, []) == 0 && Output(samples, [], [], lo, hi) == []
  {}

  /** The output grows by block i. */
  lemma BlockPlayed(samples: seq<int>, frames: seq<nat>, gains: seq<real>, i: nat, lo: int, hi: int)
    requires i < |frames| == |gains|
    ensures var start, end := PositionAfter(samples, frames[..i]), PositionAfter(samples, frames[..i + 1]);
      && start <= end == Min(start + frames[i], |samples|) && end - start <= frames[i]
      && Output(samples, frames[..i + 1], gains[..i + 1], lo, hi)
        == Output(samples, frames[..i], gains[..i], lo, hi)
           + (Block(samples, start, end, gains[i], lo, hi) + Zeros(frames[i] - (end - start)))
  {
    hide Block, Zeros;
    assert frames[..i + 1][..i] == frames[..i] && gains[..i + 1][..i] == gains[..i];
    assert frames[..i + 1][i] == frames[i] && gains[..i + 1][i] == gains[i];
  }

  /** A gain never takes an integer sample outside the clip range. */
  lemma GainStaysInRange(sample: int, gain: real, lo: int, hi: int)
    requires lo <= sample <= hi && lo <= 0 <= hi
    ensures lo <= Amplified(sample, gain, lo, hi) <= hi
  {}

  /** What a gain does to a sample: the product, towards zero to an integer, where it is in
      range, and the range's end where it is not. */
  lemma GainIsApplied(sample: int, gain: real, lo: int, hi: int)
    requires lo <= sample <= hi && lo <= 0 <= hi
    ensures var r, x := Amplified(sample, gain, lo, hi), sample as real * gain;
      && (x >= hi as real ==> r == hi) && (x <= lo as real ==> r == lo)
      && (0.0 <= x <= hi as real ==> 0 <= r && r as real <= x < r as real + 1.0)
      && (lo as real <= x <= 0.0 ==> r <= 0 && r as real - 1.0 < x <= r as real)
  {}

  /** A gain that is not negative keeps the order of the samples. */
  lemma GainKeepsOrder(a: int, b: int, gain: real, lo: int, hi: int)
    requires lo <= a <= b <= hi && lo <= 0 <= hi && gain >= 0.0
    ensures Amplified(a, gain, lo, hi) <= Amplified(b, gain, lo, hi)
  {
    hide Clip, Trunc;
    if gain != 1.0 {
      Times(a as real, b as real, gain);
      ClipMonotone(a as real * gain, b as real * gain, lo as real, hi as real);
      TruncMonotone(Clip(a as real * gain, lo as real, hi as real), Clip(b as real * gain, lo as real, hi as real));
    }
  }

  lemma ClipMonotone(x: real, y: real, lo: real, hi: real)
    requires x <= y && lo <= hi
    ensures Clip(x, lo, hi) <= Clip(y, lo, hi)
  {}

  lemma Times(a: real, b: real, gain: real)
    requires a <= b && gain >= 0.0
    ensures a * gain <= b * gain
  {}

  lemma TruncMonotone(x: real, y: real)
    requires x <= y
    ensures Trunc(x) <= Trunc(y)
  {}
}
