/** Deferred dispatch: any number of threads call the control plane, each call
    queues under the state lock and then drains the shared queue under the
    dispatch lock, running callbacks with the state lock released. */
module RemoteDispatch {
  import opened Prelude
  import opened RemotePlane
  import opened RemoteSafety

  type Thread = nat

  /** Where a thread is in its call; `mark` is the queue length when it left the state lock. */
  datatype Pc =
    | Out
    | AtDrain(mark: nat)
    | InDrain(mark: nat)
    | Running(mark: nat, cb: Callback)

  /** `queued` and `done` are histories; `pending` is the deque. */
  datatype World = World(
    plane: Plane, queued: seq<Callback>, pending: seq<Callback>, done: seq<Callback>,
    drainer: Option<Thread>, pcs: map<Thread, Pc>)
  {
    function PcOf(t: Thread): Pc {
      if t in pcs then pcs[t] else Out
    }

    function Goto(t: Thread, pc: Pc): World {
      this.(pcs := pcs[t := pc])
    }
  }

  const START := World(INIT, [], [], [], None, map[])

  /** Each action is one critical section, or the completion of one callback. */
  datatype Action =
    | Enter(t: Thread, call: Call)
    | Acquire(t: Thread)
    | Pop(t: Thread)
    | Finish(t: Thread)
    | Leave(t: Thread)

  predicate Enabled(w: World, a: Action) {
    match a
    case Enter(t, call) => w.PcOf(t).Out?
    case Acquire(t) => w.PcOf(t).AtDrain? && w.drainer.None?
    case Pop(t) => w.PcOf(t).InDrain? && w.pending != []
    case Finish(t) => w.PcOf(t).Running?
    case Leave(t) => w.PcOf(t).InDrain? && w.pending == []
  }

  function Next(w: World, a: Action, cooldown: real): World
    requires Enabled(w, a)
  {
    match a
    case Enter(t, call) =>
      var o := Step(w.plane, call.env, cooldown, call.op);
      var v := w.(plane := o.plane, queued := w.queued + o.queued, pending := w.pending + o.queued);
      v.Goto(t, if o.drains then AtDrain(|v.queued|) else Out)
    case Acquire(t) => w.(drainer := Some(t)).Goto(t, InDrain(w.PcOf(t).mark))
    case Pop(t) => w.(pending := w.pending[1..]).Goto(t, Running(w.PcOf(t).mark, w.pending[0]))
    case Finish(t) => w.(done := w.done + [w.PcOf(t).cb]).Goto(t, InDrain(w.PcOf(t).mark))
    case Leave(t) => w.(drainer := None).Goto(t, Out)
  }

  /** The world after an interleaving, or None when some action was not enabled. */
  function After(run: seq<Action>, cooldown: real): Option<World> {
    if run == [] then Some(START)
    else
      var last := |run| - 1;
      match After(run[..last], cooldown)
      case None => None
      case Some(w) => if Enabled(w, run[last]) then Some(Next(w, run[last], cooldown)) else None
  }

  predicate Possible(run: seq<Action>, cooldown: real) {
    After(run, cooldown).Some?
  }

  /** The callbacks that have been started. */
  function Started(w: World): seq<Callback> {
    if w.drainer.Some? && w.PcOf(w.drainer.value).Running? then w.done + [w.PcOf(w.drainer.value).cb] else w.done
  }

  /** Kept by every action: nothing is lost or reordered between the queue and the
      callbacks, one thread drains at a time, and a non-empty queue has a thread
      committed to draining it. */
  ghost predicate Inv(w: World) {
    && w.queued == Started(w) + w.pending
    && (forall t: Thread :: w.PcOf(t).InDrain? || w.PcOf(t).Running? <==> w.drainer == Some(t))
    && (forall t: Thread :: !w.PcOf(t).Out? ==> w.PcOf(t).mark <= |w.queued|)
    && (w.pending != [] ==> exists t: Thread :: !w.PcOf(t).Out?)
  }

  lemma QueueKept(w: World, a: Action, cooldown: real)
    requires Inv(w) && Enabled(w, a)
    ensures var v := Next(w, a, cooldown); v.queued == Started(v) + v.pending
    ensures w.queued <= Next(w, a, cooldown).queued && w.done <= Next(w, a, cooldown).done
  {
    hide Step;
    var v := Next(w, a, cooldown);
    match a
    case Enter(t, call) => assert Started(v) == Started(w);
    case Pop(t) => assert Started(v) == Started(w) + [w.pending[0]];
    case _ => assert Started(v) == Started(w);
  }

  lemma CommitKept(w: World, a: Action, cooldown: real)
    requires Inv(w) && Enabled(w, a)
    ensures var v := Next(w, a, cooldown); v.pending != [] ==> exists t: Thread :: !v.PcOf(t).Out?
  {
    hide Step;
    var v := Next(w, a, cooldown);
    if a.Enter? {
      RefusalIsQuiet(w.plane, a.call.env, cooldown, a.call.op);
    }
    assert forall t: Thread :: t != a.t ==> v.PcOf(t) == w.PcOf(t);
    if v.pending != [] {
      if a.Enter? && w.pending == [] {
        assert !v.PcOf(a.t).Out?;
      } else {
        var t :| !w.PcOf(t).Out?;
        assert !v.PcOf(t).Out?;
      }
    }
  }

  lemma InvKept(w: World, a: Action, cooldown: real)
    requires Inv(w) && Enabled(w, a)
    ensures Inv(Next(w, a, cooldown))
    ensures w.queued <= Next(w, a, cooldown).queued && w.done <= Next(w, a, cooldown).done
  {
    hide Step, Started;
    var v := Next(w, a, cooldown);
    QueueKept(w, a, cooldown);
    CommitKept(w, a, cooldown);
    assert forall t: Thread :: t != a.t ==> v.PcOf(t) == w.PcOf(t);
  }

  lemma {:induction false} Reachable(run: seq<Action>, cooldown: real)
    requires Possible(run, cooldown)
    ensures Inv(After(run, cooldown).value)
  {
    if run != [] {
      Reachable(run[..|run| - 1], cooldown);
      InvKept(After(run[..|run| - 1], cooldown).value, run[|run| - 1], cooldown);
    }
  }

  // ---- the calls behind an interleaving ----

  /** The calls in the order they held the state lock. */
  function Calls(run: seq<Action>): seq<Call> {
    if run == [] then []
    else Calls(run[..|run| - 1]) + (if run[|run| - 1].Enter? then [run[|run| - 1].call] else [])
  }

  /** At and Queued of a prefix do not look at later calls. */
  lemma {:induction false} PrefixOnly(calls: seq<Call>, c: Call, cooldown: real, n: nat)
    requires n <= |calls|
    ensures At(calls + [c], cooldown, n) == At(calls, cooldown, n)
    ensures Queued(calls + [c], cooldown, n) == Queued(calls, cooldown, n)
  {
    hide Step;
    if n > 0 {
      PrefixOnly(calls, c, cooldown, n - 1);
      assert (calls + [c])[n - 1] == calls[n - 1];
    }
  }

  /** Every interleaving acts on the plane like its calls made one after another, so
      what holds of all runs of calls holds of all interleavings. */
  lemma {:induction false} Linearises(run: seq<Action>, cooldown: real)
    requires Possible(run, cooldown)
    ensures var w := After(run, cooldown).value; var calls := Calls(run);
      w.plane == At(calls, cooldown, |calls|) && w.queued == Queued(calls, cooldown, |calls|)
  {
    hide Step;
    if run != [] {
      var last := |run| - 1;
      Linearises(run[..last], cooldown);
      if run[last].Enter? {
        var before := Calls(run[..last]);
        PrefixOnly(before, run[last].call, cooldown, |before|);
        assert Calls(run) == before + [run[last].call];
        assert Calls(run)[|before|] == run[last].call;
      } else {
        assert Calls(run) == Calls(run[..last]);
      }
    }
  }

  // ---- main results ----

  lemma AlternatesPrefix(s: seq<Callback>, q: seq<Callback>)
    requires Alternates(q) && s <= q
    ensures Alternates(s)
  {
    forall x | 0 <= x < |s| && s[x].Unkey? ensures x > 0 && s[x - 1].Transmit? {
      assert q[x].Unkey?;
    }
  }

  /** Main result. The callbacks started so far are a prefix of those queued, in
      queue order, and so an unkey only ever follows the transmit it ends. */
  lemma DispatchInOrder(run: seq<Action>, cooldown: real)
    requires Possible(run, cooldown)
    ensures var w := After(run, cooldown).value;
      && w.done <= Started(w) <= w.queued
      && w.queued == Queued(Calls(run), cooldown, |Calls(run)|)
      && Alternates(w.queued) && Alternates(Started(w))
  {
    hide Step, At, Queued, After, Alternates, Calls;
    Reachable(run, cooldown);
    Linearises(run, cooldown);
    QueueAlternates(Calls(run), cooldown, |Calls(run)|);
    var w := After(run, cooldown).value;
    AlternatesPrefix(Started(w), w.queued);
  }

  lemma LeaveMeansDone(w: World, a: Action)
    requires Inv(w) && Enabled(w, a)
    ensures a.Leave? ==> w.done == w.queued
  {
    assert a.Leave? ==> w.drainer == Some(a.t);
  }

  /** Main result. Thread t made a call that drains at action a. Whenever t is out of
      its calls again, everything queued up to that call has run to completion. */
  lemma {:induction false} ReturnsAfterCallbacks(run: seq<Action>, cooldown: real, a: nat)
    requires Possible(run, cooldown) && a < |run| && run[a].Enter?
    requires Possible(run[..a], cooldown) && Possible(run[..a + 1], cooldown)
    requires Step(After(run[..a], cooldown).value.plane, run[a].call.env, cooldown, run[a].call.op).drains
    ensures var w := After(run, cooldown).value; var q := After(run[..a + 1], cooldown).value.queued;
      q <= w.queued && (w.PcOf(run[a].t).Out? ==> q <= w.done)
  {
    hide Step, Inv;
    var last := |run| - 1;
    if a == last {
      assert run[..a + 1] == run;
    } else {
      var prev := run[..last];
      assert prev[..a] == run[..a] && prev[..a + 1] == run[..a + 1];
      ReturnsAfterCallbacks(prev, cooldown, a);
      Reachable(prev, cooldown);
      InvKept(After(prev, cooldown).value, run[last], cooldown);
      LeaveMeansDone(After(prev, cooldown).value, run[last]);
    }
  }

  /** With no call in flight every queued callback has run. */
  lemma QuietMeansDone(run: seq<Action>, cooldown: real)
    requires Possible(run, cooldown)
    requires forall t: Thread :: After(run, cooldown).value.PcOf(t).Out?
    ensures After(run, cooldown).value.done == After(run, cooldown).value.queued
  {
    Reachable(run, cooldown);
  }

  /** No deadlock: while a thread is inside a call, some thread inside a call can move. */
  lemma NoDeadlock(run: seq<Action>, cooldown: real, t: Thread) returns (a: Action)
    requires Possible(run, cooldown) && !After(run, cooldown).value.PcOf(t).Out?
    ensures !a.Enter? && Enabled(After(run, cooldown).value, a)
  {
    Reachable(run, cooldown);
    var w := After(run, cooldown).value;
    var u := if w.drainer.Some? then w.drainer.value else t;
    assert w.PcOf(t).InDrain? || w.PcOf(t).Running? <==> w.drainer == Some(t);
    a := match w.PcOf(u)
      case AtDrain(_) => Acquire(u)
      case InDrain(_) => if w.pending == [] then Leave(u) else Pop(u)
      case _ => Finish(u);
  }
}
