/** What every call of the control plane achieves: stops stop, handshakes key, and
    refusals change nothing, in every state and over whole runs. */
module RemoteActs {
  import opened Prelude
  import opened RemotePlane
  import opened RemoteSafety
  import opened RemoteDispatch

  /** Nothing is keyed, awaited or granted. */
  predicate Cleared(p: Plane) {
    p.state == Idle && p.pending.None? && p.token.None?
  }

  /** An idle lease whose holder was silent too long counts as free. */
  function Owner(p: Plane, now: real): Option<string> {
    if p.state == Idle && now > p.leaseSeen + LEASE_TIMEOUT_S then None else p.holder
  }

  /** A call that ends the transmit lifecycle: the holder's abort of what is pending or
      keyed, the holder's release, or the local operator's reclaim. */
  predicate Stops(p: Plane, op: Op) {
    || (op.Abort? && p.holder == Some(op.client) && p.state != Idle)
    || (op.ReleaseLease? && p.holder == Some(op.client))
    || op.ReclaimLocal?
  }

  /** Main result. A stop leaves nothing keyed or pending, and queues exactly one unkey if
      and only if the rig was keyed; only an abort keeps the lease. */
  lemma StopActs(p: Plane, e: Env, cooldown: real, op: Op)
    requires Stops(p, op)
    ensures var o := Step(p, e, cooldown, op);
      && o.result == Ok(None) && Cleared(o.plane) && o.drains
      && o.plane.holder == (if op.Abort? then p.holder else None)
      && (p.state == Transmitting ==> |o.queued| == 1 && o.queued[0].Unkey? && o.plane.lastTxEnd == Some(e.t0))
      && (p.state != Transmitting ==> o.queued == [] && o.plane.lastTxEnd == p.lastTxEnd)
  {}

  /** A stop that is none is refused and changes nothing. */
  lemma StopRefused(p: Plane, e: Env, cooldown: real, op: Op)
    requires (op.Abort? || op.ReleaseLease?) && !Stops(p, op)
    ensures var o := Step(p, e, cooldown, op);
      && o.plane == p && o.queued == [] && !o.drains
      && o.result == Err(if p.holder != Some(op.client) then NotLeaseHolder else Busy)
  {}

  /** The sweep has a reason to act. */
  predicate Overdue(p: Plane, e: Env) {
    match p.state
    case Transmitting => e.t0 > p.lastHb + HEARTBEAT_TIMEOUT_S || !e.enabled
    case AwaitingConfirm => e.t0 >= p.confirmExpires
    case Idle => false
  }

  /** Main result. The sweep unkeys a transmission whose holder fell silent or whose gate
      was closed, and takes the lease; it drops an expired request; it frees a silent idle
      lease; and it does nothing else. */
  lemma TickActs(p: Plane, e: Env, cooldown: real)
    ensures var o := Step(p, e, cooldown, Tick);
      && o.result == Ok(None) && o.drains
      && (Overdue(p, e) ==> Cleared(o.plane))
      && (Overdue(p, e) && p.state == Transmitting ==>
            |o.queued| == 1 && o.queued[0].Unkey? && o.plane.holder.None? && o.plane.lastTxEnd == Some(e.t1))
      && (!(Overdue(p, e) && p.state == Transmitting) ==>
            o.queued == [] && o.plane.holder == Owner(o.plane.(holder := p.holder), e.t0)
            && o.plane.lastTxEnd == p.lastTxEnd)
      && (!Overdue(p, e) ==> o.plane == p.(holder := Owner(p, e.t0)))
  {}

  /** A request is granted if and only if every gate is open, its client owns the lease,
      nothing is in flight and the cooldown is over; otherwise nothing starts. */
  lemma RequestActs(p: Plane, e: Env, cooldown: real, client: string, image: string, mode: string, token: string)
    ensures var o := Step(p, e, cooldown, Request(client, image, mode, token));
      var open := e.enabled && e.rigReady && !e.txBusy && p.state == Idle && Owner(p, e.t0) == Some(client)
        && (p.lastTxEnd.Some? ==> e.t1 >= p.lastTxEnd.value + cooldown);
      && (o.result == Ok(Some(token)) <==> open)
      && (open ==> o.plane.state == AwaitingConfirm && o.plane.pending == Some((image, mode))
                   && o.plane.token == Some(token) && o.plane.confirmExpires == e.t1 + CONFIRM_WINDOW_S
                   && o.plane.holder == Some(client) && o.plane.leaseSeen == e.t1)
      && (!open ==> o.result.Err? && o.plane.(holder := p.holder) == p
                    && o.plane.holder in {p.holder, Owner(p, e.t0)})
      && o.queued == [] && !o.drains && o.plane.lastTxEnd == p.lastTxEnd
  {}

  /** Which error a refused request gets: that of the first closed gate. */
  lemma RequestErrors(p: Plane, e: Env, cooldown: real, client: string, image: string, mode: string, token: string)
    ensures var r := Step(p, e, cooldown, Request(client, image, mode, token)).result;
      && (r == Err(TxDisabled) <==> !e.enabled)
      && (r == Err(NoRig) <==> e.enabled && !e.rigReady)
      && (r == Err(NotLeaseHolder) <==> e.enabled && e.rigReady && Owner(p, e.t0) != Some(client))
      && (r == Err(Busy) <==>
            e.enabled && e.rigReady && Owner(p, e.t0) == Some(client) && (p.state != Idle || e.txBusy))
  {}

  /** A confirm keys the rig if and only if the plane awaits it with this token, from this
      client, inside the window and with every gate open. */
  lemma ConfirmActs(p: Plane, e: Env, cooldown: real, client: string, token: string)
    ensures var o := Step(p, e, cooldown, Confirm(client, token));
      var gates := e.enabled && e.rigReady && !e.txBusy;
      var awaited := p.state == AwaitingConfirm && p.holder == Some(client);
      var keys := awaited && gates && p.token == Some(token) && e.t0 < p.confirmExpires;
      && (o.result == Ok(None) <==> keys)
      && (keys ==> o.plane.state == Transmitting && o.queued == [Transmit(p.pending.value.0, p.pending.value.1)]
                   && o.drains && o.plane.lastHb == e.t0 && o.plane.leaseSeen == e.t0 && o.plane.token.None?)
      && (!keys ==> o.result.Err? && o.queued == [] && !o.drains)
      && (awaited && (!gates || (p.token == Some(token) && !keys)) ==> Cleared(o.plane))
      && (!awaited || (gates && p.token != Some(token)) ==> o.plane == p)
      && o.plane.holder == p.holder && o.plane.lastTxEnd == p.lastTxEnd
  {}

  /** The holder's heartbeat is seen, by the lease always and by the dead-man's-switch
      while transmitting; nobody else's is. */
  lemma HeartbeatActs(p: Plane, e: Env, cooldown: real, client: string)
    ensures var o := Step(p, e, cooldown, Heartbeat(client));
      var own := p.holder == Some(client);
      && (o.result == Ok(None) <==> own) && o.queued == []
      && (own ==> o.plane.leaseSeen == e.t0)
      && (own && p.state == Transmitting ==> o.plane.lastHb == e.t0)
      && (own && p.state != Transmitting ==> o.plane.lastHb == p.lastHb)
      && (own ==> o.plane.(leaseSeen := p.leaseSeen, lastHb := p.lastHb) == p) && (!own ==> o.plane == p)
  {}

  /** The lease goes to whoever asks unless another client owns it; a lifecycle in flight
      is not touched. */
  lemma LeaseActs(p: Plane, e: Env, cooldown: real, client: string)
    ensures var o := Step(p, e, cooldown, TakeLease(client));
      var free := Owner(p, e.t0) in {None, Some(client)};
      && (o.result == Ok(None) <==> free) && o.queued == []
      && (free ==> o.plane == p.(holder := Some(client), leaseSeen := e.t1))
      && (!free ==> o.plane == p && o.result == Err(Busy))
    ensures var o := Step(p, e, cooldown, HoldsLease(client));
      (o.result.Ok? <==> Owner(p, e.t0) == Some(client)) && o.queued == [] && o.plane == p.(holder := Owner(p, e.t0))
  {}

  /** The report that the rig is done ends a transmission, keeps the lease, and is
      ignored in any other state. */
  lemma FinishActs(p: Plane, e: Env, cooldown: real)
    ensures var o := Step(p, e, cooldown, TxFinished);
      && o.queued == [] && o.plane.holder == p.holder
      && (p.state == Transmitting ==> Cleared(o.plane) && o.plane.lastTxEnd == Some(e.t0))
      && (p.state != Transmitting ==> o.plane == p)
  {}

  // ---- over runs ----

  /** Three calls of one client with every gate open. */
  ghost predicate Handshake(p: Plane, run: seq<Call>, cooldown: real, client: string, image: string, mode: string,
      token: string)
  {
    && |run| == 3 && run[0].op == TakeLease(client) && run[1].op == Request(client, image, mode, token)
    && run[2].op == Confirm(client, token)
    && (forall i :: 1 <= i < 3 ==> run[i].env.enabled && run[i].env.rigReady && !run[i].env.txBusy)
    && run[1].env.t0 <= run[0].env.t1 + LEASE_TIMEOUT_S
    && run[2].env.t0 < run[1].env.t1 + CONFIRM_WINDOW_S
    && p.state == Idle && Owner(p, run[0].env.t0) in {None, Some(client)}
    && (p.lastTxEnd.Some? ==> run[1].env.t1 >= p.lastTxEnd.value + cooldown)
  }

  /** The plane after a few calls from p. */
  function From(p: Plane, run: seq<Call>, cooldown: real): (r: (Plane, seq<Callback>))
  {
    if run == [] then (p, [])
    else
      var (q, cbs) := From(p, run[..|run| - 1], cooldown);
      var o := Step(q, run[|run| - 1].env, cooldown, run[|run| - 1].op);
      (o.plane, cbs + o.queued)
  }

  /** Main result. From any idle plane that is free or already the client's, with the
      cooldown over, lease, request and confirm key the rig with the requested image. */
  lemma HandshakeKeys(p: Plane, run: seq<Call>, cooldown: real, client: string, image: string, mode: string,
      token: string)
    requires Handshake(p, run, cooldown, client, image, mode, token)
    ensures var (q, cbs) := From(p, run, cooldown);
      q.state == Transmitting && q.holder == Some(client) && cbs == [Transmit(image, mode)]
  {
    hide Step;
    OneMore(p, run, cooldown, 0);
    OneMore(p, run, cooldown, 1);
    OneMore(p, run, cooldown, 2);
    assert run[..0] == [] && run[..3] == run;
    var q1 := Step(p, run[0].env, cooldown, run[0].op).plane;
    LeaseActs(p, run[0].env, cooldown, client);
    var q2 := Step(q1, run[1].env, cooldown, run[1].op).plane;
    RequestActs(q1, run[1].env, cooldown, client, image, mode, token);
    ConfirmActs(q2, run[2].env, cooldown, client, token);
  }

  lemma OneMore(p: Plane, run: seq<Call>, cooldown: real, n: nat)
    requires n < |run|
    ensures var (q, cbs) := From(p, run[..n], cooldown);
      var o := Step(q, run[n].env, cooldown, run[n].op);
      From(p, run[..n + 1], cooldown) == (o.plane, cbs + o.queued)
  {
    hide Step;
    assert run[..n + 1][..n] == run[..n];
  }

  /** Main result. In every run a stop of a keyed rig is the last callback queued, directly
      behind the transmit it ends. */
  lemma StopUnkeys(run: seq<Call>, cooldown: real, n: nat)
    requires n < |run| && Stops(At(run, cooldown, n), run[n].op) && At(run, cooldown, n).state == Transmitting
    ensures var q := Queued(run, cooldown, n + 1);
      Cleared(At(run, cooldown, n + 1)) && |q| >= 2 && q[|q| - 1].Unkey? && q[|q| - 2].Transmit?
  {
    hide Step, Stops, Cleared, Alternates;
    StopActs(At(run, cooldown, n), run[n].env, cooldown, run[n].op);
    QueueAlternates(run, cooldown, n);
  }

  /** Main result. In every interleaving, when the thread whose call stopped a keyed rig is
      out of its call again, the unkey has run. */
  lemma StopIsHeard(run: seq<Action>, cooldown: real, a: nat)
    requires Possible(run, cooldown) && a < |run| && run[a].Enter?
    requires Possible(run[..a], cooldown) && Possible(run[..a + 1], cooldown)
    requires var p := After(run[..a], cooldown).value.plane; Stops(p, run[a].call.op) && p.state == Transmitting
    ensures var w, q := After(run, cooldown).value, After(run[..a + 1], cooldown).value.queued;
      q != [] && q[|q| - 1].Unkey? && (w.PcOf(run[a].t).Out? ==> q <= w.done)
  {
    hide Step, Stops, Cleared;
    var before := After(run[..a], cooldown).value;
    StopActs(before.plane, run[a].call.env, cooldown, run[a].call.op);
    assert run[..a + 1][..a] == run[..a] && run[..a + 1][a] == run[a];
    assert After(run[..a + 1], cooldown) == Some(Next(before, run[a], cooldown));
    ReturnsAfterCallbacks(run, cooldown, a);
  }
}
