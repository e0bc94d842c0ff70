/** Safety of remote transmit over every run of calls. */
module RemoteSafety {
  import opened Prelude
  import opened RemotePlane

  // ---- single steps ----

  /** What one call can do to the keyed state: only a transmit leads into it, only an
      unkey or the report that the rig is already unkeyed leads out of it, and leaving
      it is recorded as the transmission's end. */
  lemma KeyingSteps(p: Plane, e: Env, cooldown: real, op: Op)
    ensures var o := Step(p, e, cooldown, op);
      && (p.state != Transmitting && o.plane.state == Transmitting <==> |o.queued| == 1 && o.queued[0].Transmit?)
      && (p.state == Transmitting && o.plane.state != Transmitting <==>
            (|o.queued| == 1 && o.queued[0].Unkey?) || (op == TxFinished && p.state == Transmitting))
      && |o.queued| <= 1
      && (p.state == Transmitting && o.plane.state != Transmitting ==>
            o.plane.lastTxEnd == Some(e.t0) || o.plane.lastTxEnd == Some(e.t1))
      && (p.state != Transmitting ==> o.plane.lastTxEnd == p.lastTxEnd)
  {}

  /** A plane awaiting confirmation was already awaiting the same one, or has just
      granted a request. */
  lemma AwaitSteps(p: Plane, e: Env, cooldown: real, op: Op)
    requires Step(p, e, cooldown, op).plane.state == AwaitingConfirm
    ensures var q := Step(p, e, cooldown, op).plane;
      if p.state == AwaitingConfirm then
        q.holder == p.holder && q.pending == p.pending && q.token == p.token && q.confirmExpires == p.confirmExpires
      else
        && op.Request? && Step(p, e, cooldown, op).result == Ok(Some(op.newToken))
        && q.holder == Some(op.client) && q.pending == Some((op.image, op.mode)) && q.token == Some(op.newToken)
        && q.confirmExpires == e.t1 + CONFIRM_WINDOW_S
  {}

  /** A plane left transmitting was transmitting for the same holder, its heartbeat
      clock moved only by that holder, or was keyed just now. */
  lemma BeatSteps(p: Plane, e: Env, cooldown: real, op: Op)
    requires Step(p, e, cooldown, op).plane.state == Transmitting
    ensures var q := Step(p, e, cooldown, op).plane;
      if p.state == Transmitting && op != Heartbeat(p.holder.value) then
        q.holder == p.holder && q.lastHb == p.lastHb && (op.Tick? ==> e.t0 <= p.lastHb + HEARTBEAT_TIMEOUT_S)
      else
        && (p.state == Transmitting ==> q.holder == p.holder && (op.Heartbeat? || op.Confirm?))
        && ((op.Heartbeat? || op.Confirm?) ==> q.holder == Some(op.client))
        && (p.state != Transmitting ==> op.Confirm? && Step(p, e, cooldown, op).queued != [])
        && q.lastHb == e.t0
  {}

  /** A granted request found the plane idle and the cooldown over. */
  lemma GrantSteps(p: Plane, e: Env, cooldown: real, op: Op)
    requires op.Request? && Step(p, e, cooldown, op).result.Ok?
    ensures p.state == Idle && (p.lastTxEnd.Some? ==> e.t1 >= p.lastTxEnd.value + cooldown)
  {}

  // ---- who may key ----

  /** Call i was granted: `client` asked for this image and got this token. */
  ghost predicate Granted(run: seq<Call>, cooldown: real, i: nat, client: string, image: string, mode: string,
      token: string)
  {
    i < |run| && run[i].op == Request(client, image, mode, token) && Did(run, cooldown, i).result == Ok(Some(token))
  }

  /** From just after call i up to state n the plane awaits confirmation of the same
      request, the lease never leaving `client`. */
  ghost predicate Waits(run: seq<Call>, cooldown: real, i: nat, n: nat, client: string, image: string, mode: string,
      token: string)
  {
    n <= |run| && forall k: nat :: i < k <= n ==>
      var p := At(run, cooldown, k);
      p.state == AwaitingConfirm && p.holder == Some(client) && p.pending == Some((image, mode))
        && p.token == Some(token)
  }

  /** A pending request was granted to the present lease holder, who kept the lease since. */
  lemma {:induction false} PendingWasGranted(run: seq<Call>, cooldown: real, n: nat)
      returns (i: nat, client: string, image: string, mode: string, token: string)
    requires n <= |run| && At(run, cooldown, n).state == AwaitingConfirm
    ensures i < n && Granted(run, cooldown, i, client, image, mode, token)
    ensures Waits(run, cooldown, i, n, client, image, mode, token)
    ensures At(run, cooldown, n).confirmExpires == run[i].env.t1 + CONFIRM_WINDOW_S
  {
    hide Step;
    var p := At(run, cooldown, n - 1);
    AwaitSteps(p, run[n - 1].env, cooldown, run[n - 1].op);
    if p.state == AwaitingConfirm {
      i, client, image, mode, token := PendingWasGranted(run, cooldown, n - 1);
    } else {
      i := n - 1;
      var op := run[i].op;
      client, image, mode, token := op.client, op.image, op.mode, op.newToken;
    }
  }

  /** Main result. A transmit is queued only by the confirm of a request that the
      same client made, holding the lease throughout, with that request's token,
      inside the window, and with every gate open at the confirm. */
  lemma KeyIsAuthorised(run: seq<Call>, cooldown: real, j: nat)
      returns (i: nat, client: string, image: string, mode: string, token: string)
    requires j < |run| && Keys(run, cooldown, j)
    ensures i < j && Granted(run, cooldown, i, client, image, mode, token)
    ensures Waits(run, cooldown, i, j, client, image, mode, token)
    ensures run[j].op == Confirm(client, token)
    ensures Did(run, cooldown, j).queued == [Transmit(image, mode)]
    ensures run[j].env.enabled && run[j].env.rigReady && !run[j].env.txBusy
    ensures run[j].env.t0 < run[i].env.t1 + CONFIRM_WINDOW_S
    ensures At(run, cooldown, j + 1).state == Transmitting && At(run, cooldown, j + 1).holder == Some(client)
  {
    i, client, image, mode, token := PendingWasGranted(run, cooldown, j);
    var p := At(run, cooldown, j);
    assert p.state == AwaitingConfirm && p.holder == Some(client) && p.pending == Some((image, mode))
      && p.token == Some(token);
  }

  /** No two granted requests share a token. */
  ghost predicate FreshTokens(run: seq<Call>, cooldown: real) {
    forall i, j ::
      (0 <= i < j < |run| && run[i].op.Request? && run[j].op.Request?
       && Did(run, cooldown, i).result.Ok? && Did(run, cooldown, j).result.Ok?)
      ==> run[i].op.newToken != run[j].op.newToken
  }

  /** With fresh tokens, no token keys the rig twice. */
  lemma TokenKeysOnce(run: seq<Call>, cooldown: real, j: nat, k: nat)
    requires FreshTokens(run, cooldown)
    requires j < k < |run| && Keys(run, cooldown, j) && Keys(run, cooldown, k)
    ensures run[j].op.Confirm? && run[k].op.Confirm? && run[j].op.token != run[k].op.token
  {
    hide Step, At, Keys;
    var i, client, image, mode, token := KeyIsAuthorised(run, cooldown, j);
    var i', client', image', mode', token' := KeyIsAuthorised(run, cooldown, k);
  }

  // ---- the order of callbacks ----

  /** (transmit [unkey])*: an unkey only directly after the transmit it ends. */
  ghost predicate Alternates(cbs: seq<Callback>) {
    forall x :: 0 <= x < |cbs| && cbs[x].Unkey? ==> x > 0 && cbs[x - 1].Transmit?
  }

  lemma AlternatesNone()
    ensures Alternates([])
  {}

  lemma AlternatesSnoc(cbs: seq<Callback>, more: seq<Callback>)
    requires Alternates(cbs) && |more| <= 1
    requires |more| == 1 && more[0].Unkey? ==> cbs != [] && cbs[|cbs| - 1].Transmit?
    ensures Alternates(cbs + more)
  {
    assert more == [] ==> cbs + more == cbs;
  }

  lemma {:induction false} QueueAlternates(run: seq<Call>, cooldown: real, n: nat)
    requires n <= |run|
    ensures var q := Queued(run, cooldown, n);
      Alternates(q) && (At(run, cooldown, n).state == Transmitting ==> q != [] && q[|q| - 1].Transmit?)
  {
    hide Step, Alternates;
    if n == 0 {
      AlternatesNone();
    } else {
      QueueAlternates(run, cooldown, n - 1);
      KeyingSteps(At(run, cooldown, n - 1), run[n - 1].env, cooldown, run[n - 1].op);
      AlternatesSnoc(Queued(run, cooldown, n - 1), Did(run, cooldown, n - 1).queued);
    }
  }

  /** A refused call queues nothing and does not drain; one that queues drains. */
  lemma RefusalIsQuiet(p: Plane, e: Env, cooldown: real, op: Op)
    ensures var o := Step(p, e, cooldown, op);
      && (o.result.Err? ==> o.queued == [] && !o.drains)
      && (o.queued != [] ==> o.drains && |o.queued| == 1)
  {}

  /** The local operator always wins: afterwards nothing is pending or keyed, nobody
      holds the lease, and a keyed rig has an unkey queued. */
  lemma ReclaimAlwaysWorks(p: Plane, e: Env, cooldown: real)
    ensures var o := Step(p, e, cooldown, ReclaimLocal);
      && o.plane.state == Idle && o.plane.holder.None? && o.plane.pending.None? && o.plane.token.None?
      && (p.state == Transmitting <==> o.queued == [Unkey("local_reclaim")])
  {}

  // ---- the dead-man's-switch ----

  /** When the last tick of the first n calls looked at the clock. */
  function LastTick(run: seq<Call>, n: nat, start: real): real
    requires n <= |run|
  {
    if n == 0 then start
    else if run[n - 1].op.Tick? then run[n - 1].env.t0
    else LastTick(run, n - 1, start)
  }

  /** The keying confirm and the holder's heartbeats are all that moves the heartbeat clock. */
  ghost predicate Beat(run: seq<Call>, cooldown: real, i: nat, client: string) {
    i < |run| && ((run[i].op.Confirm? && run[i].op.client == client && Keys(run, cooldown, i))
                  || run[i].op == Heartbeat(client))
  }

  lemma {:induction false} LastBeat(run: seq<Call>, cooldown: real, n: nat) returns (i: nat, client: string)
    requires n <= |run| && At(run, cooldown, n).state == Transmitting
    ensures i < n && Beat(run, cooldown, i, client) && At(run, cooldown, n).lastHb == run[i].env.t0
    ensures forall k: nat ::
      i < k <= n ==> At(run, cooldown, k).state == Transmitting && At(run, cooldown, k).holder == Some(client)
  {
    hide Step;
    var p := At(run, cooldown, n - 1);
    var op := run[n - 1].op;
    BeatSteps(p, run[n - 1].env, cooldown, op);
    KeyingSteps(p, run[n - 1].env, cooldown, op);
    if p.state == Transmitting && op != Heartbeat(p.holder.value) {
      i, client := LastBeat(run, cooldown, n - 1);
    } else {
      i, client := n - 1, op.client;
    }
  }

  lemma {:induction false} BeatBeforeTick(run: seq<Call>, cooldown: real, n: nat, start: real)
    requires n <= |run| && Monotone(run) && forall i :: 0 <= i < |run| ==> start <= run[i].env.t0
    requires At(run, cooldown, n).state == Transmitting
    ensures LastTick(run, n, start) <= At(run, cooldown, n).lastHb + HEARTBEAT_TIMEOUT_S
  {
    hide Step;
    var p, c := At(run, cooldown, n - 1), run[n - 1];
    BeatSteps(p, c.env, cooldown, c.op);
    TickNotAhead(run, n - 1, start);
    if p.state == Transmitting {
      BeatBeforeTick(run, cooldown, n - 1, start);
    }
  }

  lemma {:induction false} TickNotAhead(run: seq<Call>, n: nat, start: real)
    requires n < |run| && Monotone(run) && forall i :: 0 <= i < |run| ==> start <= run[i].env.t0
    ensures LastTick(run, n, start) <= run[n].env.t0
  {
    if n > 0 && !run[n - 1].op.Tick? {
      TickNotAhead(run, n - 1, start);
    }
  }

  /** Main result. With ticks at most d apart, the plane is transmitting at time
      `now` only within HEARTBEAT_TIMEOUT_S + d of the lease holder's last beat. */
  lemma DeadMansSwitch(run: seq<Call>, cooldown: real, n: nat, start: real, d: real, now: real)
      returns (i: nat, client: string)
    requires n <= |run| && Monotone(run) && forall i :: 0 <= i < |run| ==> start <= run[i].env.t0
    requires now <= LastTick(run, n, start) + d
    requires At(run, cooldown, n).state == Transmitting
    ensures i < n && Beat(run, cooldown, i, client) && At(run, cooldown, n).holder == Some(client)
    ensures now <= run[i].env.t0 + HEARTBEAT_TIMEOUT_S + d
  {
    BeatBeforeTick(run, cooldown, n, start);
    i, client := LastBeat(run, cooldown, n);
    assert At(run, cooldown, n).holder == Some(client);
  }

  // ---- the cooldown ----

  /** Call k ended a transmission. */
  ghost predicate Ends(run: seq<Call>, cooldown: real, k: nat) {
    k < |run| && At(run, cooldown, k).state == Transmitting && At(run, cooldown, k + 1).state != Transmitting
  }

  /** After a transmission, the recorded end is that of its ending call, or later. */
  lemma {:induction false} EndRecorded(run: seq<Call>, cooldown: real, j: nat, n: nat) returns (k: nat)
    requires j <= n <= |run| && Monotone(run)
    requires At(run, cooldown, j).state == Transmitting && At(run, cooldown, n).state != Transmitting
    ensures j <= k < n && Ends(run, cooldown, k)
    ensures At(run, cooldown, n).lastTxEnd.Some? && run[k].env.t0 <= At(run, cooldown, n).lastTxEnd.value
  {
    hide Step;
    KeyingSteps(At(run, cooldown, n - 1), run[n - 1].env, cooldown, run[n - 1].op);
    if At(run, cooldown, n - 1).state == Transmitting {
      k := n - 1;
    } else {
      k := EndRecorded(run, cooldown, j, n - 1);
    }
  }

  /** Main result. Between two keyings the first transmission ended, and the second
      came at least the cooldown after that end. */
  lemma KeysAreSpaced(run: seq<Call>, cooldown: real, j: nat, j': nat) returns (k: nat)
    requires Monotone(run) && j < j' < |run| && Keys(run, cooldown, j) && Keys(run, cooldown, j')
    ensures j < k < j' && Ends(run, cooldown, k)
    ensures run[j'].env.t0 >= run[k].env.t0 + cooldown
  {
    hide Step;
    var i0, c0, im0, m0, t0 := KeyIsAuthorised(run, cooldown, j);
    var i, client, image, mode, token := KeyIsAuthorised(run, cooldown, j');
    GrantSteps(At(run, cooldown, i), run[i].env, cooldown, run[i].op);
    k := EndRecorded(run, cooldown, j + 1, i);
    assert run[i].env.t1 <= run[j'].env.t0;
  }
}
