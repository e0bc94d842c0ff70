/** The remote-transmit control plane as a timed state machine: what every call
    does under the state lock (remote/control.py). */
module RemotePlane {
  import opened Prelude

  const CONFIRM_WINDOW_S := 30.0
  const HEARTBEAT_TIMEOUT_S := 2.5
  const LEASE_TIMEOUT_S := 15.0

  datatype TxState = Idle | AwaitingConfirm | Transmitting

  datatype Callback = Transmit(image: string, mode: string) | Unkey(reason: string)

  datatype Error = TxDisabled | NoRig | NotLeaseHolder | Busy | BadToken | ConfirmExpired | Cooldown

  datatype Result = Ok(token: Option<string>) | Err(error: Error)

  /** What a call sees: its first and second clock readings and the injected gates. */
  datatype Env = Env(t0: real, t1: real, enabled: bool, rigReady: bool, txBusy: bool)

  datatype Fields = Plane(
    state: TxState, holder: Option<string>, leaseSeen: real,
    token: Option<string>, confirmExpires: real, pending: Option<(string, string)>,
    lastHb: real, lastTxEnd: Option<real>)

  /** What every call keeps: a request in flight has an owner, and `confirm` can
      assert that the awaited request is still there. */
  type Plane = f: Fields |
    && (f.state != Idle ==> f.holder.Some?)
    && (f.state == AwaitingConfirm ==> f.pending.Some? && f.token.Some?)
    witness INIT

  const INIT := Plane(Idle, None, 0.0, None, 0.0, None, 0.0, None)

  /** The next state, the caller's result, the callbacks queued, and whether the
      call goes on to drain the queue. */
  datatype Outcome = Outcome(plane: Plane, result: Result, queued: seq<Callback>, drains: bool)

  datatype Op =
    | TakeLease(client: string)
    | ReleaseLease(client: string)
    | ReclaimLocal
    | Heartbeat(client: string)
    | Request(client: string, image: string, mode: string, newToken: string)
    | Confirm(client: string, token: string)
    | Abort(client: string)
    | TxFinished
    | Tick
    | HoldsLease(client: string)

  // ---- the calls ----

  /** `_effective_holder`: an idle lease whose holder went silent is freed. */
  function Lapse(p: Plane, now: real): Plane {
    if p.holder.Some? && p.state == Idle && now - p.leaseSeen > LEASE_TIMEOUT_S then p.(holder := None) else p
  }

  /** `_reset_locked`: back to idle; a transmission's end starts the cooldown. */
  function Reset(p: Plane, now: real): Plane {
    p.(state := Idle, token := None, confirmExpires := 0.0, pending := None, lastHb := 0.0,
       lastTxEnd := if p.state == Transmitting then Some(now) else p.lastTxEnd)
  }

  function Refuse(p: Plane, e: Error): Outcome {
    Outcome(p, Err(e), [], false)
  }

  /** End the lifecycle, unkeying if the rig is keyed, and drain. */
  function Stop(p: Plane, now: real, reason: string, keepLease: bool): Outcome {
    var q := Reset(p, now);
    Outcome(if keepLease then q else q.(holder := None), Ok(None),
            if p.state == Transmitting then [Unkey(reason)] else [], true)
  }

  function DoRequest(p: Plane, e: Env, cooldown: real, client: string, image: string, mode: string,
      newToken: string): Outcome
  {
    if !e.enabled then Refuse(p, TxDisabled)
    else if !e.rigReady then Refuse(p, NoRig)
    else
      var q := Lapse(p, e.t0);
      if q.holder != Some(client) then Refuse(q, NotLeaseHolder)
      else if q.state != Idle || e.txBusy then Refuse(q, Busy)
      else if q.lastTxEnd.Some? && e.t1 - q.lastTxEnd.value < cooldown then Refuse(q, Cooldown)
      else Outcome(q.(leaseSeen := e.t1, token := Some(newToken), confirmExpires := e.t1 + CONFIRM_WINDOW_S,
                      pending := Some((image, mode)), state := AwaitingConfirm),
                   Ok(Some(newToken)), [], false)
  }

  function DoConfirm(p: Plane, e: Env, client: string, token: string): Outcome {
    if p.holder != Some(client) then Refuse(p, NotLeaseHolder)
    else if p.state != AwaitingConfirm then Refuse(p, Busy)
    else if !e.enabled then Refuse(Reset(p, e.t0), TxDisabled)
    else if !e.rigReady then Refuse(Reset(p, e.t0), NoRig)
    else if e.txBusy then Refuse(Reset(p, e.t0), Busy)
    else if p.token != Some(token) then Refuse(p, BadToken)
    else if e.t0 >= p.confirmExpires then Refuse(Reset(p, e.t0), ConfirmExpired)
    else Outcome(p.(state := Transmitting, lastHb := e.t0, leaseSeen := e.t0, token := None),
                 Ok(None), [Transmit(p.pending.value.0, p.pending.value.1)], true)
  }

  /** The periodic sweep: dead-man's-switch, stale tokens, silent idle leases. */
  function DoTick(p: Plane, e: Env): Outcome {
    var (q, cb) :=
      if p.state == Transmitting && e.t0 - p.lastHb > HEARTBEAT_TIMEOUT_S then
        (Reset(p, e.t1).(holder := None), [Unkey("heartbeat_lost")])
      else if p.state == Transmitting && !e.enabled then
        (Reset(p, e.t1).(holder := None), [Unkey("tx_disabled")])
      else if p.state == AwaitingConfirm && e.t0 >= p.confirmExpires then (Reset(p, e.t1), [])
      else (p, []);
    Outcome(Lapse(q, e.t0), Ok(None), cb, true)
  }

  function Step(p: Plane, e: Env, cooldown: real, op: Op): Outcome {
    match op
    case TakeLease(client) =>
      var q := Lapse(p, e.t0);
      if q.holder.Some? && q.holder != Some(client) then Refuse(q, Busy)
      else Outcome(q.(holder := Some(client), leaseSeen := e.t1), Ok(None), [], false)
    case ReleaseLease(client) =>
      if p.holder != Some(client) then Refuse(p, NotLeaseHolder) else Stop(p, e.t0, "lease_released", false)
    case ReclaimLocal => Stop(p, e.t0, "local_reclaim", false)
    case Heartbeat(client) =>
      if p.holder != Some(client) then Refuse(p, NotLeaseHolder)
      else Outcome(p.(leaseSeen := e.t0, lastHb := if p.state == Transmitting then e.t0 else p.lastHb),
                   Ok(None), [], false)
    case Request(client, image, mode, newToken) => DoRequest(p, e, cooldown, client, image, mode, newToken)
    case Confirm(client, token) => DoConfirm(p, e, client, token)
    case Abort(client) =>
      if p.holder != Some(client) then Refuse(p, NotLeaseHolder)
      else if p.state == Idle then Refuse(p, Busy)
      else Stop(p, e.t0, "operator_abort", true)
    case TxFinished =>
      Outcome(if p.state == Transmitting then Reset(p, e.t0) else p, Ok(None), [], false)
    case Tick => DoTick(p, e)
    case HoldsLease(client) =>
      var q := Lapse(p, e.t0);
      if q.holder == Some(client) then Outcome(q, Ok(None), [], false) else Refuse(q, NotLeaseHolder)
  }

  // ---- runs ----

  datatype Call = Call(op: Op, env: Env)

  /** The plane after the first n calls. */
  function At(run: seq<Call>, cooldown: real, n: nat): Plane
    requires n <= |run|
  {
    if n == 0 then INIT else Step(At(run, cooldown, n - 1), run[n - 1].env, cooldown, run[n - 1].op).plane
  }

  /** What call n did. */
  function Did(run: seq<Call>, cooldown: real, n: nat): Outcome
    requires n < |run|
  {
    Step(At(run, cooldown, n), run[n].env, cooldown, run[n].op)
  }

  /** Every callback queued by the first n calls, in order. */
  function Queued(run: seq<Call>, cooldown: real, n: nat): seq<Callback>
    requires n <= |run|
  {
    if n == 0 then [] else Queued(run, cooldown, n - 1) + Did(run, cooldown, n - 1).queued
  }

  /** Call n keys the rig. */
  predicate Keys(run: seq<Call>, cooldown: real, n: nat)
    requires n < |run|
  {
    Did(run, cooldown, n).queued != [] && Did(run, cooldown, n).queued[0].Transmit?
  }

  /** The clock never runs backwards. */
  ghost predicate Monotone(run: seq<Call>) {
    && (forall i :: 0 <= i < |run| ==> run[i].env.t0 <= run[i].env.t1)
    && (forall i, j :: 0 <= i < j < |run| ==> run[i].env.t1 <= run[j].env.t0)
  }
}
