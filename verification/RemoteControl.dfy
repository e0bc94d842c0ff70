/** `ControlPlane` as the object it is: every method updates the fields under the
    state lock and does exactly one step of the state machine. */
module RemoteControl {
  import opened Prelude
  import opened RemotePlane

  class ControlPlane {
    const minTxInterval: real
    var state: TxState
    var leaseHolder: Option<string>
    var leaseSeen: real
    var confirmToken: Option<string>
    var confirmExpires: real
    var pending: Option<(string, string)>
    var txLastHb: real
    var lastTxEnd: Option<real>
    var pendingDispatch: seq<Callback>

    /** The fields as one value; `pendingDispatch` is kept apart. */
    ghost function Fields(): (p: Fields)
      reads `state, `leaseHolder, `leaseSeen, `confirmToken, `confirmExpires, `pending, `txLastHb, `lastTxEnd
    {
      Plane(state, leaseHolder, leaseSeen, confirmToken, confirmExpires, pending, txLastHb, lastTxEnd)
    }

    ghost predicate Valid()
      reads `state, `leaseHolder, `confirmToken, `pending
    {
      && (state != Idle ==> leaseHolder.Some?)
      && (state == AwaitingConfirm ==> pending.Some? && confirmToken.Some?)
    }

    ghost function View(): (p: Plane)
      reads `state, `leaseHolder, `leaseSeen, `confirmToken, `confirmExpires, `pending, `txLastHb, `lastTxEnd
      requires Valid()
    {
      Fields()
    }

    /** The object did one step of the machine: new state, result, queued callbacks,
        and whether the caller goes on to drain. */
    twostate predicate Stepped(e: Env, op: Op, result: Result, drains: bool)
      reads this
      requires old(Valid()) && Valid()
    {
      var o := Step(old(View()), e, minTxInterval, op);
      View() == o.plane && result == o.result && drains == o.drains
        && pendingDispatch == old(pendingDispatch) + o.queued
    }

    constructor (minTxIntervalS: real)
      ensures Valid() && View() == INIT && pendingDispatch == []
      ensures minTxInterval >= 0.0 && (minTxIntervalS >= 0.0 ==> minTxInterval == minTxIntervalS)
    {
      minTxInterval := if minTxIntervalS < 0.0 then 0.0 else minTxIntervalS;
      state, leaseHolder, leaseSeen := Idle, None, 0.0;
      confirmToken, confirmExpires, pending := None, 0.0, None;
      txLastHb, lastTxEnd, pendingDispatch := 0.0, None, [];
    }

    // ---- internals ----

    method EffectiveHolder(now: real) returns (holder: Option<string>)
      requires Valid()
      modifies `leaseHolder
      ensures Valid() && View() == Lapse(old(View()), now) && holder == leaseHolder
    {
      if leaseHolder.None? {
        return None;
      }
      if state == Idle && now - leaseSeen > LEASE_TIMEOUT_S {
        leaseHolder := None;
      }
      return leaseHolder;
    }

    method ResetLocked(now: real)
      requires Valid()
      modifies `state, `confirmToken, `confirmExpires, `pending, `txLastHb, `lastTxEnd
      ensures Valid() && View() == Reset(old(View()), now) && state == Idle
    {
      if state == Transmitting {
        lastTxEnd := Some(now);
      }
      state, confirmToken, confirmExpires, pending, txLastHb := Idle, None, 0.0, None, 0.0;
    }

    method QueueLocked(cb: Callback)
      modifies `pendingDispatch
      ensures pendingDispatch == old(pendingDispatch) + [cb]
    {
      pendingDispatch := pendingDispatch + [cb];
    }

    /** One thread's drain, undisturbed: the callbacks it ran, in order. Interleaved
        drains are RemoteDispatch. */
    method Drain() returns (executed: seq<Callback>)
      modifies `pendingDispatch
      ensures executed == old(pendingDispatch) && pendingDispatch == []
    {
      executed := [];
      while pendingDispatch != []
        invariant executed + pendingDispatch == old(pendingDispatch)
        decreases |pendingDispatch|
      {
        executed := executed + [pendingDispatch[0]];
        pendingDispatch := pendingDispatch[1..];
      }
    }

    // ---- the public calls ----

    method TakeLeaseCall(clientId: string, e: Env) returns (result: Result, drains: bool)
      requires Valid()
      modifies this
      ensures Valid() && Stepped(e, TakeLease(clientId), result, drains)
    {
      drains := false;
      var holder := EffectiveHolder(e.t0);
      if holder.Some? && holder != Some(clientId) {
        return Err(Busy), false;
      }
      leaseHolder := Some(clientId);
      leaseSeen := e.t1;
      result := Ok(None);
    }

    method ReleaseLeaseCall(clientId: string, e: Env) returns (result: Result, drains: bool)
      requires Valid()
      modifies this
      ensures Valid() && Stepped(e, ReleaseLease(clientId), result, drains)
    {
      if leaseHolder != Some(clientId) {
        return Err(NotLeaseHolder), false;
      }
      var wasTx := state == Transmitting;
      ResetLocked(e.t0);
      leaseHolder := None;
      if wasTx {
        QueueLocked(Unkey("lease_released"));
      }
      return Ok(None), true;
    }

    method ReclaimLocalCall(e: Env) returns (drains: bool)
      requires Valid()
      modifies this
      ensures Valid() && Stepped(e, ReclaimLocal, Ok(None), drains)
    {
      var wasTx := state == Transmitting;
      ResetLocked(e.t0);
      leaseHolder := None;
      if wasTx {
        QueueLocked(Unkey("local_reclaim"));
      }
      return true;
    }

    method HeartbeatCall(clientId: string, e: Env) returns (result: Result, drains: bool)
      requires Valid()
      modifies this
      ensures Valid() && Stepped(e, Heartbeat(clientId), result, drains)
    {
      drains := false;
      if leaseHolder != Some(clientId) {
        return Err(NotLeaseHolder), false;
      }
      leaseSeen := e.t0;
      if state == Transmitting {
        txLastHb := e.t0;
      }
      result := Ok(None);
    }

    /** `token` stands for the value of `secrets.token_urlsafe`. */
    method RequestCall(clientId: string, imageId: string, mode: string, token: string, e: Env)
        returns (result: Result, drains: bool)
      requires Valid()
      modifies this
      ensures Valid() && Stepped(e, Request(clientId, imageId, mode, token), result, drains)
    {
      drains := false;
      if !e.enabled {
        return Err(TxDisabled), false;
      }
      if !e.rigReady {
        return Err(NoRig), false;
      }
      var holder := EffectiveHolder(e.t0);
      if holder != Some(clientId) {
        return Err(NotLeaseHolder), false;
      }
      if state != Idle {
        return Err(Busy), false;
      }
      if e.txBusy {
        return Err(Busy), false;
      }
      if lastTxEnd.Some? && e.t1 - lastTxEnd.value < minTxInterval {
        return Err(Cooldown), false;
      }
      leaseSeen := e.t1;
      confirmToken := Some(token);
      confirmExpires := e.t1 + CONFIRM_WINDOW_S;
      pending := Some((imageId, mode));
      state := AwaitingConfirm;
      result := Ok(Some(token));
    }

    method ConfirmCall(clientId: string, token: string, e: Env) returns (result: Result, drains: bool)
      requires Valid()
      modifies this
      ensures Valid() && Stepped(e, Confirm(clientId, token), result, drains)
    {
      if leaseHolder != Some(clientId) {
        return Err(NotLeaseHolder), false;
      }
      if state != AwaitingConfirm {
        return Err(Busy), false;
      }
      if !e.enabled {
        ResetLocked(e.t0);
        return Err(TxDisabled), false;
      }
      if !e.rigReady {
        ResetLocked(e.t0);
        return Err(NoRig), false;
      }
      if e.txBusy {
        ResetLocked(e.t0);
        return Err(Busy), false;
      }
      if confirmToken != Some(token) {
        return Err(BadToken), false;
      }
      if e.t0 >= confirmExpires {
        ResetLocked(e.t0);
        return Err(ConfirmExpired), false;
      }
      state := Transmitting;
      txLastHb := e.t0;
      leaseSeen := e.t0;
      confirmToken := None;
      QueueLocked(Transmit(pending.value.0, pending.value.1));
      return Ok(None), true;
    }

    method AbortCall(clientId: string, e: Env) returns (result: Result, drains: bool)
      requires Valid()
      modifies this
      ensures Valid() && Stepped(e, Abort(clientId), result, drains)
    {
      if leaseHolder != Some(clientId) {
        return Err(NotLeaseHolder), false;
      }
      if state == Idle {
        return Err(Busy), false;
      }
      var wasTx := state == Transmitting;
      ResetLocked(e.t0);
      if wasTx {
        QueueLocked(Unkey("operator_abort"));
      }
      return Ok(None), true;
    }

    method OnTxFinished(e: Env) returns (drains: bool)
      requires Valid()
      modifies this
      ensures Valid() && Stepped(e, TxFinished, Ok(None), drains)
    {
      if state == Transmitting {
        ResetLocked(e.t0);
      }
      return false;
    }

    method TickCall(e: Env) returns (drains: bool)
      requires Valid()
      modifies this
      ensures Valid() && Stepped(e, Tick, Ok(None), drains)
    {
      if state == Transmitting {
        var reason := None;
        if e.t0 - txLastHb > HEARTBEAT_TIMEOUT_S {
          reason := Some("heartbeat_lost");
        } else if !e.enabled {
          reason := Some("tx_disabled");
        }
        if reason.Some? {
          ResetLocked(e.t1);
          leaseHolder := None;
          QueueLocked(Unkey(reason.value));
        }
      } else if state == AwaitingConfirm {
        if e.t0 >= confirmExpires {
          ResetLocked(e.t1);
        }
      }
      if leaseHolder.Some? && state == Idle && e.t0 - leaseSeen > LEASE_TIMEOUT_S {
        leaseHolder := None;
      }
      return true;
    }

    method HoldsLeaseCall(clientId: string, e: Env) returns (holds: bool)
      requires Valid()
      modifies `leaseHolder
      ensures Valid() && View() == Step(old(View()), e, minTxInterval, HoldsLease(clientId)).plane
      ensures holds <==> Step(old(View()), e, minTxInterval, HoldsLease(clientId)).result.Ok?
    {
      var holder := EffectiveHolder(e.t0);
      return holder == Some(clientId);
    }
  }
}
