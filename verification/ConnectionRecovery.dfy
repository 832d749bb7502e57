/**
  * The bounded recovery of one connection object. Every method is what the event loop runs without interruption:
  * a handler up to its first await, what follows an await, or a timer.
  */
module ConnectionRecovery {
  import opened Results

  datatype Phase = Direct | Relay

  /** What the states of the peer connection amount to; Gone when there is none. */
  datatype Health = Connected | Disconnected | Failed | Other | Gone

  /** The settings that a recovery reads, and whether it can switch the connection to a relay. */
  datatype Policy = Policy(autoRecover: bool, intentionalDisconnect: bool, autoRelay: bool, canEscalate: bool)

  /** The restart that a recovery requests next, or none when it gives up. */
  function NextRequest(policy: Policy, stage: nat): Option<Phase> {
    if !policy.autoRecover || policy.intentionalDisconnect then None
    else if stage == 0 then Some(Direct)
    else if stage == 1 && policy.autoRelay && policy.canEscalate then Some(Relay)
    else None
  }

  class RecoverableConnection {
    /** The registry still has this object for its peer. */
    var current: bool
    var finalized: bool
    var recovering: bool
    var recoveryStage: nat
    var disconnectTimer: bool
    var connectTimer: bool
    var recoveryTimer: bool
    /** Recovery timers that still run although another one has taken their place. */
    var orphanTimers: nat
    /** The recoveries that await the result of a restart request. */
    var awaiting: seq<Phase>

    /**
      * The restarts requested since the connection was last
      * connected, or made, and between earlier visits to that state.
      */
    ghost var requests: seq<Phase>
    ghost var rounds: seq<seq<Phase>>
    ghost var failures: nat
    /** How often a recovery was announced although the object was finalized. */
    ghost var lateAnnouncements: nat

    ghost predicate Valid()
      reads this
    {
      && BoundedRequests(recoveryStage, requests)
      && (forall i :: 0 <= i < |rounds| ==> rounds[i] <= [Direct, Relay])
      && failures <= 1 && (failures == 1 ==> finalized)
      && (recovering && !finalized ==> awaiting != [] || recoveryTimer || orphanTimers > 0)
    }

    constructor ()
      ensures Valid() && current && !finalized && !recovering && requests == [] && failures == 0 && awaiting == []
      ensures lateAnnouncements == 0 && connectTimer && !recoveryTimer && orphanTimers == 0 && rounds == []
    {
      current, finalized, recovering, recoveryStage := true, false, false, 0;
      disconnectTimer, connectTimer, recoveryTimer, orphanTimers, awaiting := false, true, false, 0, [];
      requests, rounds, failures, lateAnnouncements := [], [], 0, 0;
    }

    method ClearTimers()
      modifies this`disconnectTimer, this`connectTimer, this`recoveryTimer
      ensures !disconnectTimer && !connectTimer && !recoveryTimer
    {
      disconnectTimer, recoveryTimer, connectTimer := false, false, false;
    }

    // ----- Peer connection states -----

    method HandlePeerConnectionState(state: Health, policy: Policy)
      requires Valid()
      modifies this
      ensures Valid() && orphanTimers == old(orphanTimers) && (old(finalized) ==> Untouched())
      ensures old(current) && !old(finalized) && state.Connected? ==>
        && !recovering && recoveryStage == 0 && requests == [] && rounds == old(rounds) + [old(requests)]
        && awaiting == old(awaiting) && !finalized && current && failures == old(failures)
      ensures !(state.Connected? && old(current && !finalized))
        ==> Extends(old(requests), requests) && rounds == old(rounds)
      ensures state.Disconnected? && old(current && !finalized) ==> Untouched() && disconnectTimer
      ensures !old(current) || state.Other? || state.Gone? ==> Untouched()
      ensures state.Failed? && old(current && !finalized && !recovering)
        ==> Attempted(old(NextRequest(policy, recoveryStage)))
      ensures lateAnnouncements == old(lateAnnouncements)
    {
      if !current || finalized || state.Gone? {
        return;
      }
      match state
      case Connected =>
        ClearTimers();
        recovering := false;
        recoveryStage := 0;
        rounds, requests := rounds + [requests], [];
      case Disconnected =>
        disconnectTimer := true;
      case Failed =>
        disconnectTimer := false;
        RecoverConnection(policy);
      case _ =>
    }

    /** Nothing of the recovery has changed. */
    twostate predicate Untouched()
      reads this
    {
      && recovering == old(recovering) && recoveryStage == old(recoveryStage) && awaiting == old(awaiting)
      && requests == old(requests) && rounds == old(rounds) && failures == old(failures) && finalized == old(finalized)
    }

    /** The next restart has been requested, or the connection has failed for good. */
    twostate predicate Attempted(next: Option<Phase>)
      reads this
    {
      match next
      case Some(phase) =>
        && requests == old(requests) + [phase] && awaiting == old(awaiting) + [phase]
        && recovering && !finalized && current && failures == old(failures)
      case None => requests == old(requests) && awaiting == old(awaiting) && finalized && failures == 1
    }

    // ----- Recovery -----

    /** Up to the await: at most one request, and none for an object that is finalized or replaced. */
    method RecoverConnection(policy: Policy)
      requires Valid()
      modifies this
      ensures Valid() && orphanTimers == old(orphanTimers)
      ensures lateAnnouncements == old(lateAnnouncements)
      ensures old(finalized || !current || recovering) ==> Untouched()
      ensures old(!finalized && current && !recovering) ==> Attempted(old(NextRequest(policy, recoveryStage)))
      ensures old(!finalized && current && !recovering) ==>
        if policy.autoRecover && !policy.intentionalDisconnect && old(recoveryStage) == 0 then
          requests == old(requests) + [Direct] && !finalized
        else if policy.autoRecover && !policy.intentionalDisconnect && old(recoveryStage) == 1
                && policy.autoRelay && policy.canEscalate then
          requests == old(requests) + [Relay] && !finalized
        else requests == old(requests) && finalized && failures == 1
      ensures Extends(old(requests), requests) && rounds == old(rounds)
    {
      if !current || finalized || recovering {
        return;
      }
      if !policy.autoRecover || policy.intentionalDisconnect {
        HandleConnectionFailed();
        return;
      }
      recovering := true;
      recoveryTimer := false;
      if recoveryStage == 0 {
        recoveryStage := 1;
        Request(Direct);
        return;
      } else if recoveryStage == 1 && policy.autoRelay {
        recoveryStage := 2;
        if policy.canEscalate {
          Request(Relay);
          return;
        }
      }
      recovering := false;
      HandleConnectionFailed();
    }

    method Request(phase: Phase)
      modifies this`awaiting, this`requests
      ensures awaiting == old(awaiting) + [phase] && requests == old(requests) + [phase]
    {
      awaiting := awaiting + [phase];
      requests := requests + [phase];
    }

    /** After the await: the object may have been connected, finalized or replaced meanwhile, which is not looked at. */
    method ResumeRecovery(k: nat, started: bool)
      requires Valid() && k < |awaiting|
      modifies this
      ensures Valid() && awaiting == old(awaiting)[..k] + old(awaiting)[k + 1..]
      ensures requests == old(requests) && rounds == old(rounds)
      ensures recoveryStage == old(recoveryStage)
      ensures started ==> recoveryTimer && finalized == old(finalized)
      ensures started ==> failures == old(failures) && recovering == old(recovering)
      ensures lateAnnouncements == old(lateAnnouncements) + (if started && old(finalized) then 1 else 0)
      ensures !started ==> finalized && !recovering && failures == if old(finalized) then old(failures) else 1
    {
      awaiting := awaiting[..k] + awaiting[k + 1..];
      if !started {
        recovering := false;
        HandleConnectionFailed();
        return;
      }
      if finalized {
        lateAnnouncements := lateAnnouncements + 1;
      }
      if recoveryTimer {
        orphanTimers := orphanTimers + 1;
      }
      recoveryTimer := true;
    }

    /** Finalizes the object, and says so once. */
    method HandleConnectionFailed()
      requires Valid()
      modifies this`current, this`finalized, this`failures, this`disconnectTimer, this`connectTimer, this`recoveryTimer
      ensures Valid() && finalized
      ensures failures == if old(finalized) then old(failures) else 1
    {
      if finalized {
        return;
      }
      finalized := true;
      ClearTimers();
      current := false;
      failures := failures + 1;
    }

    // ----- Timers -----

    method DisconnectTimerFires(state: Health, up: bool, policy: Policy)
      requires Valid() && disconnectTimer
      modifies this
      ensures Valid() && (old(finalized) ==> Untouched()) && Extends(old(requests), requests) && rounds == old(rounds)
      ensures up || state.Gone? || !old(current) || old(recovering) ==> Untouched()
      ensures !up && !state.Gone? && old(current && !finalized && !recovering) ==>
        Attempted(old(NextRequest(policy, recoveryStage)))
    {
      disconnectTimer := false;
      if !current || state.Gone? {
        return;
      }
      if !up {
        RecoverConnection(policy);
      }
    }

    method ConnectTimerFires(state: Health, up: bool, policy: Policy)
      requires Valid() && connectTimer
      modifies this
      ensures Valid() && (old(finalized) ==> Untouched()) && Extends(old(requests), requests) && rounds == old(rounds)
      ensures up || state.Gone? || !old(current) || old(recovering) ==> Untouched()
      ensures !up && !state.Gone? && old(current && !finalized && !recovering) ==>
        Attempted(old(NextRequest(policy, recoveryStage)))
    {
      connectTimer := false;
      if !current || state.Gone? {
        return;
      }
      if !up {
        RecoverConnection(policy);
      }
    }

    /** Either the timer that is remembered fires, or one that it has replaced. */
    method RecoveryTimerFires(orphan: bool, state: Health, up: bool, policy: Policy)
      requires Valid() && if orphan then orphanTimers > 0 else recoveryTimer
      modifies this
      ensures Valid() && (old(finalized) ==> requests == old(requests) && failures == old(failures) && finalized)
      ensures if up && state.Connected? && old(current && !finalized)
        then requests == [] && rounds == old(rounds) + [old(requests)] && recoveryStage == 0 && !recovering
        else Extends(old(requests), requests) && rounds == old(rounds)
      ensures !up && !state.Gone? && old(current && !finalized) ==> Attempted(old(NextRequest(policy, recoveryStage)))
      ensures state.Gone? || !old(current) ==>
        !recovering && requests == old(requests) && awaiting == old(awaiting) && failures == old(failures)
      ensures up && state.Failed? && old(current && !finalized) ==> Attempted(old(NextRequest(policy, recoveryStage)))
    {
      if orphan {
        orphanTimers := orphanTimers - 1 + (if recoveryTimer then 1 else 0);
      }
      recoveryTimer := false;
      recovering := false;
      if !current || state.Gone? {
        return;
      }
      if up {
        HandlePeerConnectionState(state, policy);
      } else {
        RecoverConnection(policy);
      }
    }

    // ----- Other places that end a connection -----

    /** A bye, a new session, or the end of the view finalizes the object and drops it. */
    method FinalizeElsewhere()
      requires Valid()
      modifies this`current, this`finalized, this`disconnectTimer, this`connectTimer, this`recoveryTimer
      ensures Valid() && finalized && !current && !recoveryTimer
    {
      ClearTimers();
      finalized := true;
      current := false;
    }

    /** Another object takes the place of this one. */
    method Replace()
      requires Valid()
      modifies this`current
      ensures Valid() && !current
    {
      current := false;
    }
  }

  /** At most two requests, one for each stage: a direct one, and then one over a relay. */
  ghost predicate BoundedRequests(stage: nat, requests: seq<Phase>) {
    || (stage == 0 && requests == [])
    || (stage == 1 && requests == [Direct])
    || (stage == 2 && (requests == [Direct] || requests == [Direct, Relay]))
  }

  /** Nothing or one request has been added. */
  ghost predicate Extends(before: seq<Phase>, after: seq<Phase>) {
    after == before || (|after| == |before| + 1 && after[..|before|] == before)
  }

  /**
    * Between any two visits to the connected state, and after the last
    * one, no more than a direct restart and then one over a relay.
    */
  lemma TwoRequests(c: RecoverableConnection)
    requires c.Valid()
    ensures c.requests <= [Direct, Relay] && forall i :: 0 <= i < |c.rounds| ==> c.rounds[i] <= [Direct, Relay]
  {}

  /** The announcement of a recovery, and its timer, can come after the object was finalized. */
  method AnnouncedAfterEnd() returns (c: RecoverableConnection)
    ensures fresh(c) && c.Valid() && c.finalized && c.lateAnnouncements == 1 && c.recoveryTimer
  {
    c := new RecoverableConnection();
    c.HandlePeerConnectionState(Failed, Policy(true, false, true, true));
    c.FinalizeElsewhere();
    c.ResumeRecovery(0, true);
  }

  /** A refusal that comes after the connection has recovered on its own still fails it. */
  method StaleRefusal() returns (c: RecoverableConnection)
    ensures fresh(c) && c.Valid() && c.finalized && c.failures == 1 && c.requests == [] && c.rounds == [[Direct]]
  {
    c := new RecoverableConnection();
    c.HandlePeerConnectionState(Failed, Policy(true, false, true, true));
    c.HandlePeerConnectionState(Connected, Policy(true, false, true, true));
    assert c.current && !c.finalized && !c.recovering;
    c.ResumeRecovery(0, false);
  }
}
