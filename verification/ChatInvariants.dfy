/** What every reachable state of the chat connection manager satisfies. */
module ChatInvariants {
  import opened Wrappers
  import opened ChatProtocol

  /** Transitions are chained one after the other, and none has begun before all earlier ones settled. */
  ghost predicate Chained(s: State) {
    && s.connectionTransition == (if |s.tasks| == 0 then None else Some(|s.tasks| - 1))
    && (forall i :: 0 <= i < |s.tasks| ==> s.tasks[i].waitsFor == (if i == 0 then None else Some(i - 1)))
    && (forall i, j :: 0 <= i < j < |s.tasks| && !s.tasks[j].phase.Pending? ==> Settled(s.tasks[i].phase))
  }

  /** A connection that the service no longer holds is closed, never started, or detached and told to stop. */
  predicate Released(h: Hub) {
    h.closed || h.startFailed || (!h.attached && h.stopRequested)
  }

  ghost predicate NoLeak(s: State) {
    forall c :: 0 <= c < |s.hubs| && s.connection != Some(c) ==> Released(s.hubs[c])
  }

  predicate Identity(s: State) {
    && (s.connection.None? <==> s.currentUserId.None?)
    && (s.connection.Some? ==>
          && s.connection.value < |s.hubs|
          && s.currentUserId == Some(s.hubs[s.connection.value].owner)
          && s.lastKnownUserId == s.currentUserId
          && s.hubs[s.connection.value].attached && !Released(s.hubs[s.connection.value]))
  }

  /** At most one reconnect timer is live, the field knows it, and it is for the requested user, whom nothing disconnects. */
  predicate Timers(s: State) {
    && (forall h <- s.armed ::
          s.reconnectTimer == Some(h) && s.requestedUserId == Some(s.armed[h]) && !s.intentionalDisconnect)
    && (s.reconnectTimer.Some? ==> s.reconnectTimer.value < s.nextTimer)
    && s.reconnectAttempt <= MAX_RECONNECTS
  }

  ghost predicate Waiting(s: State) {
    forall i :: 0 <= i < |s.tasks| ==>
      match s.tasks[i].phase
      case AwaitStop(_) => s.connection.None?
      case AwaitStart(c) =>
        && c < |s.hubs| && s.tasks[i].target == Some(s.hubs[c].owner)
        && (s.connection.None? || s.connection == Some(c))
      case _ => true
  }

  ghost predicate DisconnectQueued(s: State) {
    exists k :: 0 <= k < |s.tasks| && s.tasks[k].target.None? && s.tasks[k].phase.Pending?
  }

  /** The last transition works for the last request, and a connection of anyone else waits for it. */
  ghost predicate Converging(s: State) {
    && (|s.tasks| > 0 && !Settled(s.tasks[|s.tasks| - 1].phase) ==>
          s.tasks[|s.tasks| - 1].target == s.requestedUserId)
    && (s.connection.Some? && s.currentUserId != s.requestedUserId ==>
          |s.tasks| > 0 && s.tasks[|s.tasks| - 1].phase.Pending?)
    && (s.connection.Some? && s.intentionalDisconnect ==> DisconnectQueued(s))
    && (s.requestedUserId.None? ==> s.intentionalDisconnect || |s.tasks| == 0)
  }

  ghost predicate Sending(s: State) {
    forall k :: 0 <= k < |s.invocations| ==>
      s.invocations[k].hub < |s.hubs| && s.hubs[s.invocations[k].hub].owner == s.invocations[k].user
  }

  ghost predicate Inv(s: State) {
    Chained(s) && NoLeak(s) && Identity(s) && Timers(s) && Waiting(s) && Converging(s) && Sending(s)
  }

  /** The one transition that can take a step: it has begun, or it may begin now. */
  predicate Stepping(s: State, i: nat) {
    && i < |s.tasks| && !Settled(s.tasks[i].phase)
    && (s.tasks[i].phase.Pending? ==> Enabled(s, Begin(i)))
  }

  /** While one transition steps, every other one has settled or has not begun. */
  lemma OthersIdle(s: State, i: nat)
    requires Chained(s) && Stepping(s, i)
    ensures forall k :: 0 <= k < i ==> Settled(s.tasks[k].phase)
    ensures forall k :: i < k < |s.tasks| ==> s.tasks[k].phase.Pending?
  {
    if s.tasks[i].phase.Pending? && i > 0 {
      assert s.tasks[i].waitsFor == Some(i - 1);
      assert !s.tasks[i - 1].phase.Pending?;
    }
  }

  lemma PhaseChangeKeepsChain(s: State, s': State, i: nat, phase: Phase)
    requires Chained(s) && Stepping(s, i) && !phase.Pending?
    requires s'.tasks == s.tasks[i := s.tasks[i].(phase := phase)]
    requires s'.connectionTransition == s.connectionTransition
    ensures Chained(s')
    ensures s.tasks[i].target.Some? || !s.tasks[i].phase.Pending? ==> (DisconnectQueued(s) ==> DisconnectQueued(s'))
  {
    OthersIdle(s, i);
    if DisconnectQueued(s) && (s.tasks[i].target.Some? || !s.tasks[i].phase.Pending?) {
      var k :| 0 <= k < |s.tasks| && s.tasks[k].target.None? && s.tasks[k].phase.Pending?;
      assert s'.tasks[k].target.None? && s'.tasks[k].phase.Pending?;
    }
  }

  lemma AppendKeepsChain(s: State, s': State, t: Task)
    requires Chained(s) && s'.tasks == s.tasks + [t] && s'.connectionTransition == Some(|s.tasks|)
    requires t.waitsFor == s.connectionTransition && t.phase.Pending?
    ensures Chained(s')
    ensures DisconnectQueued(s) || t.target.None? ==> DisconnectQueued(s')
  {
    if DisconnectQueued(s) {
      var k :| 0 <= k < |s.tasks| && s.tasks[k].target.None? && s.tasks[k].phase.Pending?;
      assert s'.tasks[k] == s.tasks[k];
    }
    assert s'.tasks[|s.tasks|] == t;
  }

  lemma RequestKeepsInv(s: State, user: UserId, byTimer: bool)
    requires Inv(s)
    ensures Inv(Request(s, user, byTimer))
  {
    var s' := Request(s, user, byTimer);
    AppendKeepsChain(s, s', Task(Some(user), s.connectionTransition, byTimer, Pending));
  }

  lemma DisconnectKeepsInv(s: State)
    requires Inv(s)
    ensures Enabled(s, CallDisconnect) && Inv(Next(s, CallDisconnect))
  {
    var s' := Next(s, CallDisconnect);
    AppendKeepsChain(s, s', Task(None, s.connectionTransition, false, Pending));
  }

  lemma SettleReleases(s: State, i: nat, phase: Phase)
    requires NoLeak(s) && Identity(s) && Timers(s) && Sending(s) && i < |s.tasks|
    ensures var s' := Settle(s, i, phase); NoLeak(s') && Identity(s') && Timers(s') && Sending(s')
  {
  }

  lemma SettleWaits(s: State, i: nat, phase: Phase)
    requires Chained(s) && Waiting(s) && Converging(s) && Stepping(s, i) && Settled(phase)
    requires s.connection.Some? ==> s.currentUserId == s.requestedUserId || i < |s.tasks| - 1
    requires s.connection.Some? && s.intentionalDisconnect ==> s.tasks[i].target.Some?
    ensures var s' := Settle(s, i, phase); Chained(s') && Waiting(s') && Converging(s')
  {
    OthersIdle(s, i);
    PhaseChangeKeepsChain(s, Settle(s, i, phase), i, phase);
  }

  /** Settling the stepping transition, when what it leaves behind already converges. */
  lemma SettleKeepsInv(s: State, i: nat, phase: Phase)
    requires Inv(s) && Stepping(s, i) && Settled(phase)
    requires s.connection.Some? ==> s.currentUserId == s.requestedUserId || i < |s.tasks| - 1
    requires s.connection.Some? && s.intentionalDisconnect ==> s.tasks[i].target.Some?
    ensures Inv(Settle(s, i, phase))
  {
    SettleReleases(s, i, phase);
    SettleWaits(s, i, phase);
  }

  lemma TeardownReleases(s: State, i: nat, hub: nat)
    requires NoLeak(s) && Identity(s) && Timers(s) && Sending(s)
    requires i < |s.tasks| && hub < |s.hubs| && s.connection == Some(hub)
    ensures var s' := Teardown(s, i, hub); NoLeak(s') && Identity(s') && Timers(s') && Sending(s')
  {
  }

  lemma TeardownWaits(s: State, i: nat, hub: nat)
    requires Chained(s) && Waiting(s) && Converging(s) && Enabled(s, Begin(i))
    requires hub < |s.hubs| && s.connection == Some(hub)
    ensures var s' := Teardown(s, i, hub); Chained(s') && Waiting(s') && Converging(s')
  {
    OthersIdle(s, i);
    PhaseChangeKeepsChain(s, Teardown(s, i, hub), i, AwaitStop(hub));
  }

  lemma TeardownKeepsInv(s: State, i: nat, hub: nat)
    requires Inv(s) && Enabled(s, Begin(i)) && s.connection == Some(hub)
    ensures Inv(Teardown(s, i, hub))
  {
    TeardownReleases(s, i, hub);
    TeardownWaits(s, i, hub);
  }

  lemma OpenKeepsInv(s: State, i: nat, user: UserId)
    requires Inv(s) && Stepping(s, i) && s.connection.None? && s.tasks[i].target == Some(user)
    ensures Inv(Open(s, i, user))
  {
    OthersIdle(s, i);
    if s.requestedUserId != Some(user) {
      SettleKeepsInv(s, i, Resolved);
    } else {
      PhaseChangeKeepsChain(s, Open(s, i, user), i, AwaitStart(|s.hubs|));
    }
  }

  lemma BeginDisconnectKeepsInv(s: State, i: nat)
    requires Inv(s) && Enabled(s, Begin(i)) && s.tasks[i].target.None?
    ensures Inv(BeginDisconnect(s, i))
  {
    if s.connection.Some? {
      TeardownKeepsInv(s, i, s.connection.value);
    } else {
      SettleKeepsInv(ClearTimer(s.(intentionalDisconnect := true, lastKnownUserId := None)), i, Resolved);
    }
  }

  lemma BeginConnectKeepsInv(s: State, i: nat, user: UserId)
    requires Inv(s) && Enabled(s, Begin(i)) && s.tasks[i].target == Some(user)
    ensures Inv(BeginConnect(s, i, user))
  {
    if s.requestedUserId != Some(user) {
      SettleKeepsInv(s, i, Resolved);
    } else if s.connection.None? {
      OpenKeepsInv(s, i, user);
    } else if IsActive(s.hubs[s.connection.value].state) && s.currentUserId == Some(user) {
      SettleKeepsInv(s, i, Resolved);
    } else {
      TeardownKeepsInv(s, i, s.connection.value);
    }
  }

  lemma BeginKeepsInv(s: State, i: nat)
    requires Inv(s) && Enabled(s, Begin(i))
    ensures Inv(Next(s, Begin(i)))
  {
    if s.tasks[i].target.None? {
      BeginDisconnectKeepsInv(s, i);
    } else {
      BeginConnectKeepsInv(s, i, s.tasks[i].target.value);
    }
  }

  lemma StopDoneKeepsInv(s: State, i: nat, ok: bool)
    requires Inv(s) && Enabled(s, StopDone(i, ok))
    ensures Inv(Next(s, StopDone(i, ok)))
  {
    if ok && s.tasks[i].target.Some? {
      OpenKeepsInv(s, i, s.tasks[i].target.value);
    } else {
      SettleKeepsInv(if ok then s.(lastKnownUserId := None) else s, i, if ok then Resolved else Rejected);
    }
  }

  /** A hub connection that closed or never started is let go, if it was the held one. */
  function Lose(s: State, c: nat, h: Hub): State
    requires c < |s.hubs|
  {
    var s1 := s.(hubs := s.hubs[c := h]);
    if s.connection == Some(c) then s1.(connection := None, currentUserId := None) else s1
  }

  lemma LoseKeepsInv(s: State, c: nat, h: Hub)
    requires Inv(s) && c < |s.hubs| && h.owner == s.hubs[c].owner && Released(h)
    ensures Inv(Lose(s, c, h))
  {
    LoseReleases(s, c, h);
    LoseWaits(s, c, h);
  }

  lemma LoseReleases(s: State, c: nat, h: Hub)
    requires NoLeak(s) && Identity(s) && Timers(s) && Sending(s)
    requires c < |s.hubs| && h.owner == s.hubs[c].owner && Released(h)
    ensures var s' := Lose(s, c, h); NoLeak(s') && Identity(s') && Timers(s') && Sending(s')
  {
  }

  lemma LoseWaits(s: State, c: nat, h: Hub)
    requires Chained(s) && Waiting(s) && Converging(s) && c < |s.hubs| && h.owner == s.hubs[c].owner
    ensures var s' := Lose(s, c, h); Chained(s') && Waiting(s') && Converging(s')
  {
  }

  lemma StartDoneKeepsInv(s: State, i: nat, ok: bool)
    requires Inv(s) && Enabled(s, StartDone(i, ok))
    ensures Inv(Next(s, StartDone(i, ok)))
  {
    var hub := s.tasks[i].phase.hub;
    if ok {
      OthersIdle(s, i);
      SettleKeepsInv(if s.requestedUserId == s.tasks[i].target then s.(reconnectAttempt := 0) else s, i, Resolved);
    } else {
      StartFailedKeepsInv(s, i, hub);
    }
  }

  lemma StartFailedKeepsInv(s: State, i: nat, hub: nat)
    requires Inv(s) && Stepping(s, i) && s.tasks[i].phase == AwaitStart(hub) && hub < |s.hubs|
    ensures Inv(StartFailed(s, i, hub))
  {
    LoseKeepsInv(s, hub, s.hubs[hub].(startFailed := true));
    SettleKeepsInv(Lose(s, hub, s.hubs[hub].(startFailed := true)), i, Rejected);
  }

  lemma ScheduleKeepsInv(s: State)
    requires Inv(s)
    ensures Inv(ScheduleReconnect(s))
  {
  }

  lemma CloseKeepsInv(s: State, c: nat)
    requires Inv(s) && c < |s.hubs|
    ensures Inv(Close(s, c))
  {
    var h := s.hubs[c].(closed := true, state := Disconnected);
    LoseKeepsInv(s, c, h);
    ScheduleKeepsInv(Lose(s, c, h));
  }

  lemma TimerKeepsInv(s: State, timer: nat)
    requires Inv(s) && timer in s.armed
    ensures Inv(Next(s, TimerFires(timer)))
  {
    var s1 := s.(armed := s.armed - {timer});
    assert Timers(s1);
    RequestKeepsInv(s1, s.armed[timer], true);
  }

  lemma SendingKeepsInv(s: State, e: Event)
    requires Inv(s) && Enabled(s, e) && (e.CallSend? || e.InvokeDone?)
    ensures Inv(Next(s, e))
  {
  }

  lemma HubMoveKeepsInv(s: State, c: nat, state: HubState)
    requires Inv(s) && c < |s.hubs|
    ensures Inv(Next(s, HubMoves(c, state)))
  {
  }

  lemma CallKeepsInv(s: State, e: Event)
    requires Inv(s) && Enabled(s, e) && (e.CallConnect? || e.CallDisconnect? || e.CallSend? || e.InvokeDone?)
    ensures Inv(Next(s, e))
  {
    match e
    case CallConnect(u) => if u > 0 { RequestKeepsInv(s, u, false); }
    case CallDisconnect => DisconnectKeepsInv(s);
    case _ => SendingKeepsInv(s, e);
  }

  lemma TransitionKeepsInv(s: State, e: Event)
    requires Inv(s) && Enabled(s, e) && (e.Begin? || e.StopDone? || e.StartDone?)
    ensures Inv(Next(s, e))
  {
    match e
    case Begin(i) => BeginKeepsInv(s, i);
    case StopDone(i, ok) => StopDoneKeepsInv(s, i, ok);
    case StartDone(i, ok) => StartDoneKeepsInv(s, i, ok);
  }

  lemma HubKeepsInv(s: State, e: Event)
    requires Inv(s) && Enabled(s, e) && (e.HubClosed? || e.HubMoves? || e.HubDelivers?)
    ensures Inv(Next(s, e))
  {
    match e
    case HubClosed(c) => CloseKeepsInv(s, c);
    case HubMoves(c, state) => HubMoveKeepsInv(s, c, state);
    case HubDelivers(_) =>
  }

  lemma RetryKeepsInv(s: State)
    requires Inv(s) && Enabled(s, RetryRuns)
    ensures Inv(Next(s, RetryRuns))
  {
    var s1 := s.(retries := s.retries - 1);
    assert Chained(s1) && Waiting(s1) && Converging(s1);
    ScheduleKeepsInv(s1);
  }

  /** Every event, in any order the promise chain allows, keeps the invariant. */
  lemma EventKeepsInv(s: State, e: Event)
    requires Inv(s) && Enabled(s, e)
    ensures Inv(Next(s, e))
  {
    if e.Begin? || e.StopDone? || e.StartDone? {
      TransitionKeepsInv(s, e);
    } else if e.CallConnect? || e.CallDisconnect? || e.CallSend? || e.InvokeDone? {
      CallKeepsInv(s, e);
    } else if e.TimerFires? {
      TimerKeepsInv(s, e.timer);
    } else if e.RetryRuns? {
      RetryKeepsInv(s);
    } else {
      HubKeepsInv(s, e);
    }
  }

  lemma {:induction false} RunKeepsInv(es: seq<Event>)
    requires ValidRun(es)
    ensures Inv(After(es))
  {
    if es != [] {
      RunKeepsInv(es[..|es| - 1]);
      EventKeepsInv(After(es[..|es| - 1]), es[|es| - 1]);
    }
  }
}
