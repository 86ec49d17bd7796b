/**
 The chat connection manager as a labelled transition system.

 One event is one uninterrupted piece of JavaScript: a public call, the code of a queued
 transition between two `await`s, a hub callback or a timer callback. Events may come in any
 order that the promise chain allows.
 */
module ChatProtocol {
  import opened Wrappers

  type UserId = n: int | 0 < n witness 1

  datatype HubState = Disconnected | Connecting | Connected | Disconnecting | Reconnecting

  /** A SignalR connection, with what became of it. `attached` says that the realtime handlers are on. */
  datatype Hub = Hub(
    owner: UserId, state: HubState, attached: bool, stopRequested: bool, closed: bool, startFailed: bool)

  /** Where a queued transition stands: not begun, waiting for stop() or start(), or settled. */
  datatype Phase = Pending | AwaitStop(hub: nat) | AwaitStart(hub: nat) | Resolved | Rejected

  /** A promise of the transition chain. `target` is the user to connect, or None for a disconnect;
      `waitsFor` is the promise it was chained to; `byTimer` marks a connect awaited by a reconnect timer. */
  datatype Task = Task(target: Option<UserId>, waitsFor: Option<nat>, byTimer: bool, phase: Phase)

  /** A realtime invocation whose outcome is not known yet. */
  datatype Invocation = Invocation(user: UserId, hub: nat)

  datatype State = State(
    connection: Option<nat>,
    currentUserId: Option<UserId>,
    requestedUserId: Option<UserId>,
    lastKnownUserId: Option<UserId>,
    intentionalDisconnect: bool,
    reconnectAttempt: nat,
    reconnectTimer: Option<nat>,
    connectionTransition: Option<nat>,
    // what the closures and the event loop hold
    hubs: seq<Hub>,
    tasks: seq<Task>,
    armed: map<nat, UserId>,
    nextTimer: nat,
    retries: nat,
    invocations: seq<Invocation>)

  const INIT := State(None, None, None, None, false, 0, None, None, [], [], map[], 0, 0, [])

  datatype Event =
    | CallConnect(user: int)
    | CallDisconnect
    | CallSend
    | Begin(task: nat)
    | StopDone(task: nat, ok: bool)
    | StartDone(task: nat, ok: bool)
    | InvokeDone(call: nat, ok: bool)
    | HubClosed(hub: nat)
    | HubMoves(hub: nat, state: HubState)
    | HubDelivers(hub: nat)
    | TimerFires(timer: nat)
    | RetryRuns

  /** What an event makes visible outside the service. */
  datatype Output =
    | Delivered(hub: nat)
    | RealtimeSend(sender: UserId, hub: nat)
    | RestSend(sender: UserId)
    | ConnectionLost
    | ReconnectScheduled(delayMs: nat)

  const MAX_RECONNECTS: nat := 5

  predicate IsActive(state: HubState) {
    state.Connected? || state.Connecting? || state.Reconnecting?
  }

  predicate Settled(phase: Phase) {
    phase.Resolved? || phase.Rejected?
  }

  /** The `.then` of the promise chain: a transition begins only after the one it is chained to settled. */
  predicate Enabled(s: State, e: Event) {
    && (s.connection.Some? ==> s.connection.value < |s.hubs|)
    && match e
       case Begin(i) =>
         && i < |s.tasks| && s.tasks[i].phase.Pending?
         && (s.tasks[i].waitsFor.Some? ==>
               s.tasks[i].waitsFor.value < |s.tasks| && Settled(s.tasks[s.tasks[i].waitsFor.value].phase))
       case StopDone(i, _) => i < |s.tasks| && s.tasks[i].phase.AwaitStop?
       case StartDone(i, _) => i < |s.tasks| && s.tasks[i].phase.AwaitStart? && s.tasks[i].target.Some?
                               && s.tasks[i].phase.hub < |s.hubs|
       case InvokeDone(k, _) => k < |s.invocations|
       case HubClosed(c) => c < |s.hubs|
       case HubMoves(c, _) => c < |s.hubs|
       case HubDelivers(c) => c < |s.hubs|
       case TimerFires(h) => h in s.armed
       case RetryRuns => s.retries > 0
       case _ => true
  }

  function Next(s: State, e: Event): State
    requires Enabled(s, e)
  {
    match e
    case CallConnect(u) => if u > 0 then Request(s, u, false) else s
    case CallDisconnect => Enqueue(ClearTimer(s.(requestedUserId := None, intentionalDisconnect := true)), None, false)
    case CallSend =>
      if MayInvoke(s) then
        s.(invocations := s.invocations + [Invocation(s.currentUserId.value, s.connection.value)])
      else s
    case Begin(i) =>
      if s.tasks[i].target.Some? then BeginConnect(s, i, s.tasks[i].target.value) else BeginDisconnect(s, i)
    case StopDone(i, ok) =>
      if !ok then Settle(s, i, Rejected)
      else if s.tasks[i].target.Some? then Open(s, i, s.tasks[i].target.value)
      else Settle(s.(currentUserId := None, lastKnownUserId := None), i, Resolved)
    case StartDone(i, ok) =>
      if ok then
        Settle(if s.requestedUserId == s.tasks[i].target then s.(reconnectAttempt := 0) else s, i, Resolved)
      else
        StartFailed(s, i, s.tasks[i].phase.hub)
    case InvokeDone(k, ok) => s.(invocations := s.invocations[..k] + s.invocations[k + 1..])
    case HubClosed(c) => Close(s, c)
    case HubMoves(c, state) => s.(hubs := s.hubs[c := s.hubs[c].(state := state)])
    case HubDelivers(c) => s
    case TimerFires(h) =>
      var s1 := s.(armed := s.armed - {h});
      if s.intentionalDisconnect || s.requestedUserId != Some(s.armed[h]) then s1
      else Request(s1, s.armed[h], true)
    case RetryRuns => ScheduleReconnect(s.(retries := s.retries - 1))
  }

  function Outputs(s: State, e: Event): seq<Output>
    requires Enabled(s, e)
  {
    match e
    case CallSend =>
      if MayInvoke(s) then [RealtimeSend(s.currentUserId.value, s.connection.value)]
      else if MaySend(s) then [RestSend(s.currentUserId.value)]
      else []
    case InvokeDone(k, ok) =>
      var sender := s.invocations[k].user;
      if ok || s.currentUserId != Some(sender) || s.requestedUserId != Some(sender) then [] else [RestSend(sender)]
    case HubDelivers(c) =>
      if s.hubs[c].attached && IsActiveConnection(s, c, s.hubs[c].owner) then [Delivered(c)] else []
    case HubClosed(c) =>
      if s.connection != Some(c) then []
      else if !MaySchedule(s) then [ConnectionLost]
      else [ConnectionLost, ReconnectScheduled(BackoffMs(s.reconnectAttempt))]
    case RetryRuns =>
      if MaySchedule(s) then [ReconnectScheduled(BackoffMs(s.reconnectAttempt))] else []
    case _ => []
  }

  predicate IsActiveConnection(s: State, hub: nat, user: UserId) {
    s.connection == Some(hub) && s.currentUserId == Some(user) && s.requestedUserId == Some(user)
  }

  predicate MaySend(s: State) {
    s.currentUserId.Some? && s.currentUserId == s.requestedUserId
  }

  predicate MayInvoke(s: State)
    requires s.connection.Some? ==> s.connection.value < |s.hubs|
  {
    MaySend(s) && s.connection.Some? && s.hubs[s.connection.value].state.Connected?
  }

  function ClearTimer(s: State): State {
    if s.reconnectTimer.Some? then s.(armed := s.armed - {s.reconnectTimer.value}, reconnectTimer := None) else s
  }

  function Enqueue(s: State, target: Option<UserId>, byTimer: bool): State {
    s.(tasks := s.tasks + [Task(target, s.connectionTransition, byTimer, Pending)],
    connectionTransition := Some(|s.tasks|))
  }

  function Request(s: State, user: UserId, byTimer: bool): State {
    var s1 := if s.requestedUserId != Some(user) then ClearTimer(s) else s;
    Enqueue(s1.(requestedUserId := Some(user)), Some(user), byTimer)
  }

  function SetPhase(s: State, i: nat, phase: Phase): State
    requires i < |s.tasks|
  {
    s.(tasks := s.tasks[i := s.tasks[i].(phase := phase)])
  }

  /** A rejected transition that a timer callback awaits leaves that callback's catch block to run. */
  function Settle(s: State, i: nat, phase: Phase): State
    requires i < |s.tasks|
  {
    var s1 := SetPhase(s, i, phase);
    if phase.Rejected? && s.tasks[i].byTimer then s1.(retries := s.retries + 1) else s1
  }

  function Teardown(s: State, i: nat, hub: nat): State
    requires i < |s.tasks| && hub < |s.hubs|
  {
    var s1 := ClearTimer(s.(intentionalDisconnect := true));
    SetPhase(s1.(connection := None, currentUserId := None, lastKnownUserId := None,
    hubs := s.hubs[hub := s.hubs[hub].(attached := false, stopRequested := true)]), i, AwaitStop(hub))
  }

  function Open(s: State, i: nat, user: UserId): State
    requires i < |s.tasks|
  {
    if s.requestedUserId != Some(user) then Settle(s, i, Resolved)
    else
      SetPhase(s.(connection := Some(|s.hubs|), currentUserId := Some(user), lastKnownUserId := Some(user),
      intentionalDisconnect := false,
      hubs := s.hubs + [Hub(user, Connecting, true, false, false, false)]), i, AwaitStart(|s.hubs|))
  }

  function BeginConnect(s: State, i: nat, user: UserId): State
    requires i < |s.tasks|
    requires s.connection.Some? ==> s.connection.value < |s.hubs|
  {
    if s.requestedUserId != Some(user) then Settle(s, i, Resolved)
    else if s.connection.None? then Open(s, i, user)
    else if IsActive(s.hubs[s.connection.value].state) && s.currentUserId == Some(user) then Settle(s, i, Resolved)
    else Teardown(s, i, s.connection.value)
  }

  function BeginDisconnect(s: State, i: nat): State
    requires i < |s.tasks|
    requires s.connection.Some? ==> s.connection.value < |s.hubs|
  {
    if s.connection.Some? then Teardown(s, i, s.connection.value)
    else
      Settle(ClearTimer(s.(intentionalDisconnect := true, currentUserId := None, lastKnownUserId := None)), i, Resolved)
  }

  function StartFailed(s: State, i: nat, hub: nat): State
    requires i < |s.tasks| && hub < |s.hubs|
  {
    var s1 := s.(hubs := s.hubs[hub := s.hubs[hub].(startFailed := true)]);
    Settle(if s.connection == Some(hub) then s1.(connection := None, currentUserId := None) else s1, i, Rejected)
  }

  function Close(s: State, hub: nat): State
    requires hub < |s.hubs|
  {
    var s1 := s.(hubs := s.hubs[hub := s.hubs[hub].(closed := true, state := Disconnected)]);
    if s.connection != Some(hub) then s1
    else
      var s2 := s1.(connection := None, currentUserId := None);
      if !s.intentionalDisconnect && s.lastKnownUserId.Some? then ScheduleReconnect(s2) else s2
  }

  predicate MaySchedule(s: State) {
    && !s.intentionalDisconnect && s.reconnectAttempt < MAX_RECONNECTS
    && s.lastKnownUserId.Some? && s.requestedUserId == s.lastKnownUserId
  }

  /** Clears the live timer even when no new one is armed; the field then keeps the stale handle. */
  function ScheduleReconnect(s: State): State {
    var cleared := if s.reconnectTimer.Some? then s.armed - {s.reconnectTimer.value} else s.armed;
    if MaySchedule(s) then
      s.(armed := cleared[s.nextTimer := s.lastKnownUserId.value], reconnectTimer := Some(s.nextTimer),
      nextTimer := s.nextTimer + 1, reconnectAttempt := s.reconnectAttempt + 1)
    else s.(armed := cleared)
  }

  function Pow2(n: nat): nat {
    if n == 0 then 1 else 2 * Pow2(n - 1)
  }

  function BackoffMs(attempt: nat): nat {
    var delay := 1000 * Pow2(attempt);
    if delay < 30000 then delay else 30000
  }

  // ---- runs ----

  ghost predicate ValidRun(es: seq<Event>)
    decreases |es|, 0
  {
    es == [] || (ValidRun(es[..|es| - 1]) && Enabled(After(es[..|es| - 1]), es[|es| - 1]))
  }

  ghost function After(es: seq<Event>): State
    requires ValidRun(es)
    decreases |es|, 1
  {
    if es == [] then INIT else Next(After(es[..|es| - 1]), es[|es| - 1])
  }

  /** The user of the last connect call, None before the first call and after a disconnect call. */
  function LastRequest(es: seq<Event>): Option<UserId> {
    if es == [] then None
    else match es[|es| - 1]
      case CallConnect(u) => if u > 0 then Some(u) else LastRequest(es[..|es| - 1])
      case CallDisconnect => None
      case _ => LastRequest(es[..|es| - 1])
  }

  predicate Quiet(s: State) {
    forall i :: 0 <= i < |s.tasks| ==> Settled(s.tasks[i].phase)
  }
}
