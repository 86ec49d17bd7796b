/** The promises of the chat connection manager, over every run. */
module ChatTheorems {
  import opened Wrappers
  import opened ChatProtocol
  import opened ChatInvariants

  predicate InProgress(phase: Phase) {
    phase.AwaitStop? || phase.AwaitStart?
  }

  // ---- identity and leaks ----

  /** Only the two calls change who is requested. */
  lemma OnlyCallsRequest(s: State, e: Event)
    requires Enabled(s, e)
    ensures Next(s, e).requestedUserId == match e
                                          case CallConnect(u) => if u > 0 then Some(u) else s.requestedUserId
                                          case CallDisconnect => None
                                          case _ => s.requestedUserId
  {
  }

  lemma {:induction false} RequestedIsLastRequest(es: seq<Event>)
    requires ValidRun(es)
    ensures After(es).requestedUserId == LastRequest(es)
  {
    if es != [] {
      RequestedIsLastRequest(es[..|es| - 1]);
      OnlyCallsRequest(After(es[..|es| - 1]), es[|es| - 1]);
    }
  }

  /** At most one transition body is in progress, and transitions settle in the order they were called. */
  lemma OneTransitionAtATime(es: seq<Event>, i: nat, j: nat)
    requires ValidRun(es) && i < j < |After(es).tasks|
    ensures !(InProgress(After(es).tasks[i].phase) && InProgress(After(es).tasks[j].phase))
    ensures Settled(After(es).tasks[j].phase) ==> Settled(After(es).tasks[i].phase)
  {
    RunKeepsInv(es);
  }

  /** The held connection is the current user's, and every other connection ever made was let go. */
  lemma HeldConnectionIsCurrentUsers(es: seq<Event>)
    requires ValidRun(es)
    ensures var s := After(es);
            && (s.connection.None? <==> s.currentUserId.None?)
            && (s.connection.Some? ==> s.connection.value < |s.hubs|
                                       && s.currentUserId == Some(s.hubs[s.connection.value].owner))
            && (forall c :: 0 <= c < |s.hubs| && s.connection != Some(c) ==> Released(s.hubs[c]))
  {
    RunKeepsInv(es);
  }

  /** Whatever the service lets out belongs to the user of the last call: no message, receipt or
      notification of an earlier user reaches a listener, and no send goes out for anyone else. */
  lemma OutputsBelongToLastRequest(es: seq<Event>, e: Event, out: Output)
    requires ValidRun(es) && Enabled(After(es), e) && out in Outputs(After(es), e)
    ensures var s := After(es);
            match out
            case Delivered(h) =>
              s.connection == Some(h) && h < |s.hubs| && Some(s.hubs[h].owner) == LastRequest(es) == s.currentUserId
            case RealtimeSend(u, h) =>
              && s.connection == Some(h) && h < |s.hubs| && s.hubs[h].owner == u
              && Some(u) == LastRequest(es) == s.currentUserId
            case RestSend(u) => Some(u) == LastRequest(es) == s.currentUserId
            case ReconnectScheduled(_) => LastRequest(es).Some? && LastRequest(es) == s.lastKnownUserId
            case ConnectionLost => s.connection.Some?
  {
    RunKeepsInv(es);
    RequestedIsLastRequest(es);
  }

  // ---- when the queue drains ----

  lemma DrainedAfterDisconnect(es: seq<Event>)
    requires ValidRun(es) && Quiet(After(es)) && LastRequest(es) == None
    ensures var s := After(es); s.connection == None && s.currentUserId == None && s.armed == map[]
  {
    RunKeepsInv(es);
    RequestedIsLastRequest(es);
    assert forall i :: 0 <= i < |After(es).tasks| ==> !After(es).tasks[i].phase.Pending?;
  }

  lemma NobodyRequestedOpensNothing(s: State, e: Event)
    requires Enabled(s, e) && s.requestedUserId.None?
    ensures |Next(s, e).hubs| == |s.hubs|
  {
  }

  /** From a disconnect call on, until the next connect call, no connection is opened and no timer is live. */
  lemma {:induction false} NothingReconnectsAfterDisconnect(es: seq<Event>, k: nat)
    requires ValidRun(es) && k <= |es| && ValidRun(es[..k]) && LastRequest(es[..k]) == None
    requires forall j :: k <= j < |es| ==> !es[j].CallConnect?
    ensures |After(es).hubs| == |After(es[..k]).hubs|
    ensures After(es).armed == map[] && LastRequest(es) == None
  {
    if k == |es| {
      assert es[..k] == es;
    } else {
      var pre := es[..|es| - 1];
      assert pre[..k] == es[..k];
      NothingReconnectsAfterDisconnect(pre, k);
      RequestedIsLastRequest(pre);
      NobodyRequestedOpensNothing(After(pre), es[|es| - 1]);
    }
    NoTimerWhenNobodyRequested(es);
  }

  lemma NoTimerWhenNobodyRequested(es: seq<Event>)
    requires ValidRun(es) && LastRequest(es) == None
    ensures After(es).armed == map[]
  {
    RunKeepsInv(es);
    RequestedIsLastRequest(es);
  }

  /** Events that leave a requested connection alone: no calls, no failures, no loss of the held connection. */
  predicate Smooth(s: State, e: Event) {
    match e
    case CallConnect(_) => false
    case CallDisconnect => false
    case StopDone(_, ok) => ok
    case StartDone(_, ok) => ok
    case HubClosed(c) => s.connection != Some(c)
    case _ => true
  }

  ghost predicate SmoothSince(es: seq<Event>, k: nat)
    requires ValidRun(es) && k <= |es|
  {
    |es| == k || (SmoothSince(es[..|es| - 1], k) && Smooth(After(es[..|es| - 1]), es[|es| - 1]))
  }

  /** On the way to a connection of `user`: the last transition is still to open it, or it is open. */
  predicate Underway(s: State, user: UserId) {
    && s.requestedUserId == Some(user) && |s.tasks| > 0
    && var last := s.tasks[|s.tasks| - 1];
       if Settled(last.phase) then s.connection.Some? && s.currentUserId == Some(user)
       else last.target == Some(user) && (last.phase.AwaitStart? ==> s.connection == Some(last.phase.hub))
  }

  predicate IsTaskStep(e: Event) {
    e.Begin? || e.StopDone? || e.StartDone?
  }

  /** One transition changed, nothing else was queued, and what was added outside it weighs less
      than what the transition gave up. */
  predicate TaskStep(s: State, s': State, i: nat) {
    && i < |s.tasks| == |s'.tasks| && s'.tasks == s.tasks[i := s'.tasks[i]]
    && s'.requestedUserId == s.requestedUserId && s'.reconnectAttempt == s.reconnectAttempt
    && (s'.armed == s.armed || (s.reconnectTimer.Some? && s'.armed == s.armed - {s.reconnectTimer.value}))
    && Weight(s'.tasks[i]) + s'.retries + Held(s') < Weight(s.tasks[i]) + s.retries + Held(s)
  }

  function Held(s: State): nat {
    if s.connection.Some? then 1 else 0
  }

  lemma SettleIsTaskStep(s: State, i: nat, phase: Phase)
    requires Stepping(s, i) && Settled(phase)
    ensures TaskStep(s, Settle(s, i, phase), i)
  {
  }

  lemma TeardownIsTaskStep(s: State, i: nat, hub: nat)
    requires i < |s.tasks| && s.tasks[i].phase.Pending? && hub < |s.hubs|
    ensures TaskStep(s, Teardown(s, i, hub), i)
  {
  }

  lemma OpenIsTaskStep(s: State, i: nat, user: UserId)
    requires Stepping(s, i) && (s.tasks[i].phase.Pending? || s.tasks[i].phase.AwaitStop?)
    ensures TaskStep(s, Open(s, i, user), i)
  {
    if s.requestedUserId != Some(user) { SettleIsTaskStep(s, i, Resolved); }
  }

  lemma BeginIsTaskStep(s: State, i: nat)
    requires Enabled(s, Begin(i))
    ensures TaskStep(s, Next(s, Begin(i)), i)
  {
    if s.connection.Some? { TeardownIsTaskStep(s, i, s.connection.value); }
    if s.tasks[i].target.Some? {
      OpenIsTaskStep(s, i, s.tasks[i].target.value);
      SettleIsTaskStep(s, i, Resolved);
    }
  }

  lemma TaskStepShape(s: State, e: Event)
    requires Enabled(s, e) && IsTaskStep(e) && !ConfirmsStart(s, e)
    ensures TaskStep(s, Next(s, e), e.task)
  {
    match e
    case Begin(i) => BeginIsTaskStep(s, i);
    case StopDone(i, ok) =>
      if s.tasks[i].target.Some? { OpenIsTaskStep(s, i, s.tasks[i].target.value); }
      SettleIsTaskStep(s, i, Rejected);
    case StartDone(i, ok) => SettleIsTaskStep(s, i, Resolved);
    case _ =>
  }

  /** An earlier transition that steps sees the last one still waiting, and does not touch it. */
  lemma EarlierStepKeepsUnderway(s: State, e: Event, user: UserId)
    requires Inv(s) && Enabled(s, e) && Underway(s, user)
    requires IsTaskStep(e) && e.task < |s.tasks| - 1
    ensures Underway(Next(s, e), user)
  {
    OthersIdle(s, e.task);
    if !ConfirmsStart(s, e) { TaskStepShape(s, e); }
    assert Next(s, e).tasks[|s.tasks| - 1] == s.tasks[|s.tasks| - 1];
  }

  lemma LastBeginKeepsUnderway(s: State, user: UserId)
    requires Identity(s) && Underway(s, user) && Enabled(s, Begin(|s.tasks| - 1))
    ensures Underway(Next(s, Begin(|s.tasks| - 1)), user)
  {
  }

  lemma LastOpenKeepsUnderway(s: State, user: UserId)
    requires |s.tasks| > 0 && s.requestedUserId == Some(user) && s.tasks[|s.tasks| - 1].target == Some(user)
    ensures Underway(Open(s, |s.tasks| - 1, user), user)
  {
  }

  lemma LastStartKeepsUnderway(s: State, user: UserId)
    requires Identity(s) && Waiting(s) && Underway(s, user) && Enabled(s, StartDone(|s.tasks| - 1, true))
    ensures Underway(Next(s, StartDone(|s.tasks| - 1, true)), user)
  {
  }

  lemma LastStopKeepsUnderway(s: State, user: UserId)
    requires Underway(s, user) && Enabled(s, StopDone(|s.tasks| - 1, true))
    ensures Underway(Next(s, StopDone(|s.tasks| - 1, true)), user)
  {
    LastOpenKeepsUnderway(s, user);
  }

  lemma LastStepKeepsUnderway(s: State, e: Event, user: UserId)
    requires Identity(s) && Waiting(s) && Enabled(s, e) && Underway(s, user) && Smooth(s, e)
    requires IsTaskStep(e) && e.task == |s.tasks| - 1
    ensures Underway(Next(s, e), user)
  {
    if e.Begin? {
      LastBeginKeepsUnderway(s, user);
    } else if e.StopDone? {
      assert e == StopDone(|s.tasks| - 1, true);
      LastStopKeepsUnderway(s, user);
    } else {
      assert e == StartDone(|s.tasks| - 1, true);
      LastStartKeepsUnderway(s, user);
    }
  }

  lemma OtherEventKeepsUnderway(s: State, e: Event, user: UserId)
    requires Identity(s) && Timers(s) && Enabled(s, e) && Underway(s, user) && Smooth(s, e) && !IsTaskStep(e)
    ensures Underway(Next(s, e), user)
  {
  }

  lemma SmoothKeepsUnderway(s: State, e: Event, user: UserId)
    requires Inv(s) && Enabled(s, e) && Underway(s, user) && Smooth(s, e)
    ensures Underway(Next(s, e), user)
  {
    if !IsTaskStep(e) {
      OtherEventKeepsUnderway(s, e, user);
    } else if e.task == |s.tasks| - 1 {
      LastStepKeepsUnderway(s, e, user);
    } else {
      EarlierStepKeepsUnderway(s, e, user);
    }
  }

  lemma {:induction false} PrefixIsRun(es: seq<Event>, k: nat)
    requires ValidRun(es) && k <= |es|
    ensures ValidRun(es[..k])
  {
    if k == |es| {
      assert es[..k] == es;
    } else {
      assert es[..|es| - 1][..k] == es[..k];
      PrefixIsRun(es[..|es| - 1], k);
    }
  }

  /** Nothing but calls, failures and losses takes the service off its way. */
  lemma {:induction false} StaysUnderway(es: seq<Event>, k: nat, user: UserId)
    requires ValidRun(es) && k <= |es| && SmoothSince(es, k)
    requires ValidRun(es[..k]) && Underway(After(es[..k]), user)
    ensures Underway(After(es), user)
  {
    var pre := es[..|es| - 1];
    if k == |es| {
      assert es[..k] == es;
    } else {
      assert pre[..k] == es[..k];
      StaysUnderway(pre, k, user);
      RunKeepsInv(pre);
      SmoothKeepsUnderway(After(pre), es[|es| - 1], user);
    }
  }

  lemma UnderwaySince(es: seq<Event>, k: nat, user: UserId)
    requires ValidRun(es) && k < |es| && es[k] == CallConnect(user) && SmoothSince(es, k + 1)
    ensures Underway(After(es), user)
  {
    PrefixIsRun(es, k + 1);
    assert es[..k + 1][..k] == es[..k];
    StaysUnderway(es, k + 1, user);
  }

  /** After connect(u), with no failure, no loss and no other call, the drained queue leaves u connected. */
  lemma DrainedAfterConnect(es: seq<Event>, k: nat, user: UserId)
    requires ValidRun(es) && k < |es| && es[k] == CallConnect(user) && SmoothSince(es, k + 1)
    requires Quiet(After(es))
    ensures var s := After(es);
            && s.connection.Some? && s.connection.value < |s.hubs| && s.hubs[s.connection.value].owner == user
            && s.currentUserId == s.requestedUserId == Some(user) && !s.intentionalDisconnect
  {
    RunKeepsInv(es);
    UnderwaySince(es, k, user);
  }

  // ---- reconnecting ----

  predicate ConfirmsStart(s: State, e: Event)
    requires Enabled(s, e)
  {
    e.StartDone? && e.ok && s.requestedUserId == s.tasks[e.task].target
  }

  function Delays(outs: seq<Output>): seq<nat> {
    if outs == [] then []
    else (if outs[0].ReconnectScheduled? then [outs[0].delayMs] else []) + Delays(outs[1..])
  }

  /** The reconnect delays scheduled since the last successful start. */
  ghost function DelaysSinceStart(es: seq<Event>): seq<nat>
    requires ValidRun(es)
  {
    if es == [] then []
    else
      var pre, e := es[..|es| - 1], es[|es| - 1];
      if ConfirmsStart(After(pre), e) then []
      else DelaysSinceStart(pre) + Delays(Outputs(After(pre), e))
  }

  const BACKOFF: seq<nat> := [1000, 2000, 4000, 8000, 16000]

  function Sum(xs: seq<nat>): nat {
    if xs == [] then 0 else xs[0] + Sum(xs[1..])
  }

  /** Between successful starts the delays are 1, 2, 4, 8 and 16 seconds, in this order and no more. */
  lemma {:induction false} BackoffIsExact(es: seq<Event>)
    requires ValidRun(es)
    ensures After(es).reconnectAttempt <= |BACKOFF|
    ensures DelaysSinceStart(es) == BACKOFF[..After(es).reconnectAttempt]
  {
    RunKeepsInv(es);
    if es != [] {
      var pre, e := es[..|es| - 1], es[|es| - 1];
      BackoffIsExact(pre);
      RunKeepsInv(pre);
      if !ConfirmsStart(After(pre), e) {
        OutputsCountAttempts(After(pre), e);
        if After(pre).reconnectAttempt < |BACKOFF| { BackoffTable(After(pre).reconnectAttempt); }
      }
    }
  }

  lemma BackoffTable(n: nat)
    requires n < |BACKOFF|
    ensures BackoffMs(n) == BACKOFF[n] && BACKOFF[..n + 1] == BACKOFF[..n] + [BackoffMs(n)]
  {
    assert Pow2(1) == 2 && Pow2(2) == 4;
    assert Pow2(3) == 8;
    assert Pow2(4) == 16;
  }

  /** Only a lost connection and a failed retry touch the attempt counter or schedule anything. */
  lemma OthersScheduleNothing(s: State, e: Event)
    requires Enabled(s, e) && !ConfirmsStart(s, e) && !e.HubClosed? && !e.RetryRuns?
    ensures Next(s, e).reconnectAttempt == s.reconnectAttempt && Delays(Outputs(s, e)) == []
  {
    if IsTaskStep(e) { TaskStepShape(s, e); }
  }

  lemma DelaysOfLoss(delayMs: nat)
    ensures Delays([ReconnectScheduled(delayMs)]) == [delayMs] && Delays([ConnectionLost]) == []
    ensures Delays([ConnectionLost, ReconnectScheduled(delayMs)]) == [delayMs]
  {
    var d := ReconnectScheduled(delayMs);
    var lost := [ConnectionLost, d];
    assert [d][1..] == [] && [ConnectionLost][1..] == [] && lost[1..] == [d];
    assert Delays([d]) == [delayMs] + Delays([]);
    assert Delays(lost) == [] + Delays([d]);
  }

  lemma OutputsCountAttempts(s: State, e: Event)
    requires Inv(s) && Enabled(s, e) && !ConfirmsStart(s, e)
    ensures || (Next(s, e).reconnectAttempt == s.reconnectAttempt && Delays(Outputs(s, e)) == [])
            || (&& Next(s, e).reconnectAttempt == s.reconnectAttempt + 1 && s.reconnectAttempt < MAX_RECONNECTS
                && Delays(Outputs(s, e)) == [BackoffMs(s.reconnectAttempt)])
  {
    if e.HubClosed? || e.RetryRuns? {
      DelaysOfLoss(BackoffMs(s.reconnectAttempt));
    } else {
      OthersScheduleNothing(s, e);
    }
  }

  lemma TotalDelayBounded(es: seq<Event>)
    requires ValidRun(es)
    ensures |DelaysSinceStart(es)| <= MAX_RECONNECTS && Sum(DelaysSinceStart(es)) <= 31000
  {
    BackoffIsExact(es);
    var n := After(es).reconnectAttempt;
    SumOfPrefix(BACKOFF, n);
    assert BACKOFF[1..] == [2000, 4000, 8000, 16000] && BACKOFF[1..][1..] == [4000, 8000, 16000];
    assert Sum([16000]) == 16000 && Sum([8000, 16000]) == 24000 by { assert [8000, 16000][1..] == [16000]; }
    assert Sum([4000, 8000, 16000]) == 28000 by { assert [4000, 8000, 16000][1..] == [8000, 16000]; }
    assert Sum([2000, 4000, 8000, 16000]) == 30000 by { assert [2000, 4000, 8000, 16000][1..] == [4000, 8000, 16000]; }
  }

  lemma {:induction false} SumOfPrefix(xs: seq<nat>, n: nat)
    requires n <= |xs|
    ensures Sum(xs[..n]) <= Sum(xs)
  {
    if n > 0 {
      assert xs[..n][1..] == xs[1..][..n - 1];
      SumOfPrefix(xs[1..], n - 1);
    }
  }

  // ---- the service comes to rest ----

  function Weight(t: Task): nat {
    match t.phase
    case Pending => 5
    case AwaitStop(_) => 4
    case AwaitStart(_) => 2
    case _ => 0
  }

  function Weights(tasks: seq<Task>): nat {
    if tasks == [] then 0 else Weights(tasks[..|tasks| - 1]) + Weight(tasks[|tasks| - 1])
  }

  /** Work the service can still do on its own: remaining attempts, live timers, transitions, callbacks. */
  function Effort(s: State): nat {
    (if s.reconnectAttempt <= MAX_RECONNECTS then 6 * (MAX_RECONNECTS - s.reconnectAttempt) else 0)
    + (if s.armed == map[] then 0 else 6)
    + Weights(s.tasks) + Held(s) + s.retries
  }

  /** Events by which the service itself moves on, or loses the connection it holds. */
  predicate Internal(s: State, e: Event) {
    e.Begin? || e.StopDone? || e.StartDone? || e.TimerFires? || e.RetryRuns?
    || (e.HubClosed? && s.connection == Some(e.hub))
  }

  lemma {:induction false} WeightsAfterUpdate(tasks: seq<Task>, i: nat, t: Task)
    requires i < |tasks|
    ensures Weights(tasks[i := t]) == Weights(tasks) - Weight(tasks[i]) + Weight(t)
  {
    var n := |tasks| - 1;
    if i == n {
      assert tasks[i := t][..n] == tasks[..n];
    } else {
      assert tasks[i := t][..n] == tasks[..n][i := t];
      WeightsAfterUpdate(tasks[..n], i, t);
    }
  }

  lemma ArmedIsSingle(s: State, h: nat)
    requires Timers(s) && h in s.armed
    ensures s.armed - {h} == map[]
  {
  }

  lemma TaskStepUsesEffort(s: State, e: Event)
    requires Inv(s) && Enabled(s, e) && IsTaskStep(e) && !ConfirmsStart(s, e)
    ensures Effort(Next(s, e)) < Effort(s)
  {
    var s' := Next(s, e);
    TaskStepShape(s, e);
    WeightsAfterUpdate(s.tasks, e.task, s'.tasks[e.task]);
  }

  lemma TimerUsesEffort(s: State, h: nat)
    requires Inv(s) && Enabled(s, TimerFires(h))
    ensures Effort(Next(s, TimerFires(h))) < Effort(s)
  {
    ArmedIsSingle(s, h);
    var s' := Next(s, TimerFires(h));
    if s'.tasks != s.tasks { assert s'.tasks[..|s.tasks|] == s.tasks; }
  }

  lemma ScheduleUsesNoEffort(s: State)
    requires Inv(s)
    ensures Effort(ScheduleReconnect(s)) <= Effort(s)
  {
    if s.armed != map[] {
      var h :| h in s.armed;
      ArmedIsSingle(s, h);
    }
  }

  lemma LossUsesEffort(s: State, c: nat)
    requires Inv(s) && Enabled(s, HubClosed(c)) && s.connection == Some(c)
    ensures Effort(Next(s, HubClosed(c))) < Effort(s)
  {
    var h := s.hubs[c].(closed := true, state := Disconnected);
    LoseKeepsInv(s, c, h);
    ScheduleUsesNoEffort(Lose(s, c, h));
  }

  lemma RetryUsesEffort(s: State)
    requires Inv(s) && Enabled(s, RetryRuns)
    ensures Effort(Next(s, RetryRuns)) < Effort(s)
  {
    ScheduleUsesNoEffort(s.(retries := s.retries - 1));
  }

  lemma InternalEventsUseEffort(s: State, e: Event)
    requires Inv(s) && Enabled(s, e) && Internal(s, e) && !ConfirmsStart(s, e)
    ensures Effort(Next(s, e)) < Effort(s)
  {
    if IsTaskStep(e) {
      TaskStepUsesEffort(s, e);
    } else {
      match e
      case TimerFires(h) => TimerUsesEffort(s, h);
      case RetryRuns => RetryUsesEffort(s);
      case HubClosed(c) => LossUsesEffort(s, c);
    }
  }

  lemma OtherEventsUseNoEffort(s: State, e: Event)
    requires Inv(s) && Enabled(s, e) && !Internal(s, e) && !e.CallConnect? && !e.CallDisconnect?
    ensures Effort(Next(s, e)) == Effort(s)
  {
  }

  ghost predicate Unaided(es: seq<Event>, k: nat)
    requires ValidRun(es) && k <= |es|
  {
    |es| == k || (&& Unaided(es[..|es| - 1], k)
                  && !es[|es| - 1].CallConnect? && !es[|es| - 1].CallDisconnect?
                  && !ConfirmsStart(After(es[..|es| - 1]), es[|es| - 1]))
  }

  ghost function InternalSteps(es: seq<Event>, k: nat): nat
    requires ValidRun(es) && k <= |es|
  {
    if |es| == k then 0
    else InternalSteps(es[..|es| - 1], k) + if Internal(After(es[..|es| - 1]), es[|es| - 1]) then 1 else 0
  }

  /** Without calls and without a successful start, the service takes boundedly many steps: it cannot
      reconnect for ever, however stops, starts, timers and losses are interleaved. */
  lemma {:induction false} ReconnectingEnds(es: seq<Event>, k: nat)
    requires ValidRun(es) && k <= |es| && ValidRun(es[..k]) && Unaided(es, k)
    ensures InternalSteps(es, k) + Effort(After(es)) <= Effort(After(es[..k]))
  {
    if |es| == k {
      assert es[..k] == es;
    } else {
      var pre, e := es[..|es| - 1], es[|es| - 1];
      assert pre[..k] == es[..k];
      ReconnectingEnds(pre, k);
      RunKeepsInv(pre);
      if Internal(After(pre), e) {
        InternalEventsUseEffort(After(pre), e);
      } else {
        OtherEventsUseNoEffort(After(pre), e);
      }
    }
  }

  // ---- the queue moves on ----

  /** While a transition has not settled, the first such one may take a step: the queue can always be drained. */
  lemma QueueMovesOn(s: State, i: nat)
    requires Inv(s) && i < |s.tasks| && !Settled(s.tasks[i].phase)
    requires forall j :: 0 <= j < i ==> Settled(s.tasks[j].phase)
    ensures exists e :: IsTaskStep(e) && e.task == i && Enabled(s, e)
  {
    match s.tasks[i].phase
    case Pending => assert Enabled(s, Begin(i));
    case AwaitStop(_) => assert Enabled(s, StopDone(i, true));
    case AwaitStart(_) => assert Enabled(s, StartDone(i, true));
    case _ =>
  }

  lemma {:induction false} FirstUnsettled(s: State, n: nat) returns (i: nat)
    requires n <= |s.tasks| && exists j :: 0 <= j < n && !Settled(s.tasks[j].phase)
    ensures i < n && !Settled(s.tasks[i].phase) && forall j :: 0 <= j < i ==> Settled(s.tasks[j].phase)
  {
    if exists j :: 0 <= j < n - 1 && !Settled(s.tasks[j].phase) {
      i := FirstUnsettled(s, n - 1);
    } else {
      i := n - 1;
    }
  }

  /** In every reachable state in which the queue is not drained, some transition may begin or resume. */
  lemma QueueIsNeverStuck(es: seq<Event>)
    requires ValidRun(es) && !Quiet(After(es))
    ensures exists e :: IsTaskStep(e) && Enabled(After(es), e)
  {
    RunKeepsInv(es);
    var i := FirstUnsettled(After(es), |After(es).tasks|);
    QueueMovesOn(After(es), i);
  }

  /** Calls are always possible. */
  lemma CallsAreEnabled(es: seq<Event>, e: Event)
    requires ValidRun(es) && (e.CallConnect? || e.CallDisconnect? || e.CallSend?)
    ensures Enabled(After(es), e)
  {
    RunKeepsInv(es);
  }

  lemma Extended(es: seq<Event>, e: Event)
    requires ValidRun(es) && Enabled(After(es), e)
    ensures ValidRun(es + [e]) && After(es + [e]) == Next(After(es), e)
    ensures LastRequest(es + [e]) == match e
                                     case CallConnect(u) => if u > 0 then Some(u) else LastRequest(es)
                                     case CallDisconnect => None
                                     case _ => LastRequest(es)
  {
    assert (es + [e])[..|es|] == es;
  }
}
