/** What the chat connection manager does about a lost connection, and what it lets out. */
module ChatReconnecting {
  import opened Wrappers
  import opened ChatProtocol
  import opened ChatInvariants
  import opened ChatTheorems

  /** The promise that the next transition is chained to. */
  function ChainEnd(s: State): Option<nat> {
    if s.tasks == [] then None else Some(|s.tasks| - 1)
  }

  /** A live timer is for the user of the last call, and when it fires it queues exactly one connect of that user. */
  lemma TimerQueuesConnect(es: seq<Event>, h: nat)
    requires ValidRun(es) && h in After(es).armed
    ensures var s := After(es);
            && Enabled(s, TimerFires(h)) && LastRequest(es) == s.requestedUserId == Some(s.armed[h])
            && Next(s, TimerFires(h)) ==
               s.(armed := map[], tasks := s.tasks + [Task(LastRequest(es), ChainEnd(s), true, Pending)],
               connectionTransition := Some(|s.tasks|))
  {
    RunKeepsInv(es);
    RequestedIsLastRequest(es);
    ArmedIsSingle(After(es), h);
  }

  /** The one timer for the user of the last call, with the delay for the attempt it makes. */
  ghost predicate ArmsTimer(s: State, s': State, user: UserId) {
    && s'.armed == map[s.nextTimer := user] && s'.reconnectTimer == Some(s.nextTimer)
    && s'.nextTimer == s.nextTimer + 1 && s'.reconnectAttempt == s.reconnectAttempt + 1
  }

  predicate ArmsNothing(s: State, s': State) {
    s'.armed == map[] && s'.nextTimer == s.nextTimer && s'.reconnectAttempt == s.reconnectAttempt
  }

  /** A closed connection that is not held changes nothing else. The held one is given up, and a timer is armed exactly
      when it was the requested user's, nothing disconnects it on purpose, and fewer than five attempts were made. */
  ghost predicate ClosesExactly(s: State, s': State, c: nat) {
    && c < |s.hubs| && s'.hubs == s.hubs[c := s.hubs[c].(closed := true, state := Disconnected)]
    && s'.tasks == s.tasks && s'.requestedUserId == s.requestedUserId && s'.retries == s.retries
    && s'.intentionalDisconnect == s.intentionalDisconnect && s'.lastKnownUserId == s.lastKnownUserId
    && if s.connection != Some(c) then s' == s.(hubs := s'.hubs)
       else
         && s'.connection == None && s'.currentUserId == None && s.currentUserId.Some?
         && if !s.intentionalDisconnect && s.reconnectAttempt < 5 && s.requestedUserId == s.currentUserId
            then ArmsTimer(s, s', s.currentUserId.value) else ArmsNothing(s, s')
  }

  lemma CloseIsExact(es: seq<Event>, c: nat)
    requires ValidRun(es) && Enabled(After(es), HubClosed(c))
    ensures ClosesExactly(After(es), Next(After(es), HubClosed(c)), c)
  {
    RunKeepsInv(es);
    ScheduleIsExact(Lose(After(es), c, After(es).hubs[c].(closed := true, state := Disconnected)));
  }

  /** A lost connection is reconnected by a timer exactly when it was that of the user of the last call, nothing
      disconnects it on purpose, and fewer than five attempts were made. */
  lemma LossArmsTimerExactly(es: seq<Event>, c: nat)
    requires ValidRun(es) && After(es).connection == Some(c)
    ensures var s := After(es);
            && Enabled(s, HubClosed(c)) && s.currentUserId.Some?
            && var s' := Next(s, HubClosed(c));
            && s'.connection == None && s'.currentUserId == None && s'.tasks == s.tasks
            && (if !s.intentionalDisconnect && s.reconnectAttempt < 5 && LastRequest(es) == s.currentUserId
                then ArmsTimer(s, s', s.currentUserId.value) else ArmsNothing(s, s'))
  {
    RunKeepsInv(es);
    RequestedIsLastRequest(es);
    CloseIsExact(es, c);
  }

  /** So does a reconnect that failed, for the user who was connected last. */
  lemma RetryArmsTimerExactly(es: seq<Event>)
    requires ValidRun(es) && Enabled(After(es), RetryRuns)
    ensures var s, s' := After(es), Next(After(es), RetryRuns);
            && s'.connection == s.connection && s'.tasks == s.tasks && s'.retries == s.retries - 1
            && (if !s.intentionalDisconnect && s.reconnectAttempt < 5
                   && LastRequest(es).Some? && LastRequest(es) == s.lastKnownUserId
                then ArmsTimer(s, s', LastRequest(es).value) else ArmsNothing(s, s'))
  {
    RunKeepsInv(es);
    RequestedIsLastRequest(es);
    var s := After(es);
    ScheduleIsExact(s.(retries := s.retries - 1));
  }

  lemma ScheduleIsExact(s: State)
    requires Timers(s)
    ensures var s' := ScheduleReconnect(s);
            if !s.intentionalDisconnect && s.reconnectAttempt < 5
               && s.lastKnownUserId.Some? && s.requestedUserId == s.lastKnownUserId
            then ArmsTimer(s, s', s.lastKnownUserId.value) else ArmsNothing(s, s')
  {
    if s.armed != map[] {
      var h :| h in s.armed;
      ArmedIsSingle(s, h);
    }
  }

  /** A connect that has nothing to do: its user is not requested any more, or is connected already. */
  predicate Moot(s: State, i: nat)
    requires i < |s.tasks|
  {
    var target := s.tasks[i].target;
    && target.Some?
    && (target != s.requestedUserId
        || (&& s.connection.Some? && s.connection.value < |s.hubs| && target == s.currentUserId
            && IsActive(s.hubs[s.connection.value].state)))
  }

  /** Transition i has a new connection of the user to start, with its listeners on. */
  function Opened(s: State, i: nat, user: UserId): State
    requires i < |s.tasks|
  {
    s.(connection := Some(|s.hubs|), currentUserId := Some(user), lastKnownUserId := Some(user),
    intentionalDisconnect := false, hubs := s.hubs + [Hub(user, Connecting, true, false, false, false)],
    tasks := s.tasks[i := s.tasks[i].(phase := AwaitStart(|s.hubs|))])
  }

  predicate IsCall(e: Event) {
    e.CallConnect? || e.CallDisconnect?
  }

  lemma {:induction false} NoCallKeepsRequest(es: seq<Event>, k: nat)
    requires k <= |es| && forall i :: k <= i < |es| ==> !IsCall(es[i])
    ensures LastRequest(es) == LastRequest(es[..k])
  {
    if k == |es| {
      assert es[..k] == es;
    } else {
      assert es[..|es| - 1][..k] == es[..k];
      NoCallKeepsRequest(es[..|es| - 1], k);
    }
  }

  predicate ConnectedAs(s: State, user: UserId) {
    && s.connection.Some? && s.connection.value < |s.hubs| && s.hubs[s.connection.value].owner == user
    && s.currentUserId == s.requestedUserId == Some(user)
  }

  lemma TimerIsUnderway(es: seq<Event>, h: nat)
    requires ValidRun(es) && h in After(es).armed
    ensures LastRequest(es).Some? && Underway(Next(After(es), TimerFires(h)), LastRequest(es).value)
  {
    TimerQueuesConnect(es, h);
  }

  lemma DrainedIsConnected(es: seq<Event>, user: UserId)
    requires ValidRun(es) && Underway(After(es), user) && Quiet(After(es))
    ensures LastRequest(es) == Some(user) && ConnectedAs(After(es), user)
  {
    RunKeepsInv(es);
    RequestedIsLastRequest(es);
  }

  /** Once a reconnect timer has fired, with no call, failure or loss after it, the drained queue leaves the user of
      the last call connected. */
  lemma DrainedAfterTimer(es: seq<Event>, k: nat)
    requires ValidRun(es) && k < |es| && es[k].TimerFires? && SmoothSince(es, k + 1) && Quiet(After(es))
    ensures LastRequest(es).Some? && ConnectedAs(After(es), LastRequest(es).value)
  {
    PrefixIsRun(es, k);
    PrefixIsRun(es, k + 1);
    assert es[..k + 1][..k] == es[..k];
    TimerIsUnderway(es[..k], es[k].timer);
    StaysUnderway(es, k + 1, LastRequest(es[..k]).value);
    DrainedIsConnected(es, LastRequest(es[..k]).value);
  }

  /** The held connection of the requested user is lost with attempts left. When the timer that this armed has fired,
      and no call has come since the loss and no failure or loss since the firing, the drained queue leaves that user
      connected again. */
  lemma ReconnectedAfterLoss(es: seq<Event>, j: nat, k: nat)
    requires ValidRun(es) && j < k < |es| && ValidRun(es[..j])
    requires var s := After(es[..j]);
             && s.connection.Some? && es[j] == HubClosed(s.connection.value)
             && !s.intentionalDisconnect && s.reconnectAttempt < 5 && LastRequest(es[..j]) == s.currentUserId
             && es[k] == TimerFires(s.nextTimer)
    requires forall i :: j < i < |es| ==> !IsCall(es[i])
    requires SmoothSince(es, k + 1) && Quiet(After(es))
    ensures After(es[..j]).currentUserId.Some? && ConnectedAs(After(es), After(es[..j]).currentUserId.value)
  {
    LossArmsTimerExactly(es[..j], After(es[..j]).connection.value);
    NoCallKeepsRequest(es, j);
    DrainedAfterTimer(es, k);
  }

  lemma BeginOpens(s: State, i: nat, user: UserId)
    requires Enabled(s, Begin(i)) && s.tasks[i].target == s.requestedUserId == Some(user) && s.connection == None
    ensures Next(s, Begin(i)) == Opened(s, i, user)
  {
  }

  lemma StartConnects(s: State, i: nat, user: UserId)
    requires Identity(s) && Enabled(s, StartDone(i, true)) && s.tasks[i].target == s.requestedUserId == Some(user)
    requires s.connection == Some(s.tasks[i].phase.hub) && s.currentUserId == Some(user)
    ensures var s' := Next(s, StartDone(i, true));
            ConnectedAs(s', user) && s'.connection == s.connection && s'.reconnectAttempt == 0
  {
  }

  /** The queued connect of the requested user may begin and start, and connects that user. */
  lemma QueuedConnects(es: seq<Event>, i: nat, user: UserId)
    requires ValidRun(es) && Enabled(After(es), Begin(i)) && After(es).connection == None
    requires After(es).tasks[i].target == After(es).requestedUserId == Some(user)
    ensures var more := [Begin(i), StartDone(i, true)];
            ValidRun(es + more) && ConnectedAs(After(es + more), user) && After(es + more).reconnectAttempt == 0
  {
    BeginOpens(After(es), i, user);
    Extended(es, Begin(i));
    var begun := es + [Begin(i)];
    RunKeepsInv(begun);
    StartConnects(After(begun), i, user);
    Extended(begun, StartDone(i, true));
    assert begun + [StartDone(i, true)] == es + [Begin(i), StartDone(i, true)];
  }

  lemma QueuedMayBegin(es: seq<Event>, h: nat)
    requires ValidRun(es) && Quiet(After(es)) && After(es).connection == None && h in After(es).armed
    ensures var s := After(es);
            var fired := es + [TimerFires(h)];
            && ValidRun(fired) && Enabled(After(fired), Begin(|s.tasks|)) && After(fired).connection == None
            && After(fired).tasks[|s.tasks|].target == After(fired).requestedUserId == Some(s.armed[h])
  {
    TimerQueuesConnect(es, h);
    Extended(es, TimerFires(h));
  }

  /** A timer that fires on a drained queue without a connection: its connect may begin, and then start. */
  lemma TimerReconnects(es: seq<Event>, h: nat)
    requires ValidRun(es) && Quiet(After(es)) && After(es).connection == None && h in After(es).armed
    ensures var s := After(es);
            var more := [TimerFires(h), Begin(|s.tasks|), StartDone(|s.tasks|, true)];
            && ValidRun(es + more) && ConnectedAs(After(es + more), s.armed[h])
            && After(es + more).reconnectAttempt == 0
  {
    var s := After(es);
    QueuedMayBegin(es, h);
    QueuedConnects(es + [TimerFires(h)], |s.tasks|, s.armed[h]);
    assert es + [TimerFires(h)] + [Begin(|s.tasks|), StartDone(|s.tasks|, true)] ==
           es + [TimerFires(h), Begin(|s.tasks|), StartDone(|s.tasks|, true)];
  }

  /** From every state with a drained queue that holds a connection with attempts left: the loss, the timer it arms, the
      timer's connect and its start may follow one another, and connect the user again. */
  lemma LossReconnects(es: seq<Event>, c: nat)
    requires ValidRun(es) && Quiet(After(es)) && After(es).connection == Some(c)
    requires !After(es).intentionalDisconnect && After(es).reconnectAttempt < 5
    ensures var s := After(es);
            var more := [TimerFires(s.nextTimer), Begin(|s.tasks|), StartDone(|s.tasks|, true)];
            && ValidRun(es + [HubClosed(c)] + more) && s.currentUserId.Some?
            && ConnectedAs(After(es + [HubClosed(c)] + more), s.currentUserId.value)
  {
    RunKeepsInv(es);
    RequestedIsLastRequest(es);
    LossArmsTimerExactly(es, c);
    Extended(es, HubClosed(c));
    TimerReconnects(es + [HubClosed(c)], After(es).nextTimer);
  }

  // ---- a live connection is kept ----

  /** Connection c is live, for the requested user, and no disconnect is queued. */
  ghost predicate Steady(s: State, c: nat, user: UserId) {
    && s.connection == Some(c) && c < |s.hubs| && IsActive(s.hubs[c].state)
    && s.currentUserId == s.requestedUserId == Some(user) && !s.intentionalDisconnect
    && forall i :: 0 <= i < |s.tasks| && s.tasks[i].phase.Pending? ==> s.tasks[i].target.Some?
  }

  /** Nobody asks for another user or for none, and the connection neither fails nor goes down. */
  predicate LeavesAlone(s: State, e: Event, c: nat, user: UserId)
    requires Enabled(s, e)
  {
    match e
    case CallConnect(u) => u == user || u <= 0
    case CallDisconnect => false
    case StartDone(i, ok) => ok || s.tasks[i].phase.hub != c
    case HubClosed(d) => d != c
    case HubMoves(d, state) => d == c ==> IsActive(state)
    case _ => true
  }

  lemma TransitionKeepsSteady(s: State, e: Event, c: nat, user: UserId)
    requires Chained(s) && Waiting(s) && Steady(s, c, user) && Enabled(s, e) && IsTaskStep(e) && LeavesAlone(s, e, c, user)
    ensures Steady(Next(s, e), c, user) && |Next(s, e).hubs| == |s.hubs|
  {
    if e.Begin? { assert s.tasks[e.task].target.Some?; }
  }

  lemma OtherKeepsSteady(s: State, e: Event, c: nat, user: UserId)
    requires Timers(s) && Steady(s, c, user) && Enabled(s, e) && !IsTaskStep(e) && LeavesAlone(s, e, c, user)
    ensures Steady(Next(s, e), c, user) && |Next(s, e).hubs| == |s.hubs|
  {
  }

  /** From state k on, nothing but what leaves the connection alone. */
  ghost predicate LeftAlone(es: seq<Event>, k: nat, c: nat, user: UserId)
    requires ValidRun(es) && k <= |es|
  {
    |es| == k || (LeftAlone(es[..|es| - 1], k, c, user) && LeavesAlone(After(es[..|es| - 1]), es[|es| - 1], c, user))
  }

  /** A live connection is kept, and no other is opened, through repeated connects of its user, reconnect timers,
      superseded transitions and sends. */
  lemma {:induction false} LiveConnectionIsKept(es: seq<Event>, k: nat, c: nat, user: UserId)
    requires ValidRun(es) && k <= |es| && ValidRun(es[..k]) && Steady(After(es[..k]), c, user)
    requires LeftAlone(es, k, c, user)
    ensures Steady(After(es), c, user) && |After(es).hubs| == |After(es[..k]).hubs|
  {
    if k == |es| {
      assert es[..k] == es;
    } else {
      var pre, e := es[..|es| - 1], es[|es| - 1];
      assert pre[..k] == es[..k];
      LiveConnectionIsKept(pre, k, c, user);
      RunKeepsInv(pre);
      if IsTaskStep(e) {
        TransitionKeepsSteady(After(pre), e, c, user);
      } else {
        OtherKeepsSteady(After(pre), e, c, user);
      }
    }
  }

  // ---- failed reconnects are retried ----

  predicate FailedReconnect(t: Task) {
    t.byTimer && t.phase.Rejected?
  }

  function FailedReconnects(tasks: seq<Task>): nat {
    if tasks == [] then 0
    else FailedReconnects(tasks[..|tasks| - 1]) + if FailedReconnect(tasks[|tasks| - 1]) then 1 else 0
  }

  function RetriesRun(es: seq<Event>): nat {
    if es == [] then 0 else RetriesRun(es[..|es| - 1]) + if es[|es| - 1].RetryRuns? then 1 else 0
  }

  lemma {:induction false} FailedAfterUpdate(tasks: seq<Task>, i: nat, t: Task)
    requires i < |tasks| && !FailedReconnect(tasks[i])
    ensures FailedReconnects(tasks[i := t]) == FailedReconnects(tasks) + if FailedReconnect(t) then 1 else 0
  {
    var n := |tasks| - 1;
    if i == n {
      assert tasks[i := t][..n] == tasks[..n];
    } else {
      assert tasks[i := t][..n] == tasks[..n][i := t];
      FailedAfterUpdate(tasks[..n], i, t);
    }
  }

  /** One transition stepped: a retry is left to run exactly if that failed a reconnect. */
  predicate OwesRetry(s: State, s': State, i: nat) {
    && i < |s.tasks| == |s'.tasks| && s'.tasks == s.tasks[i := s'.tasks[i]]
    && s'.tasks[i].byTimer == s.tasks[i].byTimer && !FailedReconnect(s.tasks[i])
    && s'.retries == s.retries + if FailedReconnect(s'.tasks[i]) then 1 else 0
  }

  lemma SettleOwesRetry(s: State, i: nat, phase: Phase)
    requires i < |s.tasks| && !Settled(s.tasks[i].phase) && Settled(phase)
    ensures OwesRetry(s, Settle(s, i, phase), i) && Settle(s, i, phase).tasks[i].phase == phase
  {
  }

  lemma BeginOwesNoRetry(s: State, i: nat)
    requires Enabled(s, Begin(i))
    ensures OwesRetry(s, Next(s, Begin(i)), i) && !Next(s, Begin(i)).tasks[i].phase.Rejected?
  {
    SettleOwesRetry(s, i, Resolved);
  }

  /** A transition fails exactly when its stop or its start fails, and a retry is due exactly if a timer awaits it. */
  lemma StepOwesRetry(s: State, e: Event)
    requires Enabled(s, e) && IsTaskStep(e)
    ensures OwesRetry(s, Next(s, e), e.task)
    ensures Next(s, e).tasks[e.task].phase.Rejected? <==> (e.StopDone? || e.StartDone?) && !e.ok
  {
    match e
    case Begin(i) => BeginOwesNoRetry(s, i);
    case StopDone(i, ok) =>
      SettleOwesRetry(s, i, Resolved);
      SettleOwesRetry(s, i, Rejected);
    case StartDone(i, ok) =>
      SettleOwesRetry(s, i, Resolved);
      SettleOwesRetry(s, i, Rejected);
    case _ =>
  }

  /** Only the steps of transitions settle one; calls and timers queue a new one, and nothing else touches the queue. */
  lemma OthersOwNoRetry(s: State, e: Event)
    requires Enabled(s, e) && !IsTaskStep(e)
    ensures var s' := Next(s, e);
            && s'.retries == s.retries - (if e.RetryRuns? then 1 else 0)
            && (s'.tasks == s.tasks
                || (|s'.tasks| == |s.tasks| + 1 && s'.tasks[..|s.tasks|] == s.tasks && s'.tasks[|s.tasks|].phase.Pending?))
  {
  }

  /** Every reconnect that failed is retried once: what has not run yet is due. */
  lemma {:induction false} FailedReconnectsAreRetried(es: seq<Event>)
    requires ValidRun(es)
    ensures FailedReconnects(After(es).tasks) == RetriesRun(es) + After(es).retries
  {
    if es != [] {
      var pre, e := es[..|es| - 1], es[|es| - 1];
      var s := After(pre);
      FailedReconnectsAreRetried(pre);
      if IsTaskStep(e) {
        StepOwesRetry(s, e);
        FailedAfterUpdate(s.tasks, e.task, Next(s, e).tasks[e.task]);
      } else {
        OthersOwNoRetry(s, e);
      }
    }
  }

  // ---- what goes out ----

  /** A message goes out over the open connection of the user of the last call, over REST while there is a current
      user but no open connection, and else not at all. */
  lemma SendsExactly(es: seq<Event>)
    requires ValidRun(es)
    ensures var s := After(es);
            && Enabled(s, CallSend)
            && Outputs(s, CallSend) ==
               if LastRequest(es).None? || s.currentUserId != LastRequest(es) then []
               else if s.connection.Some? && s.connection.value < |s.hubs|
                       && s.hubs[s.connection.value].state == Connected
               then [RealtimeSend(LastRequest(es).value, s.connection.value)]
               else [RestSend(LastRequest(es).value)]
  {
    RunKeepsInv(es);
    RequestedIsLastRequest(es);
  }

  /** The listeners hear an event exactly when it comes over the held connection and that is the requested user's. */
  lemma DeliversExactly(es: seq<Event>, c: nat)
    requires ValidRun(es) && Enabled(After(es), HubDelivers(c))
    ensures var s := After(es);
            Outputs(s, HubDelivers(c)) ==
            if s.connection == Some(c) && LastRequest(es) == Some(s.hubs[c].owner) then [Delivered(c)] else []
  {
    RunKeepsInv(es);
    RequestedIsLastRequest(es);
  }

  /** A failed invocation falls back to REST exactly while its user is the current one and that of the last call. */
  lemma FallsBackExactly(es: seq<Event>, k: nat, ok: bool)
    requires ValidRun(es) && k < |After(es).invocations|
    ensures var s := After(es);
            && Enabled(s, InvokeDone(k, ok))
            && Outputs(s, InvokeDone(k, ok)) ==
               if !ok && Some(s.invocations[k].user) == s.currentUserId == LastRequest(es)
               then [RestSend(s.invocations[k].user)] else []
  {
    RunKeepsInv(es);
    RequestedIsLastRequest(es);
  }

  /** Losing the held connection is always announced, and announces a reconnect exactly when a timer is armed for it. */
  lemma LossIsAnnounced(es: seq<Event>, c: nat)
    requires ValidRun(es) && Enabled(After(es), HubClosed(c))
    ensures var s, outs := After(es), Outputs(After(es), HubClosed(c));
            && (ConnectionLost in outs <==> s.connection == Some(c))
            && ((exists d :: ReconnectScheduled(d) in outs) <==>
                  s.connection == Some(c) && Next(s, HubClosed(c)).nextTimer == s.nextTimer + 1)
  {
    RunKeepsInv(es);
    var s, outs := After(es), Outputs(After(es), HubClosed(c));
    if s.connection == Some(c) && MaySchedule(s) { assert ReconnectScheduled(BackoffMs(s.reconnectAttempt)) in outs; }
  }
}
