/** The chat service as the object that the source writes: its methods assign its fields. */
module ChatServiceObject {
  import opened Wrappers
  import opened ChatProtocol
  import opened ChatInvariants
  import opened ChatTheorems
  import opened ChatReconnecting
  import opened Text

  class ChatService {
    var connection: Option<nat>
    var currentUserId: Option<UserId>
    var requestedUserId: Option<UserId>
    var lastKnownUserId: Option<UserId>
    var intentionalDisconnect: bool
    var reconnectAttempt: nat
    var reconnectTimer: Option<nat>
    var connectionTransition: Option<nat>

    // The library and the event loop: hub connections, promises, live timers, waiting callbacks.
    var hubs: seq<Hub>
    var tasks: seq<Task>
    var armed: map<nat, UserId>
    var nextTimer: nat
    var retries: nat
    var invocations: seq<Invocation>

    // Everything that happened to the service so far.
    ghost var run: seq<Event>

    /** The service is where its run has led. */
    ghost predicate Valid()
      reads this
    {
      ValidRun(run) && Snapshot() == After(run)
    }

    function Snapshot(): State
      reads this
    {
      State(connection, currentUserId, requestedUserId, lastKnownUserId, intentionalDisconnect, reconnectAttempt,
            reconnectTimer, connectionTransition, hubs, tasks, armed, nextTimer, retries, invocations)
    }

    /** The connections, the users and the counters, which no public call touches before the queue gets to it. */
    function Holding(): (Option<nat>, Option<UserId>, Option<UserId>, nat, seq<Hub>, nat, seq<Invocation>)
      reads this
    {
      (connection, currentUserId, lastKnownUserId, reconnectAttempt, hubs, retries, invocations)
    }

    constructor ()
      ensures Valid() && run == []
    {
      connection, currentUserId, requestedUserId, lastKnownUserId := None, None, None, None;
      intentionalDisconnect, reconnectAttempt, reconnectTimer, connectionTransition := false, 0, None, None;
      hubs, tasks, armed, nextTimer, retries, invocations := [], [], map[], 0, 0, [];
      run := [];
    }

    /** Notes an event that the fields already show. */
    ghost method Record(e: Event)
      requires ValidRun(run) && Enabled(After(run), e) && Snapshot() == Next(After(run), e)
      modifies this`run
      ensures Valid() && run == old(run) + [e]
    {
      Extended(run, e);
      run := run + [e];
    }

    /** connect(): the requested user changes at once, the work is queued. */
    method Connect(user: int) returns (accepted: bool)
      requires Valid()
      modifies this
      ensures Valid() && run == old(run) + [CallConnect(user)]
      ensures accepted == (user > 0)
      ensures accepted ==> requestedUserId == Some(user) && LastRequest(run) == Some(user)
      ensures accepted ==> tasks == old(tasks) + [Task(Some(user), ChainEnd(old(Snapshot())), false, Pending)]
      ensures accepted ==> armed == if old(requestedUserId) == Some(user) then old(armed) else map[]
      ensures Holding() == old(Holding()) && intentionalDisconnect == old(intentionalDisconnect)
      ensures !accepted ==> Snapshot() == old(Snapshot())
    {
      RunKeepsInv(run);
      CallsAreEnabled(run, CallConnect(user));
      Extended(run, CallConnect(user));
      if user > 0 {
        if requestedUserId != Some(user) {
          ResetTimer();
        }
        requestedUserId := Some(user);
        Chain(Some(user), false);
      }
      Record(CallConnect(user));
      return user > 0;
    }

    /** disconnect(): sends and reconnects are off at once, the work is queued. */
    method Disconnect()
      requires Valid()
      modifies this
      ensures Valid() && run == old(run) + [CallDisconnect]
      ensures requestedUserId == None && armed == map[] && LastRequest(run) == None
      ensures tasks == old(tasks) + [Task(None, ChainEnd(old(Snapshot())), false, Pending)]
      ensures Holding() == old(Holding()) && intentionalDisconnect
    {
      RunKeepsInv(run);
      CallsAreEnabled(run, CallDisconnect);
      Extended(run, CallDisconnect);
      requestedUserId := None;
      intentionalDisconnect := true;
      ResetTimer();
      Chain(None, false);
      Record(CallDisconnect);
      NoTimerWhenNobodyRequested(run);
    }

    /** clearTimeout of the reconnect timer, if the field holds one. */
    method ResetTimer()
      modifies this`armed, this`reconnectTimer
      ensures Snapshot() == ClearTimer(old(Snapshot()))
    {
      if reconnectTimer.Some? {
        armed := armed - {reconnectTimer.value};
        reconnectTimer := None;
      }
    }

    /** `this.connectionTransition.then(...)`, and the new end of the chain. */
    method Chain(target: Option<UserId>, byTimer: bool)
      modifies this`tasks, this`connectionTransition
      ensures Snapshot() == Enqueue(old(Snapshot()), target, byTimer)
    {
      var transition := |tasks|;
      tasks := tasks + [Task(target, connectionTransition, byTimer, Pending)];
      connectionTransition := Some(transition);
    }

    method Finish(i: nat, phase: Phase)
      requires i < |tasks|
      modifies this`tasks, this`retries
      ensures Snapshot() == Settle(old(Snapshot()), i, phase)
    {
      if phase.Rejected? && tasks[i].byTimer {
        retries := retries + 1;
      }
      tasks := tasks[i := tasks[i].(phase := phase)];
    }

    /** Let the held connection go; the transition goes on when stop() settles. */
    method LetGo(i: nat)
      requires i < |tasks| && connection.Some? && connection.value < |hubs|
      modifies this
      ensures Snapshot() == Teardown(old(Snapshot()), i, old(connection.value)) && run == old(run)
    {
      var previousConnection := connection.value;
      intentionalDisconnect := true;
      ResetTimer();
      hubs := hubs[previousConnection := hubs[previousConnection].(attached := false, stopRequested := true)];
      connection := None;
      currentUserId := None;
      lastKnownUserId := None;
      tasks := tasks[i := tasks[i].(phase := AwaitStop(previousConnection))];
    }

    /** The part of connectInternal after the old connection is gone. */
    method Build(i: nat, user: UserId)
      requires i < |tasks|
      modifies this
      ensures Snapshot() == Open(old(Snapshot()), i, user) && run == old(run)
    {
      if requestedUserId != Some(user) {
        Finish(i, Resolved);
        return;
      }
      currentUserId := Some(user);
      lastKnownUserId := Some(user);
      intentionalDisconnect := false;
      var hub := |hubs|;
      hubs := hubs + [Hub(user, Connecting, true, false, false, false)];
      connection := Some(hub);
      tasks := tasks[i := tasks[i].(phase := AwaitStart(hub))];
    }

    /** connectInternal(), up to its first await. */
    method ConnectInternal(i: nat, user: UserId)
      requires i < |tasks| && (connection.Some? ==> connection.value < |hubs|)
      modifies this
      ensures Snapshot() == BeginConnect(old(Snapshot()), i, user) && run == old(run)
    {
      if requestedUserId != Some(user) {
        Finish(i, Resolved);
        return;
      }
      var connectionBelongsToRequestedUser := currentUserId == Some(user);
      if connection.Some? {
        if IsActive(hubs[connection.value].state) && connectionBelongsToRequestedUser {
          Finish(i, Resolved);
          return;
        }
        LetGo(i);
        return;
      }
      Build(i, user);
    }

    /** disconnectInternal(), up to its first await. */
    method DisconnectInternal(i: nat)
      requires i < |tasks| && (connection.Some? ==> connection.value < |hubs|)
      modifies this
      ensures Snapshot() == BeginDisconnect(old(Snapshot()), i) && run == old(run)
    {
      if connection.Some? {
        LetGo(i);
        return;
      }
      intentionalDisconnect := true;
      currentUserId := None;
      lastKnownUserId := None;
      ResetTimer();
      Finish(i, Resolved);
    }

    /** A transition whose predecessor in the chain has settled begins. */
    method BeginTransition(i: nat)
      requires Valid() && Enabled(Snapshot(), Begin(i))
      modifies this
      ensures Valid() && run == old(run) + [Begin(i)]
      ensures Snapshot() == Next(old(Snapshot()), Begin(i))
      // Superseded, or connected already: nothing happens.
      ensures Moot(old(Snapshot()), i) ==>
                Snapshot() == old(Snapshot()).(tasks := old(tasks)[i := old(tasks)[i].(phase := Resolved)])
      // Otherwise a held connection is let go, whoever it belongs to.
      ensures !Moot(old(Snapshot()), i) && old(connection).Some? ==>
                && connection == None && currentUserId == None && lastKnownUserId == None
                && intentionalDisconnect && armed == map[] && requestedUserId == old(requestedUserId)
                && tasks == old(tasks)[i := old(tasks)[i].(phase := AwaitStop(old(connection).value))]
                && hubs == old(hubs)[old(connection).value :=
                                     old(hubs)[old(connection).value].(attached := false, stopRequested := true)]
      // Without one the requested user's is opened.
      ensures !Moot(old(Snapshot()), i) && old(tasks)[i].target.Some? && old(connection).None? ==>
                Snapshot() == Opened(old(Snapshot()), i, old(tasks)[i].target.value)
      ensures old(tasks)[i].target.None? && old(connection).None? ==>
                && connection == None && currentUserId == None && lastKnownUserId == None && intentionalDisconnect
                && armed == map[] && hubs == old(hubs)
                && tasks == old(tasks)[i := old(tasks)[i].(phase := Resolved)]
    {
      RunKeepsInv(run);
      if tasks[i].target.Some? {
        ConnectInternal(i, tasks[i].target.value);
      } else {
        DisconnectInternal(i);
      }
      Record(Begin(i));
    }

    /** What follows `await previousConnection.stop()`. */
    method AfterStop(i: nat, ok: bool)
      requires Valid() && Enabled(Snapshot(), StopDone(i, ok))
      modifies this
      ensures Valid() && run == old(run) + [StopDone(i, ok)]
      ensures Snapshot() == Next(old(Snapshot()), StopDone(i, ok))
      ensures !ok ==> Snapshot() == old(Snapshot()).(retries := retries,
                                                     tasks := old(tasks)[i := old(tasks)[i].(phase := Rejected)])
                      && retries == old(retries) + (if old(tasks)[i].byTimer then 1 else 0)
      ensures ok && old(tasks)[i].target.Some? ==>
                Snapshot() == (if old(tasks)[i].target == old(requestedUserId)
                               then Opened(old(Snapshot()), i, old(tasks)[i].target.value)
                               else old(Snapshot()).(tasks := old(tasks)[i := old(tasks)[i].(phase := Resolved)]))
      ensures ok && old(tasks)[i].target.None? ==>
                Snapshot() == old(Snapshot()).(currentUserId := None, lastKnownUserId := None,
                tasks := old(tasks)[i := old(tasks)[i].(phase := Resolved)])
    {
      if !ok {
        Finish(i, Rejected);
      } else if tasks[i].target.Some? {
        Build(i, tasks[i].target.value);
      } else {
        currentUserId := None;
        lastKnownUserId := None;
        Finish(i, Resolved);
      }
      Record(StopDone(i, ok));
    }

    /** What follows `await connection.start()`, and its catch block. */
    method AfterStart(i: nat, ok: bool)
      requires Valid() && Enabled(Snapshot(), StartDone(i, ok))
      modifies this
      ensures Valid() && run == old(run) + [StartDone(i, ok)]
      ensures Snapshot() == Next(old(Snapshot()), StartDone(i, ok))
      ensures ok ==> Snapshot() == old(Snapshot()).(
                     reconnectAttempt := if old(tasks)[i].target == old(requestedUserId) then 0 else old(reconnectAttempt),
                     tasks := old(tasks)[i := old(tasks)[i].(phase := Resolved)])
      ensures var hub := old(tasks)[i].phase.hub;
              var lost := old(connection) == Some(hub);
              !ok ==> Snapshot() == old(Snapshot()).(
                      connection := if lost then None else old(connection),
                      currentUserId := if lost then None else old(currentUserId),
                      hubs := old(hubs)[hub := old(hubs)[hub].(startFailed := true)],
                      retries := old(retries) + (if old(tasks)[i].byTimer then 1 else 0),
                      tasks := old(tasks)[i := old(tasks)[i].(phase := Rejected)])
    {
      if ok {
        Started(i);
      } else {
        StartFails(i);
      }
      Record(StartDone(i, ok));
    }

    method Started(i: nat)
      requires i < |tasks|
      modifies this`reconnectAttempt, this`tasks, this`retries
      ensures Snapshot() ==
              Settle(if old(requestedUserId) == old(tasks)[i].target then old(Snapshot()).(reconnectAttempt := 0)
                     else old(Snapshot()), i, Resolved)
    {
      if requestedUserId == tasks[i].target {
        reconnectAttempt := 0;
      }
      Finish(i, Resolved);
    }

    method StartFails(i: nat)
      requires i < |tasks| && tasks[i].phase.AwaitStart? && tasks[i].phase.hub < |hubs|
      modifies this
      ensures Snapshot() == StartFailed(old(Snapshot()), i, old(tasks)[i].phase.hub) && run == old(run)
    {
      var hub := tasks[i].phase.hub;
      hubs := hubs[hub := hubs[hub].(startFailed := true)];
      if connection == Some(hub) {
        connection := None;
        currentUserId := None;
      }
      Finish(i, Rejected);
    }

    /** The onclose handler of hub connection c. */
    method OnClose(c: nat)
      requires Valid() && Enabled(Snapshot(), HubClosed(c))
      modifies this
      ensures Valid() && run == old(run) + [HubClosed(c)]
      ensures Snapshot() == Next(old(Snapshot()), HubClosed(c))
      ensures ClosesExactly(old(Snapshot()), Snapshot(), c)
    {
      CloseIsExact(run, c);
      GiveUp(c);
      Record(HubClosed(c));
    }

    method GiveUp(c: nat)
      requires c < |hubs|
      modifies this
      ensures Snapshot() == Close(old(Snapshot()), c) && run == old(run)
    {
      hubs := hubs[c := hubs[c].(closed := true, state := Disconnected)];
      if connection == Some(c) {
        connection := None;
        currentUserId := None;
        if !intentionalDisconnect && lastKnownUserId.Some? {
          ScheduleTimer();
        }
      }
    }

    /** scheduleReconnect(). */
    method ScheduleTimer()
      modifies this`armed, this`reconnectAttempt, this`reconnectTimer, this`nextTimer
      ensures Snapshot() == ScheduleReconnect(old(Snapshot()))
    {
      if reconnectTimer.Some? {
        armed := armed - {reconnectTimer.value};
      }
      if intentionalDisconnect || reconnectAttempt >= MAX_RECONNECTS {
        return;
      }
      if lastKnownUserId.None? || requestedUserId != lastKnownUserId {
        return;
      }
      reconnectAttempt := reconnectAttempt + 1;
      armed := armed[nextTimer := lastKnownUserId.value];
      reconnectTimer := Some(nextTimer);
      nextTimer := nextTimer + 1;
    }

    /** The timer callback, up to its await. */
    method OnTimer(timer: nat)
      requires Valid() && Enabled(Snapshot(), TimerFires(timer))
      modifies this
      ensures Valid() && run == old(run) + [TimerFires(timer)]
      ensures Snapshot() == Next(old(Snapshot()), TimerFires(timer))
      ensures old(requestedUserId) == Some(old(armed)[timer]) == LastRequest(run) && !old(intentionalDisconnect)
      ensures armed == map[] && connectionTransition == Some(|old(tasks)|)
      ensures tasks == old(tasks) + [Task(old(requestedUserId), ChainEnd(old(Snapshot())), true, Pending)]
      ensures Snapshot() == old(Snapshot()).(armed := armed, tasks := tasks, connectionTransition := connectionTransition)
    {
      TimerQueuesConnect(run, timer);
      Extended(run, TimerFires(timer));
      var user := armed[timer];
      armed := armed - {timer};
      if !intentionalDisconnect && requestedUserId == Some(user) {
        Chain(Some(user), true);
      }
      Record(TimerFires(timer));
    }

    /** The catch block of the timer callback. */
    method OnReconnectFailed()
      requires Valid() && Enabled(Snapshot(), RetryRuns)
      modifies this
      ensures Valid() && run == old(run) + [RetryRuns]
      ensures Snapshot() == Next(old(Snapshot()), RetryRuns)
      ensures retries == old(retries) - 1 && connection == old(connection) && tasks == old(tasks) && hubs == old(hubs)
      ensures requestedUserId == old(requestedUserId) && lastKnownUserId == old(lastKnownUserId)
      ensures if !intentionalDisconnect && old(reconnectAttempt) < 5
                 && requestedUserId.Some? && requestedUserId == lastKnownUserId
              then ArmsTimer(old(Snapshot()), Snapshot(), requestedUserId.value)
              else ArmsNothing(old(Snapshot()), Snapshot())
    {
      RetryArmsTimerExactly(run);
      RequestedIsLastRequest(run);
      retries := retries - 1;
      ScheduleTimer();
      Record(RetryRuns);
    }

    /** A realtime event of hub connection c: does it reach the listeners? Only on the connection held for the user of
        the last call. */
    method OnRealtimeEvent(c: nat) returns (delivered: bool)
      requires Valid() && c < |hubs|
      modifies this`run
      ensures Valid() && run == old(run) + [HubDelivers(c)] && Snapshot() == old(Snapshot())
      ensures delivered ==> connection == Some(c) && Some(hubs[c].owner) == currentUserId == LastRequest(run)
      ensures delivered <==> hubs[c].attached && IsActiveConnection(Snapshot(), c, hubs[c].owner)
    {
      RunKeepsInv(run);
      var owner := hubs[c].owner;
      delivered := hubs[c].attached
      && connection == Some(c) && currentUserId == Some(owner) && requestedUserId == Some(owner);
      RequestedIsLastRequest(run);
      Extended(run, HubDelivers(c));
      Record(HubDelivers(c));
    }

    /** What was sent is sent for the user of the last call, who is the current one. */
    ghost predicate SentForRequested(sent: seq<Output>, before: seq<Event>)
      reads this
    {
      forall out <- sent ::
        match out
        case RealtimeSend(u, h) =>
          Some(u) == LastRequest(before) == currentUserId && connection == Some(h) && h < |hubs| && hubs[h].owner == u
        case RestSend(u) => Some(u) == LastRequest(before) == currentUserId
        case _ => false
    }

    /** sendMessage(), refused for an invalid receiver or an empty text; else what goes out, if anything. */
    method SendMessage(receiverId: int, content: string) returns (refused: bool, sent: seq<Output>)
      requires Valid()
      modifies this`invocations, this`run
      ensures Valid() && (refused <==> receiverId <= 0 || IsBlank(content))
      ensures refused ==> Snapshot() == old(Snapshot()) && run == old(run) && sent == []
      ensures !refused ==> run == old(run) + [CallSend] && SentForRequested(sent, old(run))
      ensures !refused ==> (sent != [] <==> currentUserId.Some? && currentUserId == requestedUserId)
      ensures !refused && sent != [] ==>
                if connection.Some? && connection.value < |hubs| && hubs[connection.value].state == Connected
                then sent == [RealtimeSend(currentUserId.value, connection.value)]
                     && invocations == old(invocations) + [Invocation(currentUserId.value, connection.value)]
                else sent == [RestSend(currentUserId.value)] && invocations == old(invocations)
    {
      if receiverId <= 0 || IsBlank(content) {
        return true, [];
      }
      CallsAreEnabled(run, CallSend);
      RunKeepsInv(run);
      RequestedIsLastRequest(run);
      refused, sent := false, [];
      if currentUserId.Some? && currentUserId == requestedUserId {
        var sendingUserId := currentUserId.value;
        if connection.None? || !hubs[connection.value].state.Connected? {
          sent := [RestSend(sendingUserId)];
        } else {
          invocations := invocations + [Invocation(sendingUserId, connection.value)];
          sent := [RealtimeSend(sendingUserId, connection.value)];
        }
      }
      Record(CallSend);
    }

    /** What follows `await this.connection.invoke(...)`, and its catch block. */
    method AfterInvoke(k: nat, ok: bool) returns (sent: seq<Output>)
      requires Valid() && k < |invocations|
      modifies this`invocations, this`run
      ensures Valid() && run == old(run) + [InvokeDone(k, ok)] && SentForRequested(sent, old(run))
      ensures invocations == old(invocations)[..k] + old(invocations)[k + 1..]
      ensures sent == if ok || Some(old(invocations)[k].user) != currentUserId || currentUserId != requestedUserId then []
                      else [RestSend(old(invocations)[k].user)]
    {
      RunKeepsInv(run);
      RequestedIsLastRequest(run);
      var sendingUserId := invocations[k].user;
      invocations := invocations[..k] + invocations[k + 1..];
      sent := [];
      if !ok && currentUserId == Some(sendingUserId) && requestedUserId == Some(sendingUserId) {
        sent := [RestSend(sendingUserId)];
      }
      Record(InvokeDone(k, ok));
    }

    /** What every user of the object may rely on between its handlers: the held connection is the current user's, every
        other one was let go, at most one reconnect timer is live, for the user of the last call, and the user, the
        connection and the timer are gone once a disconnect has drained. */
    lemma Holds()
      requires Valid()
      ensures connection.None? <==> currentUserId.None?
      ensures connection.Some? ==> connection.value < |hubs| && currentUserId == Some(hubs[connection.value].owner)
      ensures forall c :: 0 <= c < |hubs| && connection != Some(c) ==> Released(hubs[c])
      ensures forall h <- armed :: reconnectTimer == Some(h) && Some(armed[h]) == LastRequest(run)
      ensures requestedUserId == LastRequest(run)
      ensures Quiet(Snapshot()) && LastRequest(run) == None ==> connection == None && currentUserId == None && armed == map[]
    {
      RunKeepsInv(run);
      RequestedIsLastRequest(run);
      HeldConnectionIsCurrentUsers(run);
      if Quiet(Snapshot()) && LastRequest(run) == None { DrainedAfterDisconnect(run); }
    }
  }
}
