/** Sign-ins that race to link one subject: which of them come through, and exactly when one fails over its link. */
module GoogleLinking {
  import opened Wrappers
  import opened Text
  import opened GoogleSignIn

  /** The failure of a sign-in that could not secure its link. */
  const LOST := Failed(PersistenceFailed)

  /** The account a linking call is about is there for its user. */
  predicate OnPath(s: Store, call: Call) {
    match call
    case Linking(_, id, _) => Visible(s, id)
    case CheckingUser(_, id, _) => Visible(s, id)
    case InsertingLink(_, id, _) => Visible(s, id)
    case AfterConflict(_, id, _) => Visible(s, id)
    case LoadingLinked(_, id) => Visible(s, id)
    case Building(_, _, _) => true
    case Succeeded(_, _, _) => true
    case Failed(_) => true
    case _ => false
  }

  /** Where the call stands among the calls: it works on the subject, whose link nobody removes. */
  predicate Ready(w: World, i: nat, subject: string) {
    && OneToOne(w.store) && Steady(w, subject)
    && i in w.calls && OnPath(w.store, w.calls[i]) && (!w.calls[i].Failed? ==> w.calls[i].subject == subject)
  }

  /** No account is deleted, and no foreign key fails for the call itself. */
  predicate Gentle(es: seq<Event>, i: nat) {
    forall e <- es :: !Deletes(e) && (e.Advance? && e.id == i ==> !e.answer.keyFails)
  }

  lemma StepOnPath(s: Store, call: Call, a: Answer)
    requires OnPath(s, call) && Honest(s, call, a) && (!call.Failed? ==> Standing(s, call.subject))
    ensures var next := Continue(s, call, a);
            OnPath(Changed(s, call, a), next) && (!next.Failed? ==> !call.Failed? && next.subject == call.subject)
  {}

  lemma ReadyStays(w: World, e: Event, i: nat, subject: string)
    requires Ready(w, i, subject) && Enabled(w, e) && !Deletes(e)
    ensures Ready(Next(w, e), i, subject) && !Unlinks(w, e, subject)
  {
    EventKeepsOneToOne(w, e);
    EventKeepsSteady(w, e, subject);
    if e.Advance? && e.id == i { StepOnPath(w.store, w.calls[i], e.answer); }
  }

  // ---- exactly when a call is lost ----

  /** The step at which a call is lost: the account has a link when the call looks for one, whosever subject that is; or
      the insert was refused, and the subject has no link when the call looks again. */
  predicate Trips(s: Store, call: Call) {
    match call
    case CheckingUser(_, id, _) => UserLinked(s, id)
    case AfterConflict(subject, _, _) => !SubjectLinked(s, subject)
    case _ => false
  }

  /** Some own step of the call in the run trips. */
  predicate Tripped(w: World, es: seq<Event>, i: nat)
    requires ValidRun(w, es)
    decreases es
  {
    && es != []
    && (|| (es[0].Advance? && es[0].id == i && Trips(w.store, w.calls[i]))
        || Tripped(Next(w, es[0]), es[1..], i))
  }

  lemma StepLoses(s: Store, call: Call, a: Answer)
    requires OnPath(s, call) && Honest(s, call, a)
    ensures Continue(s, call, a) == LOST <==> call == LOST || Trips(s, call)
  {}

  /** In every run in which no account is deleted, a linking call is lost exactly when one of its own steps trips. */
  lemma {:induction false} LostExactly(w: World, es: seq<Event>, i: nat, subject: string)
    requires Ready(w, i, subject) && ValidRun(w, es) && forall e <- es :: !Deletes(e)
    ensures i in After(w, es).calls
    ensures After(w, es).calls[i] == LOST <==> w.calls[i] == LOST || Tripped(w, es, i)
    decreases es
  {
    if es != [] {
      assert es[0] in es;
      ReadyStays(w, es[0], i, subject);
      LostExactly(Next(w, es[0]), es[1..], i, subject);
      if es[0].Advance? && es[0].id == i { StepLoses(w.store, w.calls[i], es[0].answer); }
    }
  }

  // ---- without a rival every call comes through ----

  /** The event links the account to a subject. */
  predicate LinksAccount(w: World, e: Event, id: int) {
    e.Advance? && e.id in w.calls && w.calls[e.id].InsertingLink? && w.calls[e.id].id == id
    && !LinkRefused(w.store, id, w.calls[e.id].subject, e.answer)
  }

  /** No other call links the account in the run. */
  predicate NoRival(w: World, es: seq<Event>, i: nat, id: int)
    requires ValidRun(w, es)
    decreases es
  {
    es != [] ==> (LinksAccount(w, es[0], id) ==> es[0].id == i) && NoRival(Next(w, es[0]), es[1..], i, id)
  }

  /** The account that the call still wants to link. */
  predicate Wants(call: Call, id: int) {
    call.Linking? || call.CheckingUser? || call.InsertingLink? ==> call.id == id
  }

  predicate RejectedAccount(call: Call) {
    call == Failed(AccountLocked) || call == Failed(UserDeleted) || call == Failed(UserInactive)
    || call == Failed(RoleResolutionFailed)
  }

  /** The call comes through from here: its account is free, or its subject is linked. */
  ghost predicate Underway(s: Store, call: Call) {
    match call
    case Linking(g, id, _) => SubjectLinked(s, g) || !UserLinked(s, id)
    case CheckingUser(_, id, _) => !UserLinked(s, id)
    case InsertingLink(_, id, _) => !UserLinked(s, id)
    case AfterConflict(g, _, _) => SubjectLinked(s, g)
    case LoadingLinked(g, id) => MapsTo(s, g, id)
    case _ => Arrived(s, call)
  }

  /** The link is settled: the call goes on with the user that the store maps its subject to, or was turned down for the
      account itself. */
  ghost predicate Arrived(s: Store, call: Call) {
    match call
    case Building(g, id, _) => MapsTo(s, g, id)
    case Succeeded(g, id, _) => MapsTo(s, g, id)
    case _ => RejectedAccount(call)
  }

  function LinkSteps(call: Call): nat {
    match call
    case Linking(_, _, _) => 5
    case CheckingUser(_, _, _) => 4
    case InsertingLink(_, _, _) => 3
    case AfterConflict(_, _, _) => 2
    case LoadingLinked(_, _) => 1
    case _ => 0
  }

  function OwnSteps(es: seq<Event>, i: nat): nat {
    if es == [] then 0 else (if es[0].Advance? && es[0].id == i then 1 else 0) + OwnSteps(es[1..], i)
  }

  lemma StepUnderway(s: Store, call: Call, a: Answer, id: int)
    requires OnPath(s, call) && Underway(s, call) && Wants(call, id) && Honest(s, call, a) && !a.keyFails
    ensures var next := Continue(s, call, a);
            && Underway(Changed(s, call, a), next) && Wants(next, id)
            && (LinkSteps(call) > 0 ==> LinkSteps(next) < LinkSteps(call))
            && (LinkSteps(call) == 0 ==> LinkSteps(next) == 0)
  {
    if (call.Linking? || call.AfterConflict?) && a.row.Some? {
      assert s.links[a.row.value] == Link(s.links[a.row.value].user, call.subject);
    } else if call.InsertingLink? && Continue(s, call, a).Building? {
      assert Changed(s, call, a).links[a.newId] == Link(call.id, call.subject);
    }
  }

  lemma LinksGrow(w: World, e: Event, subject: string)
    requires OneToOne(w.store) && Enabled(w, e) && !Unlinks(w, e, subject) && SubjectLinked(w.store, subject)
    ensures SubjectLinked(Next(w, e).store, subject)
  {
    var r :| r in w.store.links && w.store.links[r].subject == subject;
    assert r in Next(w, e).store.links && Next(w, e).store.links[r] == w.store.links[r];
  }

  lemma StaysFree(w: World, e: Event, id: int)
    requires Enabled(w, e) && !LinksAccount(w, e, id) && !UserLinked(w.store, id)
    ensures !UserLinked(Next(w, e).store, id)
  {}

  lemma OthersKeepUnderway(w: World, e: Event, i: nat, subject: string, id: int)
    requires Ready(w, i, subject) && Enabled(w, e) && Underway(w.store, w.calls[i]) && Wants(w.calls[i], id)
    requires !Unlinks(w, e, subject) && !LinksAccount(w, e, id)
    ensures Underway(Next(w, e).store, w.calls[i])
  {
    var call := w.calls[i];
    if SubjectLinked(w.store, subject) { LinksGrow(w, e, subject); }
    if !UserLinked(w.store, id) { StaysFree(w, e, id); }
    if (call.LoadingLinked? || call.Building? || call.Succeeded?) { MappingKept(w, e, subject, call.id); }
  }

  lemma EventKeepsUnderway(w: World, e: Event, i: nat, subject: string, id: int)
    requires Ready(w, i, subject) && Enabled(w, e) && Underway(w.store, w.calls[i]) && Wants(w.calls[i], id)
    requires Gentle([e], i) && (LinksAccount(w, e, id) ==> e.id == i)
    ensures var v := Next(w, e);
            && Ready(v, i, subject) && Underway(v.store, v.calls[i]) && Wants(v.calls[i], id)
            && LinkSteps(v.calls[i]) + (if e.Advance? && e.id == i then 1 else 0) <=
               (if LinkSteps(w.calls[i]) > 0 then LinkSteps(w.calls[i]) else 1)
  {
    assert e in [e];
    ReadyStays(w, e, i, subject);
    if e.Advance? && e.id == i {
      StepUnderway(w.store, w.calls[i], e.answer, id);
    } else {
      OthersKeepUnderway(w, e, i, subject, id);
    }
  }

  /** However sign-ins interleave, a linking call whose account is free, or whose subject is linked, comes through after
      its own remaining steps, while no account is deleted, no foreign key fails for it and nobody else links that
      account: it has then settled on the user that the store maps its subject to. Losing the race for the subject
      costs only the load of the other user. */
  lemma {:induction false} LinkGoesThrough(w: World, es: seq<Event>, i: nat, subject: string, id: int)
    requires Ready(w, i, subject) && Underway(w.store, w.calls[i]) && Wants(w.calls[i], id)
    requires ValidRun(w, es) && Gentle(es, i) && NoRival(w, es, i, id)
    ensures i in After(w, es).calls && Underway(After(w, es).store, After(w, es).calls[i])
    ensures OwnSteps(es, i) >= LinkSteps(w.calls[i]) ==> Arrived(After(w, es).store, After(w, es).calls[i])
    decreases es
  {
    if es != [] {
      assert es[0] in es;
      EventKeepsUnderway(w, es[0], i, subject, id);
      LinkGoesThrough(Next(w, es[0]), es[1..], i, subject, id);
    }
  }

  /** Two sign-ins race to link one subject, each to an account of its own that nobody else links: both come through, and
      to the same user. */
  lemma RacingLinksResolve(w: World, es: seq<Event>, i: nat, j: nat, subject: string, a: int, b: int)
    requires Ready(w, i, subject) && w.calls[i].Linking? && w.calls[i].id == a && !UserLinked(w.store, a)
    requires Ready(w, j, subject) && w.calls[j].Linking? && w.calls[j].id == b && !UserLinked(w.store, b)
    requires ValidRun(w, es) && Gentle(es, i) && Gentle(es, j) && NoRival(w, es, i, a) && NoRival(w, es, j, b)
    requires OwnSteps(es, i) >= 5 && OwnSteps(es, j) >= 5
    ensures var v := After(w, es);
            && i in v.calls && Arrived(v.store, v.calls[i]) && j in v.calls && Arrived(v.store, v.calls[j])
            && (!v.calls[i].Failed? && !v.calls[j].Failed? ==>
                  && v.calls[i].id == v.calls[j].id
                  && MapsTo(v.store, subject, v.calls[i].id))
  {
    LinkGoesThrough(w, es, i, subject, a);
    LinkGoesThrough(w, es, j, subject, b);
    StaysReady(w, es, i, subject);
    StaysReady(w, es, j, subject);
  }

  lemma {:induction false} StaysReady(w: World, es: seq<Event>, i: nat, subject: string)
    requires Ready(w, i, subject) && ValidRun(w, es) && forall e <- es :: !Deletes(e)
    ensures Ready(After(w, es), i, subject)
    decreases es
  {
    if es != [] {
      assert es[0] in es;
      ReadyStays(w, es[0], i, subject);
      StaysReady(Next(w, es[0]), es[1..], i, subject);
    }
  }

  // ---- a rival for the account ----

  function At(w: World, i: nat, call: Call): World {
    w.(calls := w.calls[i := call])
  }

  function Linked(s: Store, id: int, subject: string): Store {
    s.(links := s.links[s.nextRow := Link(id, subject)], nextRow := s.nextRow + 1)
  }

  lemma RunStep(w: World, e: Event, v: World, rest: seq<Event>)
    requires Enabled(w, e) && Next(w, e) == v && ValidRun(v, rest)
    ensures ValidRun(w, [e] + rest) && After(w, [e] + rest) == After(v, rest)
  {
    assert ([e] + rest)[1..] == rest;
  }

  lemma {:induction false} RunOn(w: World, first: seq<Event>, rest: seq<Event>)
    requires ValidRun(w, first) && ValidRun(After(w, first), rest)
    ensures ValidRun(w, first + rest) && After(w, first + rest) == After(After(w, first), rest)
    decreases first
  {
    if first == [] {
      assert first + rest == rest;
    } else {
      RunOn(Next(w, first[0]), first[1..], rest);
      assert first + rest == [first[0]] + (first[1..] + rest);
      RunStep(w, first[0], Next(w, first[0]), first[1..] + rest);
    }
  }

  lemma BothCheck(w: World, i: nat, j: nat, subject: string, id: int, mine: User, yours: User)
    requires i in w.calls && j in w.calls && i != j && id >= 1 && !SubjectLinked(w.store, subject)
    requires w.calls[i] == Linking(subject, id, mine) && w.calls[j] == Linking(subject, id, yours)
    ensures var es := [Advance(i, QUIET), Advance(j, QUIET)];
            ValidRun(w, es) && After(w, es) == At(At(w, i, CheckingUser(subject, id, mine)), j, CheckingUser(subject, id, yours))
  {
    var v := At(w, i, CheckingUser(subject, id, mine));
    RunStep(v, Advance(j, QUIET), At(v, j, CheckingUser(subject, id, yours)), []);
    RunStep(w, Advance(i, QUIET), v, [Advance(j, QUIET)]);
  }

  lemma OneInserts(w: World, i: nat, j: nat, subject: string, id: int, mine: User, yours: User)
    requires i in w.calls && j in w.calls && i != j && id in w.store.users
    requires !SubjectLinked(w.store, subject) && !UserLinked(w.store, id)
    requires w.calls[i] == CheckingUser(subject, id, mine) && w.calls[j] == CheckingUser(subject, id, yours)
    ensures var es := [Advance(i, QUIET), Advance(i, QUIET.(newId := w.store.nextRow)), Advance(j, QUIET)];
            && ValidRun(w, es)
            && After(w, es) == At(At(w, i, Building(subject, id, mine)), j, LOST).(store := Linked(w.store, id, subject))
  {
    var insert := Advance(i, QUIET.(newId := w.store.nextRow));
    var w1 := At(w, i, InsertingLink(subject, id, mine));
    var w2 := At(w, i, Building(subject, id, mine)).(store := Linked(w.store, id, subject));
    assert w2.store.links[w.store.nextRow].user == id;
    RunStep(w2, Advance(j, QUIET), At(w2, j, LOST), []);
    RunStep(w1, insert, w2, [Advance(j, QUIET)]);
    RunStep(w, Advance(i, QUIET), w1, [insert, Advance(j, QUIET)]);
  }

  /** A sign-in sent twice loses one of its two calls: from every state in which both set out to link one subject to the
      same account, both free, there is a run in which the one links it between the searches of the other, which fails
      although its subject is linked to its account. */
  lemma SameAccountLoserFails(w: World, i: nat, j: nat, subject: string, id: int, mine: User, yours: User)
    requires i in w.calls && j in w.calls && i != j && id >= 1 && id in w.store.users
    requires !SubjectLinked(w.store, subject) && !UserLinked(w.store, id)
    requires w.calls[i] == Linking(subject, id, mine) && w.calls[j] == Linking(subject, id, yours)
    ensures var es := [Advance(i, QUIET), Advance(j, QUIET)]
                      + [Advance(i, QUIET), Advance(i, QUIET.(newId := w.store.nextRow)), Advance(j, QUIET)];
            && ValidRun(w, es) && Gentle(es, i) && Gentle(es, j)
            && var v := After(w, es);
               && i in v.calls && v.calls[i] == Building(subject, id, mine) && j in v.calls && v.calls[j] == LOST
               && MapsTo(v.store, subject, id)
  {
    var first := [Advance(i, QUIET), Advance(j, QUIET)];
    var rest := [Advance(i, QUIET), Advance(i, QUIET.(newId := w.store.nextRow)), Advance(j, QUIET)];
    BothCheck(w, i, j, subject, id, mine, yours);
    OneInserts(After(w, first), i, j, subject, id, mine, yours);
    RunOn(w, first, rest);
    assert Linked(w.store, id, subject).links[w.store.nextRow] == Link(id, subject);
  }

  // ---- exactly which linking calls are safe ----

  /** In no run without deletions and without failing foreign keys is the call lost. */
  ghost predicate NeverLost(w: World, i: nat) {
    forall es: seq<Event> :: ValidRun(w, es) && Gentle(es, i) && i in After(w, es).calls ==> After(w, es).calls[i] != LOST
  }

  /** While the subject stays linked, no step of its calls on the way to the link trips. */
  ghost predicate Safe(s: Store, call: Call) {
    match call
    case Linking(g, _, _) => SubjectLinked(s, g)
    case CheckingUser(_, _, _) => false
    case InsertingLink(_, _, _) => false
    case AfterConflict(g, _, _) => SubjectLinked(s, g)
    case Failed(r) => r != PersistenceFailed
    case _ => true
  }

  lemma EventKeepsSafe(w: World, e: Event, i: nat, subject: string)
    requires Ready(w, i, subject) && Safe(w.store, w.calls[i]) && Enabled(w, e) && !Deletes(e)
    ensures Ready(Next(w, e), i, subject) && Safe(Next(w, e).store, Next(w, e).calls[i])
  {
    ReadyStays(w, e, i, subject);
    if SubjectLinked(w.store, subject) { LinksGrow(w, e, subject); }
  }

  lemma {:induction false} SafeIsNeverLost(w: World, es: seq<Event>, i: nat, subject: string)
    requires Ready(w, i, subject) && Safe(w.store, w.calls[i]) && ValidRun(w, es) && Gentle(es, i)
    ensures i in After(w, es).calls && After(w, es).calls[i] != LOST
    decreases es
  {
    if es != [] {
      assert es[0] in es;
      EventKeepsSafe(w, es[0], i, subject);
      SafeIsNeverLost(Next(w, es[0]), es[1..], i, subject);
    }
  }

  lemma TakenAccountLoses(w: World, i: nat, subject: string, id: int, user: User) returns (es: seq<Event>)
    requires i in w.calls && w.calls[i] == Linking(subject, id, user) && id >= 1
    requires !SubjectLinked(w.store, subject) && UserLinked(w.store, id)
    ensures ValidRun(w, es) && Gentle(es, i) && i in After(w, es).calls && After(w, es).calls[i] == LOST
  {
    var v := At(w, i, CheckingUser(subject, id, user));
    es := [Advance(i, QUIET), Advance(i, QUIET)];
    RunStep(v, Advance(i, QUIET), At(v, i, LOST), []);
    RunStep(w, Advance(i, QUIET), v, [Advance(i, QUIET)]);
  }

  /** Another sign-in with the subject and the e-mail of an account comes to where it sets out to link the two. */
  lemma TwinArrives(w: World, j: nat, subject: string, id: int)
    requires j !in w.calls && Present(w.store, id) && !SubjectLinked(w.store, subject)
    requires Trim(subject) == subject && !IsBlank(subject) && !IsBlank(w.store.users[id].email)
    ensures var email := w.store.users[id].email;
            var es := [Begin(j, Some(email), subject), Advance(j, QUIET), Advance(j, QUIET.(matched := Some(id)))];
            ValidRun(w, es) && After(w, es) == At(w, j, Linking(subject, id, w.store.users[id]))
  {
    var user, found := w.store.users[id], Advance(j, QUIET.(matched := Some(id)));
    var w1, w2, w3 := At(w, j, Looking(subject, user.email)), At(w, j, Matching(subject, user.email)),
                      At(w, j, Linking(subject, id, user));
    RunStep(w2, found, w3, []);
    RunStep(w1, Advance(j, QUIET), w2, [found]);
    RunStep(w, Begin(j, Some(user.email), subject), w1, [Advance(j, QUIET), found]);
  }

  lemma TwinTakesAccount(w: World, i: nat, j: nat, subject: string, id: int, user: User) returns (es: seq<Event>)
    requires i in w.calls && w.calls[i] == Linking(subject, id, user) && Visible(w.store, id) && j !in w.calls
    requires !SubjectLinked(w.store, subject) && !UserLinked(w.store, id)
    requires Trim(subject) == subject && !IsBlank(subject) && !IsBlank(w.store.users[id].email)
    ensures ValidRun(w, es) && Gentle(es, i) && i in After(w, es).calls && After(w, es).calls[i] == LOST
  {
    var own := w.store.users[id];
    var first := [Begin(j, Some(own.email), subject), Advance(j, QUIET), Advance(j, QUIET.(matched := Some(id)))];
    TwinArrives(w, j, subject, id);
    var v := After(w, first);
    var rest := [Advance(j, QUIET), Advance(i, QUIET)]
                + [Advance(j, QUIET), Advance(j, QUIET.(newId := v.store.nextRow)), Advance(i, QUIET)];
    SameAccountLoserFails(v, j, i, subject, id, own, user);
    RunOn(w, first, rest);
    es := first + rest;
  }

  /** A call that sets out to link its subject to an account comes through in every run, whatever other sign-ins do,
      exactly when the subject is linked already; otherwise a second sign-in with the same subject and the account's
      e-mail, or the account's own link to another subject, makes it fail. */
  lemma LinkingIsSafeExactly(w: World, i: nat, j: nat, subject: string, id: int, user: User)
    requires Ready(w, i, subject) && w.calls[i] == Linking(subject, id, user) && j !in w.calls
    requires Trim(subject) == subject && !IsBlank(subject) && !IsBlank(w.store.users[id].email)
    ensures NeverLost(w, i) <==> SubjectLinked(w.store, subject)
  {
    if SubjectLinked(w.store, subject) {
      forall es: seq<Event> | ValidRun(w, es) && Gentle(es, i) && i in After(w, es).calls
        ensures After(w, es).calls[i] != LOST
      {
        SafeIsNeverLost(w, es, i, subject);
      }
    } else {
      var es;
      if UserLinked(w.store, id) {
        es := TakenAccountLoses(w, i, subject, id, user);
      } else {
        es := TwinTakesAccount(w, i, j, subject, id, user);
      }
      assert After(w, es).calls[i] == LOST;
    }
  }

  /** Who is to blame: a linking call with its own foreign keys in order is lost only if the account was linked to another
      subject from the start, or some other call linked it in the run. */
  lemma LostOnlyToRival(w: World, es: seq<Event>, i: nat, subject: string)
    requires Ready(w, i, subject) && w.calls[i].Linking? && ValidRun(w, es) && Gentle(es, i)
    requires i in After(w, es).calls && After(w, es).calls[i] == LOST
    ensures !NoRival(w, es, i, w.calls[i].id) || (UserLinked(w.store, w.calls[i].id) && !SubjectLinked(w.store, subject))
  {
    if NoRival(w, es, i, w.calls[i].id) && Underway(w.store, w.calls[i]) {
      LinkGoesThrough(w, es, i, subject, w.calls[i].id);
    }
  }

  // ---- every run leads to such states ----

  /** Identities of users are positive. */
  predicate Positive(s: Store) {
    forall id :: id in s.users ==> id >= 1
  }

  lemma {:induction false} RunIsSteady(w: World, es: seq<Event>, subject: string)
    requires OneToOne(w.store) && Positive(w.store) && Steady(w, subject)
    requires ValidRun(w, es) && forall e <- es :: !Deletes(e)
    ensures OneToOne(After(w, es).store) && Positive(After(w, es).store) && Steady(After(w, es), subject)
    decreases es
  {
    if es != [] {
      assert es[0] in es;
      EventKeepsOneToOne(w, es[0]);
      EventKeepsSteady(w, es[0], subject);
      RunIsSteady(Next(w, es[0]), es[1..], subject);
    }
  }

  /** In every run from a store that does not link the subject to a deleted account, and in which no account is deleted,
      every call of the subject that sets out to link is as the lemmas above take it. */
  lemma LinkingIsReady(s: Store, es: seq<Event>, subject: string, i: nat)
    requires OneToOne(s) && Positive(s) && Standing(s, subject) && ValidRun(World(s, map[]), es)
    requires forall e <- es :: !Deletes(e)
    requires var v := After(World(s, map[]), es); i in v.calls && v.calls[i].Linking? && v.calls[i].subject == subject
    ensures Ready(After(World(s, map[]), es), i, subject)
  {
    RunIsSteady(World(s, map[]), es, subject);
    assert CallStands(After(World(s, map[]), es).store, After(World(s, map[]), es).calls[i], subject);
  }
}
