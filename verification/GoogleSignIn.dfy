/** Signing in with Google: calls that look a subject up, find or create its user and link the two, cut at every
    database round trip and interleaved with each other and with changes of the accounts. */
module GoogleSignIn {
  import opened Wrappers
  import opened Text

  const ACTIVE := 1

  datatype User = User(email: string, deleted: bool, status: int, suspendedUntil: Option<int>)

  datatype Link = Link(user: int, subject: string)

  /** The tables; identities of links from `nextRow` on have not been given out yet. */
  datatype Store = Store(users: map<int, User>, links: map<int, Link>, nextRow: int)

  datatype Failure =
    | InvalidRequest | PersistenceFailed | AccountLocked | UserDeleted | UserInactive | RoleResolutionFailed
    | Refused | Thrown

  datatype SignupOutcome = Created | CreatedWithoutRole | Duplicate | NotCreated

  /** Where a sign-in stands. The four linking states hold the account it wants to link, as it was loaded. */
  datatype Call =
    | Looking(subject: string, email: string)
    | Loading(subject: string, email: string, linked: int)
    | Unlinking(subject: string, email: string)
    | Removing(subject: string, email: string, row: int)
    | Matching(subject: string, email: string)
    | SigningUp(subject: string, email: string)
    | MatchingAgain(subject: string, email: string)
    | Linking(subject: string, id: int, user: User)
    | CheckingUser(subject: string, id: int, user: User)
    | InsertingLink(subject: string, id: int, user: User)
    | AfterConflict(subject: string, id: int, user: User)
    | LoadingLinked(subject: string, id: int)
    | Building(subject: string, id: int, user: User)
    | Succeeded(subject: string, id: int, user: User)
    | Failed(reason: Failure)

  datatype Answer = Answer(row: Option<int>, matched: Option<int>, newId: int, signup: SignupOutcome, keyFails: bool,
                           locked: bool, hasRole: bool, now: int)

  /** Nothing found, nothing failed. */
  const QUIET := Answer(None, None, 0, NotCreated, false, false, true, 0)

  // ---- what the queries may answer ----

  predicate SubjectRow(s: Store, subject: string, row: Option<int>) {
    match row
    case Some(r) => r in s.links && s.links[r].subject == subject
    case None => forall r :: r in s.links ==> s.links[r].subject != subject
  }

  predicate EmailMatch(s: Store, email: string, found: Option<int>) {
    match found
    case Some(id) => id in s.users && s.users[id].email == email && !s.users[id].deleted
    case None => forall id :: id in s.users ==> s.users[id].email != email || s.users[id].deleted
  }

  predicate Honest(s: Store, call: Call, a: Answer) {
    match call
    case Looking(subject, _) => SubjectRow(s, subject, a.row)
    case Unlinking(subject, _) => SubjectRow(s, subject, a.row)
    case Linking(subject, _, _) => SubjectRow(s, subject, a.row)
    case AfterConflict(subject, _, _) => SubjectRow(s, subject, a.row)
    case Matching(_, email) => EmailMatch(s, email, a.matched)
    case MatchingAgain(_, email) => EmailMatch(s, email, a.matched)
    case SigningUp(_, _) => a.newId >= 1 && a.newId !in s.users
    case InsertingLink(_, _, _) => a.newId >= s.nextRow
    case _ => true
  }

  predicate UserLinked(s: Store, id: int) {
    exists r :: r in s.links && s.links[r].user == id
  }

  predicate SubjectLinked(s: Store, subject: string) {
    exists r :: r in s.links && s.links[r].subject == subject
  }

  /** The two unique constraints and the foreign key. */
  predicate LinkRefused(s: Store, id: int, subject: string, a: Answer) {
    a.keyFails || id !in s.users || UserLinked(s, id) || SubjectLinked(s, subject)
  }

  // ---- steps ----

  function Start(email: Option<string>, subject: string): Call {
    if email.None? || IsBlank(email.value) then Failed(InvalidRequest)
    else if IsBlank(Trim(subject)) then Failed(InvalidRequest)
    else Looking(Trim(subject), email.value)
  }

  predicate Visible(s: Store, id: int) {
    id >= 1 && id in s.users && !s.users[id].deleted
  }

  predicate Acceptable(user: User, now: int) {
    !user.deleted && user.status == ACTIVE && !(user.suspendedUntil.Some? && user.suspendedUntil.value > now)
  }

  /** The lockout, the state of the account as loaded, and its role. */
  function Build(subject: string, id: int, user: User, a: Answer): Call {
    if a.locked then Failed(AccountLocked)
    else if user.deleted then Failed(UserDeleted)
    else if user.status != ACTIVE then Failed(UserInactive)
    else if user.suspendedUntil.Some? && user.suspendedUntil.value > a.now then Failed(UserInactive)
    else if !a.hasRole then Failed(RoleResolutionFailed)
    else Succeeded(subject, id, user)
  }

  /** The subject turned out to be linked: to the account wanted, or to another one, which is then loaded. */
  function Resolve(s: Store, subject: string, id: int, user: User, row: int): Call
    requires row in s.links
  {
    if s.links[row].user == id then Building(subject, id, user) else LoadingLinked(subject, s.links[row].user)
  }

  const NEW_USER_STATUS := ACTIVE

  function NewUser(email: string): User {
    User(email, false, NEW_USER_STATUS, None)
  }

  function Continue(s: Store, call: Call, a: Answer): Call
    requires Honest(s, call, a)
  {
    match call
    case Looking(subject, email) =>
      if a.row.Some? then Loading(subject, email, s.links[a.row.value].user) else Matching(subject, email)
    case Loading(subject, email, linked) =>
      if Visible(s, linked) then Building(subject, linked, s.users[linked]) else Unlinking(subject, email)
    case Unlinking(subject, email) =>
      if a.row.Some? then Removing(subject, email, a.row.value) else Matching(subject, email)
    case Removing(subject, email, row) => if row in s.links then Matching(subject, email) else Failed(Thrown)
    case Matching(subject, email) =>
      if a.matched.Some? then Linking(subject, a.matched.value, s.users[a.matched.value]) else SigningUp(subject, email)
    case SigningUp(subject, email) =>
      (match a.signup
       case Created => Linking(subject, a.newId, NewUser(email))
       case CreatedWithoutRole => Failed(Refused)
       case Duplicate => MatchingAgain(subject, email)
       case NotCreated => Failed(Refused))
    case MatchingAgain(subject, email) =>
      if a.matched.Some? && s.users[a.matched.value].status == ACTIVE
      then Linking(subject, a.matched.value, s.users[a.matched.value])
      else Failed(Refused)
    case Linking(subject, id, user) =>
      if id < 1 then Failed(InvalidRequest)
      else if a.row.Some? then Resolve(s, subject, id, user, a.row.value) else CheckingUser(subject, id, user)
    case CheckingUser(subject, id, user) =>
      if UserLinked(s, id) then Failed(PersistenceFailed) else InsertingLink(subject, id, user)
    case InsertingLink(subject, id, user) =>
      if LinkRefused(s, id, subject, a) then AfterConflict(subject, id, user) else Building(subject, id, user)
    case AfterConflict(subject, id, user) =>
      if a.row.Some? then Resolve(s, subject, id, user, a.row.value) else Failed(PersistenceFailed)
    case LoadingLinked(subject, id) =>
      if Visible(s, id) then Building(subject, id, s.users[id]) else Failed(PersistenceFailed)
    case Building(subject, id, user) => Build(subject, id, user, a)
    case _ => call
  }

  function Changed(s: Store, call: Call, a: Answer): Store {
    match call
    case Removing(_, _, row) => s.(links := s.links - {row})
    case SigningUp(_, email) =>
      if a.signup == Created || a.signup == CreatedWithoutRole then s.(users := s.users[a.newId := NewUser(email)]) else s
    case InsertingLink(subject, id, _) =>
      if LinkRefused(s, id, subject, a) then s else s.(links := s.links[a.newId := Link(id, subject)], nextRow := a.newId + 1)
    case _ => s
  }

  // ---- the machine ----

  datatype World = World(store: Store, calls: map<nat, Call>)

  datatype Event =
    | Begin(id: nat, email: Option<string>, subject: string)
    | Advance(id: nat, answer: Answer)
    | ChangeUser(user: int, row: User)

  predicate Enabled(w: World, e: Event) {
    match e
    case Begin(id, _, _) => id !in w.calls
    case Advance(id, a) => id in w.calls && Honest(w.store, w.calls[id], a)
    case ChangeUser(user, _) => user in w.store.users
  }

  function Next(w: World, e: Event): World
    requires Enabled(w, e)
  {
    match e
    case Begin(id, email, subject) => w.(calls := w.calls[id := Start(email, subject)])
    case Advance(id, a) =>
      World(Changed(w.store, w.calls[id], a), w.calls[id := Continue(w.store, w.calls[id], a)])
    case ChangeUser(user, row) => w.(store := w.store.(users := w.store.users[user := row]))
  }

  predicate ValidRun(w: World, es: seq<Event>)
    decreases es
  {
    es != [] ==> Enabled(w, es[0]) && ValidRun(Next(w, es[0]), es[1..])
  }

  function After(w: World, es: seq<Event>): World
    requires ValidRun(w, es)
    decreases es
  {
    if es == [] then w else After(Next(w, es[0]), es[1..])
  }

  // ---- the links are one to one ----

  predicate OneToOne(s: Store) {
    && (forall i, j :: i in s.links && j in s.links && s.links[i].subject == s.links[j].subject ==> i == j)
    && (forall i, j :: i in s.links && j in s.links && s.links[i].user == s.links[j].user ==> i == j)
    && (forall i :: i in s.links ==> s.links[i].user in s.users && i < s.nextRow)
  }

  lemma EventKeepsOneToOne(w: World, e: Event)
    requires OneToOne(w.store) && Enabled(w, e)
    ensures OneToOne(Next(w, e).store)
  {
    if e.Advance? && w.calls[e.id].InsertingLink? {
      var s, call := w.store, w.calls[e.id];
      if !LinkRefused(s, call.id, call.subject, e.answer) {
        assert forall r :: r in s.links ==> s.links[r].subject != call.subject && s.links[r].user != call.id;
      }
    }
  }

  /** In every interleaving a subject has at most one user and a user at most one subject. */
  lemma {:induction false} LinksStayOneToOne(w: World, es: seq<Event>)
    requires OneToOne(w.store) && ValidRun(w, es)
    ensures OneToOne(After(w, es).store)
    decreases es
  {
    if es != [] {
      EventKeepsOneToOne(w, es[0]);
      LinksStayOneToOne(Next(w, es[0]), es[1..]);
    }
  }

  // ---- every success is the user the store maps the subject to ----

  ghost predicate MapsTo(s: Store, subject: string, id: int) {
    exists r :: r in s.links && s.links[r] == Link(id, subject)
  }

  /** The user a call has settled on, if it has. */
  function Resolved(call: Call): Option<int> {
    match call
    case Loading(_, _, linked) => Some(linked)
    case LoadingLinked(_, id) => Some(id)
    case Building(_, id, _) => Some(id)
    case Succeeded(_, id, _) => Some(id)
    case _ => None
  }

  /** Whatever a call for the subject has settled on is what the store maps the subject to. */
  ghost predicate Settled(w: World, subject: string) {
    forall i :: i in w.calls && !w.calls[i].Failed? && w.calls[i].subject == subject && Resolved(w.calls[i]).Some? ==>
      MapsTo(w.store, subject, Resolved(w.calls[i]).value)
  }

  /** The event removes the link of the subject. */
  predicate Unlinks(w: World, e: Event, subject: string) {
    e.Advance? && e.id in w.calls && w.calls[e.id].Removing? && w.calls[e.id].row in w.store.links
    && w.store.links[w.calls[e.id].row].subject == subject
  }

  predicate NeverUnlinked(w: World, es: seq<Event>, subject: string)
    requires ValidRun(w, es)
    decreases es
  {
    es != [] ==> !Unlinks(w, es[0], subject) && NeverUnlinked(Next(w, es[0]), es[1..], subject)
  }

  lemma MappingKept(w: World, e: Event, subject: string, id: int)
    requires OneToOne(w.store) && Enabled(w, e) && !Unlinks(w, e, subject) && MapsTo(w.store, subject, id)
    ensures MapsTo(Next(w, e).store, subject, id)
  {
    var r :| r in w.store.links && w.store.links[r] == Link(id, subject);
    assert r in Next(w, e).store.links && Next(w, e).store.links[r] == Link(id, subject);
  }

  lemma StepSettles(s: Store, call: Call, a: Answer)
    requires Honest(s, call, a) && !call.Failed?
    requires Resolved(call).Some? ==> MapsTo(s, call.subject, Resolved(call).value)
    ensures var next := Continue(s, call, a);
            !next.Failed? ==> (
              && next.subject == call.subject
              && (Resolved(next).Some? ==> MapsTo(Changed(s, call, a), call.subject, Resolved(next).value)))
  {
    var next := Continue(s, call, a);
    if call.InsertingLink? && next.Building? {
      assert Changed(s, call, a).links[a.newId] == Link(call.id, call.subject);
    } else if (call.Looking? || call.Linking? || call.AfterConflict?) && a.row.Some? {
      assert s.links[a.row.value] == Link(s.links[a.row.value].user, call.subject);
    }
  }

  lemma EventKeepsSettled(w: World, e: Event, subject: string)
    requires OneToOne(w.store) && Enabled(w, e) && Settled(w, subject) && !Unlinks(w, e, subject)
    ensures Settled(Next(w, e), subject)
  {
    var v := Next(w, e);
    forall i | i in v.calls && !v.calls[i].Failed? && v.calls[i].subject == subject && Resolved(v.calls[i]).Some?
      ensures MapsTo(v.store, subject, Resolved(v.calls[i]).value)
    {
      if e.Advance? && e.id == i && !w.calls[i].Failed? {
        StepSettles(w.store, w.calls[i], e.answer);
      } else if i in w.calls {
        MappingKept(w, e, subject, Resolved(w.calls[i]).value);
      }
    }
  }

  lemma {:induction false} RunKeepsSettled(w: World, es: seq<Event>, subject: string)
    requires OneToOne(w.store) && ValidRun(w, es) && Settled(w, subject) && NeverUnlinked(w, es, subject)
    ensures Settled(After(w, es), subject)
    decreases es
  {
    if es != [] {
      EventKeepsSettled(w, es[0], subject);
      EventKeepsOneToOne(w, es[0]);
      RunKeepsSettled(Next(w, es[0]), es[1..], subject);
    }
  }

  // ---- when no link is removed ----

  /** The subject's account, if it is linked, is there for its user. */
  predicate Standing(s: Store, subject: string) {
    forall r :: r in s.links && s.links[r].subject == subject ==> Visible(s, s.links[r].user)
  }

  predicate Present(s: Store, id: int) {
    id in s.users && !s.users[id].deleted
  }

  predicate CallStands(s: Store, call: Call, subject: string) {
    !call.Failed? && call.subject == subject ==>
      match call
      case Loading(_, _, linked) => Visible(s, linked)
      case Unlinking(_, _) => false
      case Removing(_, _, _) => false
      case Linking(_, id, _) => Present(s, id)
      case CheckingUser(_, id, _) => Visible(s, id)
      case InsertingLink(_, id, _) => Visible(s, id)
      case _ => true
  }

  /** A call removes no other subject's link: identities are not used twice. */
  predicate RemovesOwn(s: Store, call: Call) {
    call.Removing? ==> call.row < s.nextRow && (call.row in s.links ==> s.links[call.row].subject == call.subject)
  }

  predicate Steady(w: World, subject: string) {
    && Standing(w.store, subject)
    && forall i :: i in w.calls ==> CallStands(w.store, w.calls[i], subject) && RemovesOwn(w.store, w.calls[i])
  }

  predicate Deletes(e: Event) {
    e.ChangeUser? && e.row.deleted
  }

  lemma StepStands(s: Store, call: Call, a: Answer, subject: string)
    requires OneToOne(s) && Standing(s, subject) && Honest(s, call, a)
    requires CallStands(s, call, subject) && RemovesOwn(s, call)
    ensures Standing(Changed(s, call, a), subject)
    ensures CallStands(Changed(s, call, a), Continue(s, call, a), subject)
    ensures RemovesOwn(Changed(s, call, a), Continue(s, call, a))
  {}

  /** What the step of one call leaves of what another relies on. */
  lemma OthersStand(s: Store, call: Call, a: Answer, other: Call, subject: string)
    requires OneToOne(s) && Honest(s, call, a) && CallStands(s, other, subject) && RemovesOwn(s, other)
    ensures CallStands(Changed(s, call, a), other, subject) && RemovesOwn(Changed(s, call, a), other)
  {}

  lemma EventKeepsSteady(w: World, e: Event, subject: string)
    requires OneToOne(w.store) && Steady(w, subject) && Enabled(w, e) && !Deletes(e)
    ensures Steady(Next(w, e), subject) && !Unlinks(w, e, subject)
  {
    var v := Next(w, e);
    if e.Advance? {
      StepStands(w.store, w.calls[e.id], e.answer, subject);
      forall i | i in v.calls ensures CallStands(v.store, v.calls[i], subject) && RemovesOwn(v.store, v.calls[i]) {
        if i != e.id { OthersStand(w.store, w.calls[e.id], e.answer, w.calls[i], subject); }
      }
    }
  }

  lemma {:induction false} SteadyNeverUnlinks(w: World, es: seq<Event>, subject: string)
    requires OneToOne(w.store) && Steady(w, subject) && ValidRun(w, es) && forall e <- es :: !Deletes(e)
    ensures NeverUnlinked(w, es, subject)
    decreases es
  {
    if es != [] {
      assert es[0] in es;
      EventKeepsSteady(w, es[0], subject);
      EventKeepsOneToOne(w, es[0]);
      SteadyNeverUnlinks(Next(w, es[0]), es[1..], subject);
    }
  }

  /** If at the start the subject is not linked to a deleted account, and no account is deleted meanwhile, all sign-ins
      with it that succeed, however they race and whichever accounts they set out to link, succeed with one user: the
      one the store maps the subject to. */
  lemma RacingSignInsAgree(s: Store, es: seq<Event>, subject: string, i: nat, j: nat)
    requires OneToOne(s) && Standing(s, subject) && ValidRun(World(s, map[]), es) && forall e <- es :: !Deletes(e)
    requires i in After(World(s, map[]), es).calls && j in After(World(s, map[]), es).calls
    requires After(World(s, map[]), es).calls[i].Succeeded? && After(World(s, map[]), es).calls[j].Succeeded?
    requires After(World(s, map[]), es).calls[i].subject == After(World(s, map[]), es).calls[j].subject == subject
    ensures MapsTo(After(World(s, map[]), es).store, subject, After(World(s, map[]), es).calls[i].id)
    ensures After(World(s, map[]), es).calls[i].id == After(World(s, map[]), es).calls[j].id
  {
    var w, v := World(s, map[]), After(World(s, map[]), es);
    SteadyNeverUnlinks(w, es, subject);
    RunKeepsSettled(w, es, subject);
    LinksStayOneToOne(w, es);
    assert Resolved(v.calls[i]).Some? && Resolved(v.calls[j]).Some?;
  }

  // ---- and only then ----

  lemma OneBefore(w: World, e: Event, v: World, rest: seq<Event>, end: World) returns (es: seq<Event>)
    requires Enabled(w, e) && Next(w, e) == v && ValidRun(v, rest) && After(v, rest) == end
    requires !Deletes(e) && forall x <- rest :: !Deletes(x)
    ensures ValidRun(w, es) && After(w, es) == end && forall x <- es :: !Deletes(x)
  {
    es := [e] + rest;
    assert es[1..] == rest;
  }

  function Pair(s: Store, first: Call, second: Call): World {
    World(s, map[0 := first, 1 := second])
  }

  /** The run leads to the end, and deletes no account. */
  ghost predicate Leads(w: World, es: seq<Event>, end: World) {
    ValidRun(w, es) && After(w, es) == end && forall e <- es :: !Deletes(e)
  }

  lemma FirstMoves(s: Store, call: Call, other: Call, a: Answer, t: Store, next: Call, rest: seq<Event>, end: World)
      returns (es: seq<Event>)
    requires Honest(s, call, a) && Changed(s, call, a) == t && Continue(s, call, a) == next
    requires Leads(Pair(t, next, other), rest, end)
    ensures Leads(Pair(s, call, other), es, end)
  {
    assert Next(Pair(s, call, other), Advance(0, a)) == Pair(t, next, other);
    es := OneBefore(Pair(s, call, other), Advance(0, a), Pair(t, next, other), rest, end);
  }

  lemma SecondMoves(s: Store, call: Call, other: Call, a: Answer, t: Store, next: Call, rest: seq<Event>, end: World)
      returns (es: seq<Event>)
    requires Honest(s, other, a) && Changed(s, other, a) == t && Continue(s, other, a) == next
    requires Leads(Pair(t, call, next), rest, end)
    ensures Leads(Pair(s, call, other), es, end)
  {
    assert Next(Pair(s, call, other), Advance(1, a)) == Pair(t, call, next);
    es := OneBefore(Pair(s, call, other), Advance(1, a), Pair(t, call, next), rest, end);
  }

  /** A subject linked to an account that is not visible, an e-mail nobody has, and a fresh identity. */
  predicate Stale(s: Store, row: int, email: string, id: int) {
    && OneToOne(s) && row in s.links && !Visible(s, s.links[row].user)
    && EmailMatch(s, email, None) && id >= 1 && id !in s.users
  }

  function Unlinked(s: Store, row: int): Store { s.(links := s.links - {row}) }

  function Joined(s: Store, row: int, email: string, id: int): Store {
    Unlinked(s, row).(users := s.users[id := NewUser(email)])
  }

  function Relinked(s: Store, row: int, email: string, id: int): Store
    requires row in s.links
  {
    var t := Joined(s, row, email, id);
    t.(links := t.links[s.nextRow := Link(id, s.links[row].subject)], nextRow := s.nextRow + 1)
  }

  /** Where the run ends: the subject unlinked, although the first call has succeeded with its new account. */
  function Outcome(s: Store, row: int, email: string, id: int): World
    requires row in s.links
  {
    var g := s.links[row].subject;
    Pair(Unlinked(Relinked(s, row, email, id), s.nextRow), Succeeded(g, id, NewUser(email)), Matching(g, email))
  }

  lemma NewLinkRemoved(s: Store, row: int, email: string, id: int) returns (es: seq<Event>)
    requires Stale(s, row, email, id)
    ensures var g := s.links[row].subject;
            Leads(Pair(Relinked(s, row, email, id), Building(g, id, NewUser(email)), Unlinking(g, email)), es,
                  Outcome(s, row, email, id))
  {
    var g, made, end := s.links[row].subject, NewUser(email), Outcome(s, row, email, id);
    var t, u, building := Relinked(s, row, email, id), Unlinked(Relinked(s, row, email, id), s.nextRow), Building(g, id, made);
    assert ValidRun(end, []);
    es := FirstMoves(u, building, Matching(g, email), QUIET, u, Succeeded(g, id, made), [], end);
    es := SecondMoves(t, building, Removing(g, email, s.nextRow), QUIET, u, Matching(g, email), es, end);
    es := SecondMoves(t, building, Unlinking(g, email), QUIET.(row := Some(s.nextRow)), t, Removing(g, email, s.nextRow),
                      es, end);
  }

  lemma NewAccountUnlinked(s: Store, row: int, email: string, id: int)
    requires Stale(s, row, email, id)
    ensures var t := Joined(s, row, email, id);
            !UserLinked(t, id) && !SubjectLinked(t, s.links[row].subject) && id in t.users
  {}

  lemma LinkMadeThenRemoved(s: Store, row: int, email: string, id: int) returns (es: seq<Event>)
    requires Stale(s, row, email, id)
    ensures var g := s.links[row].subject;
            Leads(Pair(Joined(s, row, email, id), Linking(g, id, NewUser(email)), Unlinking(g, email)), es,
                  Outcome(s, row, email, id))
  {
    var g, made, end := s.links[row].subject, NewUser(email), Outcome(s, row, email, id);
    var t, wait := Joined(s, row, email, id), Unlinking(g, email);
    NewAccountUnlinked(s, row, email, id);
    es := NewLinkRemoved(s, row, email, id);
    es := FirstMoves(t, InsertingLink(g, id, made), wait, QUIET.(newId := s.nextRow), Relinked(s, row, email, id),
                     Building(g, id, made), es, end);
    es := FirstMoves(t, CheckingUser(g, id, made), wait, QUIET, t, InsertingLink(g, id, made), es, end);
    assert forall r :: r in t.links ==> t.links[r].subject != g;
    es := FirstMoves(t, Linking(g, id, made), wait, QUIET, t, CheckingUser(g, id, made), es, end);
  }

  lemma OneSignsUp(s: Store, row: int, email: string, id: int) returns (es: seq<Event>)
    requires Stale(s, row, email, id)
    ensures var g := s.links[row].subject;
            Leads(Pair(s, Unlinking(g, email), Unlinking(g, email)), es, Outcome(s, row, email, id))
  {
    var g, end := s.links[row].subject, Outcome(s, row, email, id);
    var t, wait := Unlinked(s, row), Unlinking(g, email);
    es := LinkMadeThenRemoved(s, row, email, id);
    es := FirstMoves(t, SigningUp(g, email), wait, QUIET.(signup := Created, newId := id), Joined(s, row, email, id),
                     Linking(g, id, NewUser(email)), es, end);
    es := FirstMoves(t, Matching(g, email), wait, QUIET, t, SigningUp(g, email), es, end);
    es := FirstMoves(s, Removing(g, email, row), wait, QUIET, t, Matching(g, email), es, end);
    es := FirstMoves(s, wait, wait, QUIET.(row := Some(row)), s, Removing(g, email, row), es, end);
  }

  lemma BothFindItGone(s: Store, row: int, email: string, id: int) returns (es: seq<Event>)
    requires Stale(s, row, email, id)
    ensures var g := s.links[row].subject;
            Leads(Pair(s, Looking(g, email), Looking(g, email)), es, Outcome(s, row, email, id))
  {
    var g, gone, end := s.links[row].subject, s.links[row].user, Outcome(s, row, email, id);
    var wait, begun, loading := Unlinking(g, email), Looking(g, email), Loading(g, email, gone);
    var found := QUIET.(row := Some(row));
    es := OneSignsUp(s, row, email, id);
    es := SecondMoves(s, wait, loading, QUIET, s, wait, es, end);
    es := FirstMoves(s, loading, loading, QUIET, s, wait, es, end);
    es := SecondMoves(s, loading, begun, found, s, loading, es, end);
    es := FirstMoves(s, begun, begun, found, s, loading, es, end);
  }

  /** For every store in which a subject is linked to an account that is not visible: two sign-ins both find it so, the
      second removal hits the link the first has just made, and the first succeeds with a user the store does not map
      the subject to. */
  lemma SecondRemovalUnmapsASuccess(s: Store, row: int, email: string, id: int) returns (es: seq<Event>)
    requires Stale(s, row, email, id) && !IsBlank(email)
    requires Trim(s.links[row].subject) == s.links[row].subject && !IsBlank(s.links[row].subject)
    ensures ValidRun(World(s, map[]), es) && forall e <- es :: !Deletes(e)
    ensures var v := After(World(s, map[]), es);
            && 0 in v.calls && v.calls[0] == Succeeded(s.links[row].subject, id, NewUser(email))
            && !MapsTo(v.store, s.links[row].subject, id)
  {
    var g, begun := s.links[row].subject, Looking(s.links[row].subject, email);
    es := BothFindItGone(s, row, email, id);
    var end := Outcome(s, row, email, id);
    var w := World(s, map[0 := begun]);
    es := OneBefore(w, Begin(1, Some(email), g), Pair(s, begun, begun), es, end);
    es := OneBefore(World(s, map[]), Begin(0, Some(email), g), w, es, end);
  }

  /** Every success with the subject, in every run from the store in which no account is deleted, is the user the store
      then maps the subject to. */
  ghost predicate SuccessesAreMapped(s: Store, subject: string) {
    forall es: seq<Event>, i: nat ::
      && ValidRun(World(s, map[]), es) && (forall e <- es :: !Deletes(e))
      && i in After(World(s, map[]), es).calls && After(World(s, map[]), es).calls[i].Succeeded?
      && After(World(s, map[]), es).calls[i].subject == subject
      ==> MapsTo(After(World(s, map[]), es).store, subject, After(World(s, map[]), es).calls[i].id)
  }

  /** That holds exactly when the store does not link the subject to an account that is deleted. */
  lemma SuccessesAreMappedExactly(s: Store, subject: string, email: string, id: int)
    requires OneToOne(s) && Trim(subject) == subject && !IsBlank(subject)
    requires !IsBlank(email) && EmailMatch(s, email, None) && id >= 1 && id !in s.users
    ensures SuccessesAreMapped(s, subject) <==> Standing(s, subject)
  {
    if Standing(s, subject) {
      forall es: seq<Event>, i: nat |
        && ValidRun(World(s, map[]), es) && (forall e <- es :: !Deletes(e))
        && i in After(World(s, map[]), es).calls && After(World(s, map[]), es).calls[i].Succeeded?
        && After(World(s, map[]), es).calls[i].subject == subject
        ensures MapsTo(After(World(s, map[]), es).store, subject, After(World(s, map[]), es).calls[i].id)
      {
        RacingSignInsAgree(s, es, subject, i, i);
      }
    } else {
      var row :| row in s.links && s.links[row].subject == subject && !Visible(s, s.links[row].user);
      var es := SecondRemovalUnmapsASuccess(s, row, email, id);
      assert After(World(s, map[]), es).calls[0].Succeeded?;
    }
  }
}
