/** Comments on posts: the rate limit, and one level of replies. An add is cut between its checks, which count the user's
    recent comments, and its insert; other calls, of the same user too, may come in between. */
module Comments {
  import opened Wrappers
  import opened Text

  const MINUTE := 600_000_000  // ticks of 100 ns
  const RATE_LIMIT := 5
  const MAX_CONTENT_LENGTH := 1000

  datatype Comment = Comment(post: int, user: int, parent: Option<int>, content: string, createdAt: int, deleted: bool)

  type Table = map<int, Comment>

  /** A request to comment; `counted` is the reading of the clock for its rate limit. */
  datatype Request = Request(post: int, user: int, content: string, parent: Option<int>, postExists: bool, counted: int)

  /** An add that was let through; `meanwhile` are the comments its user has added since. */
  datatype Pending = Pending(request: Request, meanwhile: set<int>)

  /** Comments, the users whose accounts are deleted, the adds under way, and the latest reading of the clock. */
  datatype World = World(comments: Table, deletedUsers: set<int>, adds: map<nat, Pending>, clock: int)

  datatype Outcome =
    | Added(id: int) | InvalidRequest | PostNotFound | CommentNotFound | RateLimited | PersistenceFailed | Done | Forbidden

  datatype Event =
    | BeginAdd(call: nat, request: Request)
    | EndAdd(call: nat, newId: int, stored: int, saved: bool)
    | Update(id: int, content: string)
    | Delete(post: int, id: int, actor: int, admin: bool, postOwner: Option<int>)
    | DeleteUser(user: int)

  predicate Readable(w: World, id: int) {
    id in w.comments && !w.comments[id].deleted && w.comments[id].user !in w.deletedUsers
  }

  /** The live comments of a user since a moment. */
  function Since(comments: Table, user: int, from: int): set<int> {
    set id | id in comments && comments[id].user == user && !comments[id].deleted && comments[id].createdAt >= from
  }

  /** None when the parent can be replied to. */
  function ParentProblem(w: World, post: int, parent: Option<int>): Option<Outcome> {
    if parent.None? then None
    else if !Readable(w, parent.value) then Some(CommentNotFound)
    else if w.comments[parent.value].post != post then Some(InvalidRequest)
    else if w.comments[parent.value].parent.Some? then Some(InvalidRequest)
    else None
  }

  /** Why an add is refused; none when it is let through. */
  function Refusal(w: World, r: Request): Option<Outcome> {
    if IsBlank(r.content) || |Trim(r.content)| > MAX_CONTENT_LENGTH then Some(InvalidRequest)
    else if !r.postExists then Some(PostNotFound)
    else if ParentProblem(w, r.post, r.parent).Some? then ParentProblem(w, r.post, r.parent)
    else if |Since(w.comments, r.user, r.counted - MINUTE)| >= RATE_LIMIT then Some(RateLimited)
    else None
  }

  function NewComment(r: Request, stored: int): Comment {
    Comment(r.post, r.user, r.parent, Trim(r.content), stored, false)
  }

  /** The adds under way of the same user, with one more comment that came since they counted. */
  function Noticed(adds: map<nat, Pending>, user: int, id: int): map<nat, Pending> {
    map call | call in adds ::
      if adds[call].request.user == user then adds[call].(meanwhile := adds[call].meanwhile + {id}) else adds[call]
  }

  predicate MayDelete(w: World, post: int, id: int, actor: int, admin: bool, postOwner: Option<int>) {
    && Readable(w, id) && w.comments[id].post == post
    && (w.comments[id].user == actor || postOwner == Some(actor) || admin)
  }

  predicate Enabled(w: World, e: Event) {
    match e
    case BeginAdd(call, r) => call !in w.adds && w.clock <= r.counted
    case EndAdd(call, newId, stored, _) => call in w.adds && newId !in w.comments && w.adds[call].request.counted <= stored
    case _ => true
  }

  function Next(w: World, e: Event): World
    requires Enabled(w, e)
  {
    match e
    case BeginAdd(call, r) =>
      if Refusal(w, r).Some? then w else w.(adds := w.adds[call := Pending(r, {})], clock := r.counted)
    case EndAdd(call, newId, stored, saved) =>
      var r, others := w.adds[call].request, w.adds - {call};
      if !saved then w.(adds := others)
      else
        w.(comments := w.comments[newId := NewComment(r, stored)], adds := Noticed(others, r.user, newId),
           clock := if stored > w.clock then stored else w.clock)
    case Update(id, content) =>
      if id in w.comments && !w.comments[id].deleted
      then w.(comments := w.comments[id := w.comments[id].(content := content)]) else w
    case Delete(post, id, actor, admin, postOwner) =>
      if MayDelete(w, post, id, actor, admin, postOwner)
      then w.(comments := w.comments[id := w.comments[id].(deleted := true)]) else w
    case DeleteUser(user) => w.(deletedUsers := w.deletedUsers + {user})
  }

  predicate ValidRun(w: World, es: seq<Event>)
    decreases es
  {
    es != [] ==> Enabled(w, es[0]) && ValidRun(Next(w, es[0]), es[1..])
  }

  function After(w: World, es: seq<Event>): World
    requires ValidRun(w, es)
    decreases es
  {
    if es == [] then w else After(Next(w, es[0]), es[1..])
  }

  function Empty(start: int): World {
    World(map[], {}, map[], start)
  }

  /** Whenever an add of the run is stored, its user has stored at most k others since it counted. */
  predicate OverlapAtMost(w: World, es: seq<Event>, k: nat)
    requires ValidRun(w, es)
    decreases es
  {
    es != [] ==>
      && (es[0].EndAdd? && es[0].saved ==> |w.adds[es[0].call].meanwhile| <= k)
      && OverlapAtMost(Next(w, es[0]), es[1..], k)
  }

  // ---- the invariant ----

  /** The live comments of a user in the closed minute that starts at a moment. */
  function InMinute(comments: Table, user: int, from: int): set<int> {
    set id | id in comments && comments[id].user == user && !comments[id].deleted
             && from <= comments[id].createdAt <= from + MINUTE
  }

  ghost predicate Limited(comments: Table, k: nat) {
    forall user: int, from: int :: |InMinute(comments, user, from)| <= RATE_LIMIT + k
  }

  predicate TopLevel(comments: Table, post: int, parent: Option<int>) {
    parent.Some? ==>
      parent.value in comments && comments[parent.value].post == post && comments[parent.value].parent.None?
  }

  predicate OneLevel(comments: Table) {
    forall id :: id in comments ==> TopLevel(comments, comments[id].post, comments[id].parent)
  }

  predicate NotFromTheFuture(w: World) {
    forall id :: id in w.comments ==> w.comments[id].createdAt <= w.clock
  }

  /** Of what the add counted, at most four comments are left beside those that came since. */
  predicate Allowed(comments: Table, p: Pending) {
    && |Since(comments, p.request.user, p.request.counted - MINUTE) - p.meanwhile| < RATE_LIMIT
    && TopLevel(comments, p.request.post, p.request.parent)
  }

  ghost predicate Inv(w: World, k: nat) {
    && Limited(w.comments, k) && OneLevel(w.comments) && NotFromTheFuture(w)
    && forall call :: call in w.adds ==> Allowed(w.comments, w.adds[call])
  }

  // ---- one step of the table ----

  predicate SameRow(a: Comment, b: Comment) {
    b.post == a.post && b.user == a.user && b.parent == a.parent && b.createdAt == a.createdAt && (a.deleted ==> b.deleted)
  }

  /** Rows are added, edited and marked deleted, and nothing else happens to them. */
  predicate Steps(s: Table, t: Table, added: set<int>) {
    && (forall id :: id in t ==> id in s || id in added)
    && (forall id :: id in s ==> id in t && SameRow(s[id], t[id]))
  }

  function AddedBy(e: Event): set<int> {
    if e.EndAdd? && e.saved then {e.newId} else {}
  }

  lemma EventSteps(w: World, e: Event)
    requires Enabled(w, e)
    ensures Steps(w.comments, Next(w, e).comments, AddedBy(e))
    ensures AddedBy(e) != {} ==> Next(w, e).comments[e.newId] == NewComment(w.adds[e.call].request, e.stored)
  {
  }

  lemma StepOfSince(s: Table, t: Table, added: set<int>, user: int, from: int)
    requires Steps(s, t, added)
    ensures Since(t, user, from) <= Since(s, user, from) + added
  {
    forall id | id in Since(t, user, from) ensures id in Since(s, user, from) + added {
      assert id in s ==> SameRow(s[id], t[id]);
    }
  }

  lemma StepOfMinute(s: Table, t: Table, added: set<int>, user: int, from: int)
    requires Steps(s, t, added)
    ensures InMinute(t, user, from) <= InMinute(s, user, from) + added
  {
    forall id | id in InMinute(t, user, from) ensures id in InMinute(s, user, from) + added {
      assert id in s ==> SameRow(s[id], t[id]);
    }
  }

  lemma StepOfParent(s: Table, t: Table, added: set<int>, post: int, parent: Option<int>)
    requires Steps(s, t, added) && TopLevel(s, post, parent)
    ensures TopLevel(t, post, parent)
  {
    if parent.Some? {
      var id: int := parent.value;
      assert id in s;
      assert id in t && SameRow(s[id], t[id]);
    }
  }

  lemma UnionCount(a: set<int>, b: set<int>)
    ensures |a + b| <= |a| + |b|
  {
    assert a + b == a + (b - a);
    SubsetCount(b - a, b);
  }

  /** A comment that is stored leaves every closed minute with at most five, and as many more as came since it counted. */
  lemma AddKeepsLimit(s: Table, t: Table, p: Pending, newId: int, stored: int, k: nat, user: int, from: int)
    requires Limited(s, k) && Allowed(s, p) && Steps(s, t, {newId}) && |p.meanwhile| <= k
    requires newId in t && t[newId] == NewComment(p.request, stored) && p.request.counted <= stored
    ensures |InMinute(t, user, from)| <= RATE_LIMIT + k
  {
    var after := InMinute(t, user, from);
    StepOfMinute(s, t, {newId}, user, from);
    if user == p.request.user && from <= stored <= from + MINUTE {
      var counted := Since(s, user, p.request.counted - MINUTE) - p.meanwhile;
      forall id | id in after ensures id in counted + p.meanwhile + {newId} {
        if id != newId { assert id in InMinute(s, user, from); }
      }
      SubsetCount(after, counted + p.meanwhile + {newId});
      UnionCount(counted, p.meanwhile);
      UnionCount(counted + p.meanwhile, {newId});
    } else {
      assert newId !in after;
      SubsetCount(after, InMinute(s, user, from));
    }
  }

  lemma EventKeepsLimit(w: World, e: Event, k: nat)
    requires Inv(w, k) && Enabled(w, e) && (e.EndAdd? && e.saved ==> |w.adds[e.call].meanwhile| <= k)
    ensures Limited(Next(w, e).comments, k)
  {
    var s, t := w.comments, Next(w, e).comments;
    EventSteps(w, e);
    forall user: int, from: int ensures |InMinute(t, user, from)| <= RATE_LIMIT + k {
      if AddedBy(e) == {} {
        StepOfMinute(s, t, {}, user, from);
        SubsetCount(InMinute(t, user, from), InMinute(s, user, from));
      } else {
        AddKeepsLimit(s, t, w.adds[e.call], e.newId, e.stored, k, user, from);
      }
    }
  }

  /** What an add under way has counted only shrinks, but for what it notices. */
  lemma StaysAllowed(s: Table, t: Table, added: set<int>, p: Pending, q: Pending)
    requires Steps(s, t, added) && Allowed(s, p) && q.request == p.request && p.meanwhile <= q.meanwhile
    requires forall id <- added :: id in t && t[id].user == p.request.user ==> id in q.meanwhile
    ensures Allowed(t, q)
  {
    var user, from := p.request.user, p.request.counted - MINUTE;
    StepOfSince(s, t, added, user, from);
    forall id | id in Since(t, user, from) - q.meanwhile ensures id in Since(s, user, from) - p.meanwhile {}
    SubsetCount(Since(t, user, from) - q.meanwhile, Since(s, user, from) - p.meanwhile);
    StepOfParent(s, t, added, p.request.post, p.request.parent);
  }

  /** The adds that stay under way notice a comment of their user. */
  lemma AddsNotice(w: World, e: Event, call: nat)
    requires Enabled(w, e) && call in w.adds && call in Next(w, e).adds
    ensures var p, q := w.adds[call], Next(w, e).adds[call];
            && q.request == p.request && p.meanwhile <= q.meanwhile
            && (AddedBy(e) != {} && p.request.user == w.adds[e.call].request.user ==> e.newId in q.meanwhile)
  {
  }

  lemma BegunIsAllowed(w: World, r: Request)
    requires Refusal(w, r) == None
    ensures Allowed(w.comments, Pending(r, {}))
  {
    var counted := Since(w.comments, r.user, r.counted - MINUTE);
    assert counted - {} == counted;
  }

  lemma CallStaysAllowed(w: World, e: Event, call: nat)
    requires Enabled(w, e) && call in Next(w, e).adds && (call in w.adds ==> Allowed(w.comments, w.adds[call]))
    ensures Allowed(Next(w, e).comments, Next(w, e).adds[call])
  {
    if call in w.adds {
      EventSteps(w, e);
      AddsNotice(w, e, call);
      StaysAllowed(w.comments, Next(w, e).comments, AddedBy(e), w.adds[call], Next(w, e).adds[call]);
    } else {
      BegunIsAllowed(w, e.request);
    }
  }

  lemma EventKeepsAllowed(w: World, e: Event, k: nat)
    requires Inv(w, k) && Enabled(w, e)
    ensures forall call :: call in Next(w, e).adds ==> Allowed(Next(w, e).comments, Next(w, e).adds[call])
  {
    forall call | call in Next(w, e).adds ensures Allowed(Next(w, e).comments, Next(w, e).adds[call]) {
      CallStaysAllowed(w, e, call);
    }
  }

  lemma EventKeepsRows(w: World, e: Event, k: nat)
    requires Inv(w, k) && Enabled(w, e)
    ensures OneLevel(Next(w, e).comments)
  {
    var s, t := w.comments, Next(w, e).comments;
    EventSteps(w, e);
    forall id | id in t ensures TopLevel(t, t[id].post, t[id].parent) {
      if id in s {
        StepOfParent(s, t, AddedBy(e), s[id].post, s[id].parent);
      } else {
        var r := w.adds[e.call].request;
        assert Allowed(s, w.adds[e.call]);
        StepOfParent(s, t, AddedBy(e), r.post, r.parent);
      }
    }
  }

  lemma EventKeepsTimes(w: World, e: Event)
    requires NotFromTheFuture(w) && Enabled(w, e)
    ensures NotFromTheFuture(Next(w, e))
  {
    EventSteps(w, e);
  }

  lemma EventKeepsInv(w: World, e: Event, k: nat)
    requires Inv(w, k) && Enabled(w, e) && (e.EndAdd? && e.saved ==> |w.adds[e.call].meanwhile| <= k)
    ensures Inv(Next(w, e), k)
  {
    EventKeepsLimit(w, e, k);
    EventKeepsAllowed(w, e, k);
    EventKeepsRows(w, e, k);
    EventKeepsTimes(w, e);
  }

  lemma {:induction false} RunKeepsInv(w: World, es: seq<Event>, k: nat)
    requires Inv(w, k) && ValidRun(w, es) && OverlapAtMost(w, es, k)
    ensures Inv(After(w, es), k)
    decreases es
  {
    if es != [] {
      EventKeepsInv(w, es[0], k);
      RunKeepsInv(Next(w, es[0]), es[1..], k);
    }
  }

  lemma EmptyIsLimited(start: int, k: nat)
    ensures Inv(Empty(start), k)
  {
    forall u: int, f: int ensures |InMinute(Empty(start).comments, u, f)| <= RATE_LIMIT + k {
      forall id ensures id !in InMinute(Empty(start).comments, u, f) {}
      NoElement(InMinute(Empty(start).comments, u, f));
    }
  }

  /** In every run at most five live comments of one user fall in any closed minute, and as many more as the user
      stores between the count and the insert of one add; and the parent of a reply is a top-level comment of the
      same post. Without overlapping adds of one user (k = 0) the limit is kept. */
  lemma AtMostFiveAMinute(start: int, es: seq<Event>, k: nat, user: int, from: int)
    requires ValidRun(Empty(start), es) && OverlapAtMost(Empty(start), es, k)
    ensures var comments := After(Empty(start), es).comments;
            |InMinute(comments, user, from)| <= RATE_LIMIT + k && OneLevel(comments)
  {
    EmptyIsLimited(start, k);
    RunKeepsInv(Empty(start), es, k);
  }

  /** A comment is stored into a closed minute that holds five of its user already. */
  ghost predicate Crowds(w: World, e: Event)
    requires Enabled(w, e)
  {
    e.EndAdd? && e.saved
    && exists from: int :: from <= e.stored <= from + MINUTE
                           && |InMinute(w.comments, w.adds[e.call].request.user, from)| >= RATE_LIMIT
  }

  lemma StoredInMinute(s: Table, t: Table, r: Request, newId: int, stored: int, user: int, from: int)
    requires newId !in s && t == s[newId := NewComment(r, stored)]
    ensures InMinute(t, user, from) ==
            InMinute(s, user, from) + if user == r.user && from <= stored <= from + MINUTE then {newId} else {}
  {
    var more := if user == r.user && from <= stored <= from + MINUTE then {newId} else {};
    forall id ensures id in InMinute(t, user, from) <==> id in InMinute(s, user, from) + more {}
  }

  /** One step keeps the limit exactly when it does not crowd a minute. */
  lemma StepLimitsExactly(w: World, e: Event)
    requires Limited(w.comments, 0) && Enabled(w, e)
    ensures Limited(Next(w, e).comments, 0) <==> !Crowds(w, e)
  {
    var s, t := w.comments, Next(w, e).comments;
    if AddedBy(e) == {} {
      EventSteps(w, e);
      forall user: int, from: int ensures |InMinute(t, user, from)| <= RATE_LIMIT {
        StepOfMinute(s, t, {}, user, from);
        SubsetCount(InMinute(t, user, from), InMinute(s, user, from));
      }
    } else {
      var r := w.adds[e.call].request;
      forall user: int, from: int
        ensures InMinute(t, user, from) ==
                InMinute(s, user, from) + if user == r.user && from <= e.stored <= from + MINUTE then {e.newId} else {}
      {
        StoredInMinute(s, t, r, e.newId, e.stored, user, from);
      }
      if from: int :| from <= e.stored <= from + MINUTE && |InMinute(s, r.user, from)| >= RATE_LIMIT {
        assert |InMinute(t, r.user, from)| == |InMinute(s, r.user, from)| + 1;
      }
    }
  }

  ghost predicate AlwaysLimited(w: World, es: seq<Event>)
    requires ValidRun(w, es)
    decreases es
  {
    Limited(w.comments, 0) && (es != [] ==> AlwaysLimited(Next(w, es[0]), es[1..]))
  }

  ghost predicate NeverCrowds(w: World, es: seq<Event>)
    requires ValidRun(w, es)
    decreases es
  {
    es != [] ==> !Crowds(w, es[0]) && NeverCrowds(Next(w, es[0]), es[1..])
  }

  /** Exactly which runs keep the limit throughout: those in which no comment is stored into a minute that is full. */
  lemma {:induction false} LimitIsKeptExactly(w: World, es: seq<Event>)
    requires Limited(w.comments, 0) && ValidRun(w, es)
    ensures AlwaysLimited(w, es) <==> NeverCrowds(w, es)
    decreases es
  {
    if es != [] {
      StepLimitsExactly(w, es[0]);
      if Limited(Next(w, es[0]).comments, 0) { LimitIsKeptExactly(Next(w, es[0]), es[1..]); }
    }
  }

  /** And that takes an overlap: one of the five was stored after the add had counted. */
  lemma CrowdingOverlaps(w: World, e: Event, k: nat)
    requires Inv(w, k) && Enabled(w, e) && Crowds(w, e)
    ensures w.adds[e.call].meanwhile != {}
  {
    var p := w.adds[e.call];
    assert Allowed(w.comments, p);
    var from: int :| from <= e.stored <= from + MINUTE && |InMinute(w.comments, p.request.user, from)| >= RATE_LIMIT;
    var counted := Since(w.comments, p.request.user, p.request.counted - MINUTE);
    if p.meanwhile == {} {
      assert counted - {} == counted;
      forall id | id in InMinute(w.comments, p.request.user, from) ensures id in counted {}
      SubsetCount(InMinute(w.comments, p.request.user, from), counted);
    }
  }

  lemma RunStep(w: World, e: Event, rest: seq<Event>)
    requires Enabled(w, e) && ValidRun(Next(w, e), rest)
    ensures ValidRun(w, [e] + rest) && After(w, [e] + rest) == After(Next(w, e), rest)
  {
    assert ([e] + rest)[1..] == rest;
  }

  /** Overlapping adds do break the limit: from every state in which a user has four comments in the last minute, two adds
      that both count before either is stored are both let through, and leave six. */
  lemma OverlappingAddsExceed(w: World, r: Request, c: nat, d: nat, id1: int, id2: int)
    requires w.clock <= r.counted && NotFromTheFuture(w) && Refusal(w, r) == None
    requires c !in w.adds && d !in w.adds && c != d && id1 !in w.comments && id2 !in w.comments && id1 != id2
    requires |InMinute(w.comments, r.user, r.counted - MINUTE)| == RATE_LIMIT - 1
    ensures var es := [BeginAdd(c, r), BeginAdd(d, r), EndAdd(c, id1, r.counted, true), EndAdd(d, id2, r.counted, true)];
            && ValidRun(w, es)
            && |InMinute(After(w, es).comments, r.user, r.counted - MINUTE)| == RATE_LIMIT + 1
  {
    var e0, e1, e2, e3 :=
      BeginAdd(c, r), BeginAdd(d, r), EndAdd(c, id1, r.counted, true), EndAdd(d, id2, r.counted, true);
    var w1 := Next(w, e0);
    var w2 := Next(w1, e1);
    var w3 := Next(w2, e2);
    RunStep(w3, e3, []);
    RunStep(w2, e2, [e3]);
    RunStep(w1, e1, [e2, e3]);
    RunStep(w, e0, [e1, e2, e3]);
    var last := InMinute(w.comments, r.user, r.counted - MINUTE);
    var comments := Next(w3, e3).comments;
    assert comments == w.comments[id1 := NewComment(r, r.counted)][id2 := NewComment(r, r.counted)];
    forall id ensures id in InMinute(comments, r.user, r.counted - MINUTE) <==> id in last + {id1} + {id2} {}
    assert InMinute(comments, r.user, r.counted - MINUTE) == last + {id1} + {id2};
  }

  /** The limit is no stricter than that: a comment that would leave the last minute with at most five is let through. */
  lemma LimitIsTight(w: World, r: Request, newId: int)
    requires NotFromTheFuture(w) && w.clock <= r.counted && newId !in w.comments && r.postExists
    requires !IsBlank(r.content) && |Trim(r.content)| <= MAX_CONTENT_LENGTH && ParentProblem(w, r.post, r.parent) == None
    ensures Refusal(w, r) == None <==>
            |InMinute(w.comments[newId := NewComment(r, r.counted)], r.user, r.counted - MINUTE)| <= RATE_LIMIT
  {
    var counted := Since(w.comments, r.user, r.counted - MINUTE);
    var last := InMinute(w.comments[newId := NewComment(r, r.counted)], r.user, r.counted - MINUTE);
    forall id ensures id in last <==> id in counted + {newId} {}
    assert last == counted + {newId};
  }

  // ---- the service as written ----

  /** The comment is there, undeleted, and so is the account of its user. */
  predicate Shown(comments: Table, deletedUsers: set<int>, id: int) {
    id in comments && !comments[id].deleted && comments[id].user !in deletedUsers
  }

  class PostCommentService {
    var comments: Table
    var deletedUsers: set<int>
    var clock: int

    function State(): World
      reads this
    {
      World(comments, deletedUsers, map[], clock)
    }

    /** An add that nothing interrupts. */
    method AddComment(r: Request, newId: int, stored: int, saved: bool) returns (outcome: Outcome)
      requires clock <= r.counted <= stored && newId !in comments
      modifies this`comments, this`clock
      ensures Refusal(old(State()), r).Some? ==>
                outcome == Refusal(old(State()), r).value && State() == Next(old(State()), BeginAdd(0, r))
      ensures Refusal(old(State()), r).None? ==>
                && outcome == (if saved then Added(newId) else PersistenceFailed)
                && ValidRun(old(State()), [BeginAdd(0, r), EndAdd(0, newId, stored, saved)])
                && State() == After(old(State()), [BeginAdd(0, r), EndAdd(0, newId, stored, saved)])
      ensures comments == if outcome.Added? then
                            old(comments)[newId := Comment(r.post, r.user, r.parent, Trim(r.content), stored, false)]
                          else old(comments)
      // Its text, its post, its parent and the rate, in this order, decide.
      ensures var wordless := IsBlank(r.content) || |Trim(r.content)| > 1000;
              var orphan := r.parent.Some? && !Shown(old(comments), deletedUsers, r.parent.value);
              var misplaced := r.parent.Some? && r.parent.value in old(comments)
                               && (old(comments)[r.parent.value].post != r.post || old(comments)[r.parent.value].parent.Some?);
              var hurried := |set id | id in old(comments) && old(comments)[id].user == r.user && !old(comments)[id].deleted
                                       && old(comments)[id].createdAt >= r.counted - 600_000_000| >= 5;
              outcome == if wordless then InvalidRequest else if !r.postExists then PostNotFound
                         else if orphan then CommentNotFound else if misplaced then InvalidRequest
                         else if hurried then RateLimited else if saved then Added(newId) else PersistenceFailed
    {
      ghost var w := State();
      if IsBlank(r.content) {
        return InvalidRequest;
      }
      var trimmedContent := Trim(r.content);
      if |trimmedContent| > MAX_CONTENT_LENGTH {
        return InvalidRequest;
      }
      if !r.postExists {
        return PostNotFound;
      }
      if r.parent.Some? {
        var parent := r.parent.value;
        if parent !in comments || comments[parent].deleted || comments[parent].user in deletedUsers {
          return CommentNotFound;
        }
        if comments[parent].post != r.post {
          return InvalidRequest;
        }
        if comments[parent].parent.Some? {
          return InvalidRequest;
        }
      }
      var recentCount := |Since(comments, r.user, r.counted - MINUTE)|;
      assert Since(comments, r.user, r.counted - MINUTE) ==
             set id | id in comments && comments[id].user == r.user && !comments[id].deleted
                      && comments[id].createdAt >= r.counted - 600_000_000;
      if recentCount >= RATE_LIMIT {
        return RateLimited;
      }
      AloneRun(w, r, newId, stored, saved);
      clock := r.counted;
      if !saved {
        return PersistenceFailed;
      }
      comments := comments[newId := Comment(r.post, r.user, r.parent, trimmedContent, stored, false)];
      clock := stored;
      return Added(newId);
    }

    static lemma AloneRun(w: World, r: Request, newId: int, stored: int, saved: bool)
      requires w.adds == map[] && Refusal(w, r).None? && w.clock <= r.counted <= stored && newId !in w.comments
      ensures var es := [BeginAdd(0, r), EndAdd(0, newId, stored, saved)];
              && ValidRun(w, es)
              && After(w, es) == if saved then w.(comments := w.comments[newId := NewComment(r, stored)], clock := stored)
                                 else w.(clock := r.counted)
    {
      var e0, e1 := BeginAdd(0, r), EndAdd(0, newId, stored, saved);
      RunStep(Next(w, e0), e1, []);
      RunStep(w, e0, [e1]);
      assert Next(w, e0).adds - {0} == map[];
      assert Noticed(map[], r.user, newId) == map[];
    }

    /** Only the author edits a comment, and nothing but its text changes. */
    method UpdateComment(post: int, id: int, actor: int, content: string) returns (outcome: Outcome)
      modifies this`comments
      ensures State() == if outcome == Done then Next(old(State()), Update(id, Trim(content))) else old(State())
      ensures var found := Shown(old(comments), deletedUsers, id) && old(comments)[id].post == post;
              outcome == if IsBlank(content) || |Trim(content)| > 1000 then InvalidRequest
                         else if !found then CommentNotFound
                         else if old(comments)[id].user != actor then Forbidden else Done
      ensures comments == if outcome == Done then old(comments)[id := old(comments)[id].(content := Trim(content))]
                          else old(comments)
    {
      if IsBlank(content) {
        return InvalidRequest;
      }
      var trimmedContent := Trim(content);
      if |trimmedContent| > MAX_CONTENT_LENGTH {
        return InvalidRequest;
      }
      if id !in comments || comments[id].deleted || comments[id].user in deletedUsers {
        return CommentNotFound;
      }
      if comments[id].post != post {
        return CommentNotFound;
      }
      if comments[id].user != actor {
        return Forbidden;
      }
      comments := comments[id := comments[id].(content := trimmedContent)];
      return Done;
    }

    method DeleteComment(post: int, id: int, actor: int, admin: bool, postOwner: Option<int>) returns (outcome: Outcome)
      modifies this`comments
      ensures State() == Next(old(State()), Delete(post, id, actor, admin, postOwner))
      ensures outcome == Done <==> MayDelete(old(State()), post, id, actor, admin, postOwner)
      ensures outcome == CommentNotFound <==> !(Readable(old(State()), id) && old(comments)[id].post == post)
      ensures outcome == Done || outcome == CommentNotFound || outcome == Forbidden
      ensures var found := Shown(old(comments), deletedUsers, id) && old(comments)[id].post == post;
              && (outcome == CommentNotFound <==> !found)
              && (outcome == Forbidden <==> found && old(comments)[id].user != actor && postOwner != Some(actor) && !admin)
      ensures comments == if outcome == Done then old(comments)[id := old(comments)[id].(deleted := true)] else old(comments)
    {
      if id !in comments || comments[id].deleted || comments[id].user in deletedUsers {
        return CommentNotFound;
      }
      if comments[id].post != post {
        return CommentNotFound;
      }
      if comments[id].user != actor && postOwner != Some(actor) && !admin {
        return Forbidden;
      }
      comments := comments[id := comments[id].(deleted := true)];
      return Done;
    }
  }
}
