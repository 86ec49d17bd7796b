/** The search cache and the writers that invalidate it, one call at a time. Entries may also leave the cache at
    any moment, by age or for room. */
module SearchCache {
  import opened Wrappers
  import opened Text
  import opened SearchKeys

  const ACTIVE := 0
  const BLOCKED := 1
  const SOLD := 3

  datatype Details = Details(category: int, title: string, description: string, price: Option<Price>, city: Option<int>,
                             area: Option<int>)

  datatype Post = Post(owner: int, details: Details, status: int, deleted: bool)

  type Posts = map<int, Post>

  // ---- the writers: the new posts when they saved (and invalidated), nothing otherwise ----

  predicate ValidDetails(d: Details) {
    d.category >= 1 && !IsBlank(d.title) && !(d.city.Some? && d.city.value < 1) && !(d.area.Some? && d.area.value < 1)
  }

  function Normalized(d: Details): Details {
    d.(title := Trim(d.title), description := Trim(d.description))
  }

  predicate MayChange(posts: Posts, id: int, actor: int, admin: bool) {
    id in posts && !posts[id].deleted && (posts[id].owner == actor || admin)
  }

  function Create(posts: Posts, actor: int, d: Details, id: int, saved: bool): Option<Posts> {
    if actor < 1 || !ValidDetails(d) || !saved then None
    else Some(posts[id := Post(actor, Normalized(d), ACTIVE, false)])
  }

  function Update(posts: Posts, id: int, actor: int, admin: bool, d: Details, saved: bool): Option<Posts> {
    if actor < 1 || id < 1 || !ValidDetails(d) || !MayChange(posts, id, actor, admin) || !saved then None
    else Some(posts[id := posts[id].(details := Normalized(d))])
  }

  function Delete(posts: Posts, id: int, actor: int, admin: bool, saved: bool): Option<Posts> {
    if id < 1 || actor < 1 || !MayChange(posts, id, actor, admin) || !saved then None
    else Some(posts[id := posts[id].(deleted := true)])
  }

  function ParseStatus(requested: Option<string>): Option<int> {
    if requested.None? then None
    else
      var normalized := ToLower(Trim(requested.value));
      if normalized == "active" then Some(ACTIVE)
      else if normalized == "blocked" then Some(BLOCKED)
      else if normalized == "sold" then Some(SOLD)
      else None
  }

  predicate Moderated(posts: Posts, id: int, target: int)
    requires id in posts
  {
    target == BLOCKED || (posts[id].status == BLOCKED && target != posts[id].status)
  }

  function UpdateStatus(posts: Posts, id: int, actor: int, admin: bool, requested: Option<string>, saved: bool)
      : Option<Posts> {
    if id < 1 || actor < 1 || ParseStatus(requested).None? || !MayChange(posts, id, actor, admin) then None
    else if !admin && Moderated(posts, id, ParseStatus(requested).value) then None
    else if posts[id].status == ParseStatus(requested).value || !saved then None
    else Some(posts[id := posts[id].(status := ParseStatus(requested).value)])
  }

  // ---- the machine ----

  datatype World<R> = World(posts: Posts, cache: map<string, R>, keys: set<string>)

  datatype Event =
    | Search(query: SearchQuery)
    | CreatePost(actor: int, details: Details, id: int, saved: bool)
    | UpdatePost(id: int, actor: int, admin: bool, details: Details, saved: bool)
    | DeletePost(id: int, actor: int, admin: bool, saved: bool)
    | SetStatus(id: int, actor: int, admin: bool, requested: Option<string>, saved: bool)
    | Evict(key: string)

  function Written(posts: Posts, e: Event): Option<Posts> {
    match e
    case CreatePost(actor, d, id, saved) => Create(posts, actor, d, id, saved)
    case UpdatePost(id, actor, admin, d, saved) => Update(posts, id, actor, admin, d, saved)
    case DeletePost(id, actor, admin, saved) => Delete(posts, id, actor, admin, saved)
    case SetStatus(id, actor, admin, requested, saved) => UpdateStatus(posts, id, actor, admin, requested, saved)
    case _ => None
  }

  /** The answer of a search, and what it leaves in the cache; `list` is the listing query. */
  function Searched<R>(w: World<R>, q: SearchQuery, list: (Posts, Listing) -> R): (World<R>, Option<R>) {
    if VisibilityOf(q).None? then (w, None)
    else if BuildCacheKey(q) in w.cache then (w, Some(w.cache[BuildCacheKey(q)]))
    else
      var result := list(w.posts, ListingOf(q));
      (World(w.posts, w.cache[BuildCacheKey(q) := result], w.keys + {BuildCacheKey(q)}), Some(result))
  }

  function Invalidated<R>(w: World<R>): World<R> {
    World(w.posts, w.cache - w.keys, {})
  }

  /** Identity columns give out numbers not used before. */
  predicate NewIdentity(posts: Posts, e: Event) {
    e.CreatePost? ==> e.id >= 1 && e.id !in posts
  }

  predicate Enabled<R>(w: World<R>, e: Event) {
    NewIdentity(w.posts, e)
  }

  function Next<R>(w: World<R>, e: Event, list: (Posts, Listing) -> R): World<R> {
    match e
    case Search(q) => Searched(w, q, list).0
    case Evict(key) => w.(cache := w.cache - {key})
    case _ =>
      if Written(w.posts, e).Some? then Invalidated(w.(posts := Written(w.posts, e).value)) else w
  }

  predicate ValidRun<R>(w: World<R>, es: seq<Event>, list: (Posts, Listing) -> R)
    decreases es
  {
    es != [] ==> Enabled(w, es[0]) && ValidRun(Next(w, es[0], list), es[1..], list)
  }

  function After<R>(w: World<R>, es: seq<Event>, list: (Posts, Listing) -> R): World<R>
    requires ValidRun(w, es, list)
    decreases es
  {
    if es == [] then w else After(Next(w, es[0], list), es[1..], list)
  }

  // ---- a search is as good as uncached ----

  /** Every cached key is registered, and what a query without '|' would find is what the posts say now. */
  ghost predicate Coherent<R(!new)>(w: World<R>, list: (Posts, Listing) -> R) {
    && w.cache.Keys <= w.keys
    && forall q :: VisibilityOf(q).Some? && NoBar(q) && BuildCacheKey(q) in w.cache ==>
                     w.cache[BuildCacheKey(q)] == list(w.posts, ListingOf(q))
  }

  lemma SearchKeepsCoherent<R(!new)>(w: World<R>, q: SearchQuery, list: (Posts, Listing) -> R)
    requires Coherent(w, list)
    ensures Coherent(Searched(w, q, list).0, list)
  {
    if VisibilityOf(q).Some? && BuildCacheKey(q) !in w.cache {
      var v := Searched(w, q, list).0;
      forall r | VisibilityOf(r).Some? && NoBar(r) && BuildCacheKey(r) in v.cache
        ensures v.cache[BuildCacheKey(r)] == list(v.posts, ListingOf(r))
      {
        if BuildCacheKey(r) == BuildCacheKey(q) {
          EqualKeysMeanEqualListings(r, q);
        } else {
          assert BuildCacheKey(r) in w.cache;
        }
      }
    }
  }

  lemma EventKeepsCoherent<R(!new)>(w: World<R>, e: Event, list: (Posts, Listing) -> R)
    requires Coherent(w, list)
    ensures Coherent(Next(w, e, list), list)
  {
    match e
    case Search(q) => SearchKeepsCoherent(w, q, list);
    case Evict(key) =>
    case _ =>
      if Written(w.posts, e).Some? { assert Next(w, e, list).cache == map[]; }
  }

  lemma {:induction false} RunKeepsCoherent<R(!new)>(w: World<R>, es: seq<Event>, list: (Posts, Listing) -> R)
    requires Coherent(w, list) && ValidRun(w, es, list)
    ensures Coherent(After(w, es, list), list)
    decreases es
  {
    if es != [] {
      EventKeepsCoherent(w, es[0], list);
      RunKeepsCoherent(Next(w, es[0], list), es[1..], list);
    }
  }

  /** After any run, whatever else was searched, a query whose texts hold no '|' is answered as the listing query
      answers it on the posts as they are; a refused status gets no answer. */
  lemma SearchesAreUncached<R(!new)>(posts: Posts, es: seq<Event>, q: SearchQuery, list: (Posts, Listing) -> R)
    requires ValidRun(World(posts, map[], {}), es, list) && NoBar(q)
    ensures var w := After(World(posts, map[], {}), es, list);
            Searched(w, q, list).1 ==
            if VisibilityOf(q).Some? then Some(list(w.posts, ListingOf(q))) else None
  {
    RunKeepsCoherent(World(posts, map[], {}), es, list);
  }

  /** Every cached key is registered, whatever is searched. */
  lemma CachedKeysAreRegistered<R(!new)>(posts: Posts, es: seq<Event>, list: (Posts, Listing) -> R)
    requires ValidRun(World(posts, map[], {}), es, list)
    ensures var w := After(World(posts, map[], {}), es, list); w.cache.Keys <= w.keys
  {
    RunKeepsCoherent(World(posts, map[], {}), es, list);
  }

  // ---- the status machine ----

  predicate ByAdmin(e: Event) {
    match e
    case UpdatePost(_, _, admin, _, _) => admin
    case DeletePost(_, _, admin, _) => admin
    case SetStatus(_, _, admin, _, _) => admin
    case _ => false
  }

  function ActorOf(e: Event): int {
    match e
    case CreatePost(actor, _, _, _) => actor
    case UpdatePost(_, actor, _, _, _) => actor
    case DeletePost(_, actor, _, _) => actor
    case SetStatus(_, actor, _, _, _) => actor
    case _ => 0
  }

  predicate IsBlocked(posts: Posts, id: int) {
    id in posts && posts[id].status == BLOCKED
  }

  lemma EventWithoutAdmin<R>(w: World<R>, e: Event, list: (Posts, Listing) -> R, id: int)
    requires Enabled(w, e) && !ByAdmin(e)
    ensures var v := Next(w, e, list);
            && (IsBlocked(w.posts, id) <==> IsBlocked(v.posts, id))
            && (id in w.posts ==> id in v.posts && v.posts[id].owner == w.posts[id].owner)
            && (id in w.posts && w.posts[id].owner != ActorOf(e) ==> v.posts[id] == w.posts[id])
  {}

  /** Without an administrator nobody blocks a post, unblocks one, changes an owner, or touches the posts of a user
      who does not act. */
  lemma {:induction false} OnlyAdminsModerate<R>(w: World<R>, es: seq<Event>, list: (Posts, Listing) -> R, id: int)
    requires ValidRun(w, es, list) && forall e <- es :: !ByAdmin(e)
    ensures var v := After(w, es, list);
            && (IsBlocked(w.posts, id) <==> IsBlocked(v.posts, id))
            && (id in w.posts ==> id in v.posts && v.posts[id].owner == w.posts[id].owner)
            && (id in w.posts && (forall e <- es :: ActorOf(e) != w.posts[id].owner) ==> v.posts[id] == w.posts[id])
    decreases es
  {
    if es != [] {
      assert es[0] in es;
      EventWithoutAdmin(w, es[0], list, id);
      OnlyAdminsModerate(Next(w, es[0], list), es[1..], list, id);
    }
  }

  // ---- the services as written ----

  datatype Outcome = Done | InvalidRequest | InvalidStatus | NotFound | Forbidden | PersistenceFailed

  /** Why a post is not changed, in the order of the checks. */
  function ChangeOutcome(posts: Posts, id: int, actor: int, admin: bool, valid: bool, saved: bool): Outcome {
    if !valid then InvalidRequest
    else if id !in posts || posts[id].deleted then NotFound
    else if !MayChange(posts, id, actor, admin) then Forbidden
    else if saved then Done else PersistenceFailed
  }

  function StatusOutcome(posts: Posts, id: int, actor: int, admin: bool, requested: Option<string>, saved: bool)
      : Outcome {
    if id < 1 || actor < 1 || requested.None? || IsBlank(requested.value) then InvalidRequest
    else if ParseStatus(requested).None? then InvalidStatus
    else if !MayChange(posts, id, actor, admin) then ChangeOutcome(posts, id, actor, admin, true, saved)
    else if !admin && Moderated(posts, id, ParseStatus(requested).value) then Forbidden
    else if posts[id].status == ParseStatus(requested).value || saved then Done
    else PersistenceFailed
  }

  /** A refusal, or a save that failed, leaves posts, cache and registry as they were. After a save exactly this post is
      new or different, and nothing is cached any more. */
  ghost predicate Saves<R>(before: World<R>, outcome: Outcome, id: int, post: Post, after: World<R>) {
    after == if outcome == Done then World(before.posts[id := post], map[], {}) else before
  }

  /** A call that may not be made, a post that is not there, somebody else's post, and a save that fails, in this order. */
  predicate ChecksInOrder(posts: Posts, id: int, actor: int, admin: bool, invalid: bool, saved: bool, outcome: Outcome) {
    match outcome
    case InvalidRequest => invalid
    case NotFound => !invalid && !(id in posts && !posts[id].deleted)
    case Forbidden => !invalid && id in posts && !posts[id].deleted && posts[id].owner != actor && !admin
    case PersistenceFailed => !invalid && id in posts && !posts[id].deleted && (posts[id].owner == actor || admin) && !saved
    case Done => !invalid && id in posts && !posts[id].deleted && (posts[id].owner == actor || admin) && saved
    case InvalidStatus => false
  }

  /** The status asked for, whatever its case and the blanks around it. */
  predicate Asked(requested: Option<string>, word: string) {
    requested.Some? && ToLower(Trim(requested.value)) == word
  }

  /** The title and the description without blanks around them; everything else as given. */
  function Tidied(d: Details): Details {
    Details(d.category, Trim(d.title), Trim(d.description), d.price, d.city, d.area)
  }

  predicate Refusable(d: Details) {
    d.category < 1 || IsBlank(d.title) || (d.city.Some? && d.city.value < 1) || (d.area.Some? && d.area.value < 1)
  }

  class PostServices<R(!new)> {
    const list: (Posts, Listing) -> R
    var posts: Posts
    var cache: map<string, R>
    var cacheKeys: set<string>

    constructor (list: (Posts, Listing) -> R, posts: Posts)
      ensures Valid() && State() == World(posts, map[], {}) && this.list == list
    {
      this.list, this.posts, this.cache, this.cacheKeys := list, posts, map[], {};
    }

    /** The cache answers what the listing query would. */
    ghost predicate Valid()
      reads this
    {
      Coherent(State(), list)
    }

    function State(): World<R>
      reads this
    {
      World(posts, cache, cacheKeys)
    }

    /** Cached or not, a query whose texts hold no '|' gets the listing of the posts as they are. */
    method SearchPosts(query: SearchQuery) returns (result: Option<R>)
      requires Valid()
      modifies this`cache, this`cacheKeys
      ensures Valid() && (State(), result) == Searched(old(State()), query, list)
      ensures result.Some? ==>
                var key := BuildCacheKey(query);
                && key in cache && cache[key] == result.value && posts == old(posts)
                && (if key in old(cache) then State() == old(State())
                    else cache == old(cache)[key := result.value] && cacheKeys == old(cacheKeys) + {key})
      ensures NoBar(query) ==>
                result == if VisibilityOf(query).Some? then Some(list(posts, ListingOf(query))) else None
    {
      SearchKeepsCoherent(State(), query, list);
      var visibility := VisibilityOf(query);
      if visibility == None {
        return None;
      }
      var cacheKey := BuildCacheKey(query);
      if cacheKey in cache {
        return Some(cache[cacheKey]);
      }
      var pageResult := list(posts, ListingOf(query));
      cache := cache[cacheKey := pageResult];
      cacheKeys := cacheKeys + {cacheKey};
      return Some(pageResult);
    }

    /** Removes the registered keys one by one. */
    method InvalidateAll()
      modifies this`cache, this`cacheKeys
      ensures State() == Invalidated(old(State()))
      ensures old(cache).Keys <= old(cacheKeys) ==> cache == map[]
      ensures cacheKeys == {} && forall key :: key in old(cache) && key !in old(cacheKeys) ==>
                                                 key in cache && cache[key] == old(cache)[key]
    {
      var todo := cacheKeys;
      ghost var before, registered := cache, cacheKeys;
      while todo != {}
        invariant todo <= registered && cacheKeys == registered
        invariant cache == before - (registered - todo)
        decreases |todo|
      {
        var cacheKey := AnyOf(todo);
        cache := cache - {cacheKey};
        assert registered - (todo - {cacheKey}) == (registered - todo) + {cacheKey};
        todo := todo - {cacheKey};
      }
      assert registered - todo == registered;
      cacheKeys := {};
    }

    method CreateAsync(actor: int, details: Details, id: int, saved: bool) returns (outcome: Outcome)
      requires Valid() && id >= 1 && id !in posts
      modifies this
      ensures Valid() && State() == Next(old(State()), CreatePost(actor, details, id, saved), list)
      ensures outcome == if actor < 1 || !ValidDetails(details) then InvalidRequest
                         else if saved then Done else PersistenceFailed
      ensures outcome == InvalidRequest <==> actor < 1 || Refusable(details)
      ensures Saves(old(State()), outcome, id, Post(actor, Tidied(details), 0, false), State())
    {
      EventKeepsCoherent(State(), CreatePost(actor, details, id, saved), list);
      if actor < 1 || !ValidDetails(details) {
        return InvalidRequest;
      }
      if !saved {
        return PersistenceFailed;
      }
      posts := posts[id := Post(actor, Normalized(details), ACTIVE, false)];
      InvalidateAll();
      return Done;
    }

    method UpdateAsync(id: int, actor: int, admin: bool, details: Details, saved: bool) returns (outcome: Outcome)
      requires Valid()
      modifies this
      ensures Valid() && State() == Next(old(State()), UpdatePost(id, actor, admin, details, saved), list)
      ensures outcome == ChangeOutcome(old(posts), id, actor, admin, actor >= 1 && id >= 1 && ValidDetails(details), saved)
      ensures ChecksInOrder(old(posts), id, actor, admin, actor < 1 || id < 1 || Refusable(details), saved, outcome)
      ensures id in old(posts) ==>
                Saves(old(State()), outcome, id, old(posts)[id].(details := Tidied(details)), State())
      ensures id !in old(posts) ==> State() == old(State())
    {
      EventKeepsCoherent(State(), UpdatePost(id, actor, admin, details, saved), list);
      if actor < 1 || id < 1 || !ValidDetails(details) {
        return InvalidRequest;
      }
      if id !in posts || posts[id].deleted {
        return NotFound;
      }
      if posts[id].owner != actor && !admin {
        return Forbidden;
      }
      if !saved {
        return PersistenceFailed;
      }
      posts := posts[id := posts[id].(details := Normalized(details))];
      InvalidateAll();
      return Done;
    }

    method DeleteAsync(id: int, actor: int, admin: bool, saved: bool) returns (outcome: Outcome)
      requires Valid()
      modifies this
      ensures Valid() && State() == Next(old(State()), DeletePost(id, actor, admin, saved), list)
      ensures outcome == ChangeOutcome(old(posts), id, actor, admin, id >= 1 && actor >= 1, saved)
      ensures ChecksInOrder(old(posts), id, actor, admin, id < 1 || actor < 1, saved, outcome)
      ensures id in old(posts) ==> Saves(old(State()), outcome, id, old(posts)[id].(deleted := true), State())
      ensures id !in old(posts) ==> State() == old(State())
    {
      EventKeepsCoherent(State(), DeletePost(id, actor, admin, saved), list);
      if id < 1 || actor < 1 {
        return InvalidRequest;
      }
      if id !in posts || posts[id].deleted {
        return NotFound;
      }
      if posts[id].owner != actor && !admin {
        return Forbidden;
      }
      if !saved {
        return PersistenceFailed;
      }
      posts := posts[id := posts[id].(deleted := true)];
      InvalidateAll();
      return Done;
    }

    /** Setting the status a post has succeeds without saving or invalidating. */
    method UpdateStatusAsync(id: int, actor: int, admin: bool, requested: Option<string>, saved: bool)
        returns (outcome: Outcome)
      requires Valid()
      modifies this
      ensures Valid() && State() == Next(old(State()), SetStatus(id, actor, admin, requested, saved), list)
      ensures outcome == Done ==> id in posts && Some(posts[id].status) == ParseStatus(requested)
      ensures outcome == StatusOutcome(old(posts), id, actor, admin, requested, saved)
      ensures outcome != Done ==> State() == old(State())
      // Only an administrator blocks a post or lifts a block, and otherwise the owner or an administrator sets any status.
      ensures outcome == Forbidden <==>
              && id >= 1 && actor >= 1 && (Asked(requested, "active") || Asked(requested, "sold") || Asked(requested, "blocked"))
              && id in old(posts) && !old(posts)[id].deleted && !admin
              && (old(posts)[id].owner != actor || Asked(requested, "blocked") || old(posts)[id].status == 1)
      ensures id >= 1 && actor >= 1 && (Asked(requested, "active") || Asked(requested, "sold") || Asked(requested, "blocked"))
              && id in old(posts) && !old(posts)[id].deleted
              && (admin || (old(posts)[id].owner == actor && !Asked(requested, "blocked") && old(posts)[id].status != 1)) ==>
                var status := if Asked(requested, "active") then 0 else if Asked(requested, "sold") then 3 else 1;
                if old(posts)[id].status == status then outcome == Done && State() == old(State())
                else outcome == (if saved then Done else PersistenceFailed)
                     && Saves(old(State()), outcome, id, old(posts)[id].(status := status), State())
    {
      EventKeepsCoherent(State(), SetStatus(id, actor, admin, requested, saved), list);
      if id < 1 || actor < 1 || requested == None || IsBlank(requested.value) {
        if requested.Some? { TrimIsTrimmed(requested.value); }
        return InvalidRequest;
      }
      var target := ParseStatus(requested);
      if target == None {
        return InvalidStatus;
      }
      if id !in posts || posts[id].deleted {
        return NotFound;
      }
      if posts[id].owner != actor && !admin {
        return Forbidden;
      }
      if !admin {
        if target.value == BLOCKED {
          return Forbidden;
        }
        if posts[id].status == BLOCKED && target.value != posts[id].status {
          return Forbidden;
        }
      }
      if posts[id].status == target.value {
        return Done;
      }
      if !saved {
        return PersistenceFailed;
      }
      posts := posts[id := posts[id].(status := target.value)];
      InvalidateAll();
      return Done;
    }
  }
}
