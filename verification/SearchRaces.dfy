/** The search cache under parallel calls: a search is cut between reading the posts, storing the answer and registering
    its key, a writer between its save, each removal of its sweep through the registry and the clearing of that. Every
    save makes a new version of the posts; the cache remembers which version an answer was read from. */
module SearchRaces {
  import opened Wrappers
  import opened SearchKeys
  import opened SearchCache

  const CACHE_LIFE := 30

  datatype Version = Version(posts: Posts, savedAt: int)

  /** How the sweep for a later save can miss an answer: it had come by when the answer was stored, or it did not find the
      key in the registry when it began. */
  datatype Miss = NotMissed | Overtaken | Unregistered

  datatype Cached<R> = Cached(result: R, version: nat, readAt: int, storedAt: int, miss: Miss)

  /** A search that has read the posts; `stored` when its answer is in the cache and its key not yet registered. */
  datatype Flight<R> = Flight(query: SearchQuery, result: R, version: nat, readAt: int, stored: bool)

  /** All versions so far, the saves whose sweep has not begun, and for each sweep the keys it is sure to remove yet. */
  datatype Race<R> = Race(versions: seq<Version>, due: set<nat>, sweeps: map<nat, set<string>>,
                          cached: map<string, Cached<R>>, registered: set<string>, flights: map<nat, Flight<R>>, now: int)

  /** A search that looked into the cache in vain reads the posts some time later. A sweep for version n removes the keys
      that were registered when it began, and perhaps others that are. */
  datatype Step =
    | ReadPosts(call: nat, query: SearchQuery)
    | Store(call: nat)
    | Register(call: nat)
    | Save(write: Event)
    | BeginSweep(n: nat)
    | RemoveKey(n: nat, key: string)
    | ClearKeys(n: nat)
    | Leave(key: string)
    | Tick(elapsed: nat)

  function Last<R>(w: Race<R>): nat
    requires w.versions != []
  {
    |w.versions| - 1
  }

  function Current<R>(w: Race<R>): Posts
    requires w.versions != []
  {
    w.versions[Last(w)].posts
  }

  predicate Hit<R>(w: Race<R>, q: SearchQuery)
    requires VisibilityOf(q).Some?
  {
    BuildCacheKey(q) in w.cached && w.now < w.cached[BuildCacheKey(q)].storedAt + CACHE_LIFE
  }

  /** The sweep for version n is sure to remove the key yet. */
  predicate WillRemove<R>(w: Race<R>, n: nat, key: string) {
    n in w.due || (n in w.sweeps && key in w.sweeps[n])
  }

  /** The sweep for some save after the version has come by already. */
  predicate TooLate<R>(w: Race<R>, version: nat, key: string) {
    exists n: nat :: version < n < |w.versions| && !WillRemove(w, n, key)
  }

  predicate MayTake<R>(w: Race<R>, e: Step) {
    match e
    case ReadPosts(call, q) => call !in w.flights && VisibilityOf(q).Some? && w.versions != []
    case Store(call) => call in w.flights && !w.flights[call].stored && VisibilityOf(w.flights[call].query).Some?
    case Register(call) => call in w.flights && w.flights[call].stored && VisibilityOf(w.flights[call].query).Some?
    case Save(write) => w.versions != [] && NewIdentity(Current(w), write)
    case BeginSweep(n) => n in w.due && n !in w.sweeps
    case RemoveKey(n, key) => n in w.sweeps && (key in w.sweeps[n] || key in w.registered)
    case ClearKeys(n) => n in w.sweeps && w.sweeps[n] == {}
    case _ => true
  }

  function StoreAnswer<R>(w: Race<R>, call: nat): Race<R>
    requires MayTake(w, Store(call))
  {
    var f := w.flights[call];
    var key := BuildCacheKey(f.query);
    var miss := if TooLate(w, f.version, key) then Overtaken else NotMissed;
    w.(cached := w.cached[key := Cached(f.result, f.version, f.readAt, w.now, miss)],
    flights := w.flights[call := f.(stored := true)])
  }

  /** The answers from before version n whose keys its sweep does not find are missed. */
  function Overlooked<R>(w: Race<R>, n: nat): map<string, Cached<R>> {
    map key | key in w.cached ::
      if w.cached[key].miss == NotMissed && w.cached[key].version < n && key !in w.registered
      then w.cached[key].(miss := Unregistered) else w.cached[key]
  }

  function Take<R>(w: Race<R>, e: Step, list: (Posts, Listing) -> R): Race<R>
    requires MayTake(w, e)
  {
    match e
    case ReadPosts(call, q) =>
      w.(flights := w.flights[call := Flight(q, list(Current(w), ListingOf(q)), Last(w), w.now, false)])
    case Store(call) => StoreAnswer(w, call)
    case Register(call) =>
      w.(registered := w.registered + {BuildCacheKey(w.flights[call].query)}, flights := w.flights - {call})
    case Save(write) =>
      if Written(Current(w), write).None? then w
      else w.(versions := w.versions + [Version(Written(Current(w), write).value, w.now)], due := w.due + {|w.versions|})
    case BeginSweep(n) =>
      w.(due := w.due - {n}, sweeps := w.sweeps[n := w.registered], cached := Overlooked(w, n))
    case RemoveKey(n, key) => w.(cached := w.cached - {key}, sweeps := w.sweeps[n := w.sweeps[n] - {key}])
    case ClearKeys(n) => w.(registered := {}, sweeps := w.sweeps - {n})
    case Leave(key) => w.(cached := w.cached - {key})
    case Tick(elapsed) => w.(now := w.now + elapsed)
  }

  predicate ValidSteps<R>(w: Race<R>, es: seq<Step>, list: (Posts, Listing) -> R)
    decreases es
  {
    es != [] ==> MayTake(w, es[0]) && ValidSteps(Take(w, es[0], list), es[1..], list)
  }

  function Ending<R>(w: Race<R>, es: seq<Step>, list: (Posts, Listing) -> R): Race<R>
    requires ValidSteps(w, es, list)
    decreases es
  {
    if es == [] then w else Ending(Take(w, es[0], list), es[1..], list)
  }

  function Start<R>(posts: Posts, now: int): Race<R> {
    Race([Version(posts, now)], {}, map[], map[], {}, map[], now)
  }

  /** Every save has been followed by its whole sweep. */
  predicate AtRest<R>(w: Race<R>) {
    w.due == {} && w.sweeps == map[]
  }

  // ---- the invariant ----

  /** The version was the current one at time t. */
  predicate CurrentAt(versions: seq<Version>, version: nat, t: int) {
    && version < |versions| && versions[version].savedAt <= t
    && (version + 1 < |versions| ==> t <= versions[version + 1].savedAt)
  }

  ghost predicate FlightFits<R>(w: Race<R>, f: Flight<R>, list: (Posts, Listing) -> R) {
    && VisibilityOf(f.query).Some? && f.readAt <= w.now && CurrentAt(w.versions, f.version, f.readAt)
    && f.result == list(w.versions[f.version].posts, ListingOf(f.query))
  }

  predicate Timed<R>(w: Race<R>, c: Cached<R>) {
    c.readAt <= c.storedAt <= w.now && CurrentAt(w.versions, c.version, c.readAt)
  }

  /** An answer is missed exactly if some later save will not remove it any more. */
  predicate Marked<R>(w: Race<R>, key: string, c: Cached<R>) {
    c.miss == NotMissed <==> !TooLate(w, c.version, key)
  }

  ghost predicate Answers<R(!new)>(w: Race<R>, list: (Posts, Listing) -> R) {
    forall q :: VisibilityOf(q).Some? && NoBar(q) && BuildCacheKey(q) in w.cached
                && w.cached[BuildCacheKey(q)].version < |w.versions| ==>
                  w.cached[BuildCacheKey(q)].result ==
                  list(w.versions[w.cached[BuildCacheKey(q)].version].posts, ListingOf(q))
  }

  ghost predicate Fits<R>(w: Race<R>, list: (Posts, Listing) -> R) {
    && w.versions != [] && w.versions[Last(w)].savedAt <= w.now
    && (forall key :: key in w.cached ==> Timed(w, w.cached[key]))
    && (forall call :: call in w.flights ==> FlightFits(w, w.flights[call], list))
  }

  predicate Sweeping<R>(w: Race<R>) {
    && w.versions != [] && (forall n :: n in w.due ==> n < |w.versions| && n !in w.sweeps)
    && (forall n :: n in w.sweeps ==> n < |w.versions|)
    && (forall key :: key in w.cached ==> Marked(w, key, w.cached[key]))
  }

  ghost predicate Inv<R(!new)>(w: Race<R>, list: (Posts, Listing) -> R) {
    Fits(w, list) && Sweeping(w) && Answers(w, list)
  }

  // ---- the answers are listings of their versions ----

  lemma StoreKeepsAnswers<R(!new)>(w: Race<R>, call: nat, list: (Posts, Listing) -> R)
    requires Fits(w, list) && Answers(w, list) && MayTake(w, Store(call))
    ensures Answers(Take(w, Store(call), list), list)
  {
    var f, v := w.flights[call], Take(w, Store(call), list);
    assert FlightFits(w, f, list);
    forall r | VisibilityOf(r).Some? && NoBar(r) && BuildCacheKey(r) in v.cached
               && v.cached[BuildCacheKey(r)].version < |v.versions|
      ensures v.cached[BuildCacheKey(r)].result ==
              list(v.versions[v.cached[BuildCacheKey(r)].version].posts, ListingOf(r))
    {
      if BuildCacheKey(r) == BuildCacheKey(f.query) {
        EqualKeysMeanEqualListings(r, f.query);
      } else {
        assert BuildCacheKey(r) in w.cached;
      }
    }
  }

  /** Apart from a store, entries keep their listing, and versions are added only. */
  ghost predicate KeepsEntries<R>(w: Race<R>, v: Race<R>) {
    && w.versions <= v.versions
    && forall key :: key in v.cached ==> key in w.cached && v.cached[key] == w.cached[key].(miss := v.cached[key].miss)
  }

  lemma OthersKeepEntries<R>(w: Race<R>, e: Step, list: (Posts, Listing) -> R)
    requires MayTake(w, e) && !e.Store?
    ensures KeepsEntries(w, Take(w, e, list))
  {}

  lemma OthersKeepAnswers<R(!new)>(w: Race<R>, v: Race<R>, list: (Posts, Listing) -> R)
    requires Fits(w, list) && Answers(w, list) && KeepsEntries(w, v)
    ensures Answers(v, list)
  {
    forall q | VisibilityOf(q).Some? && NoBar(q) && BuildCacheKey(q) in v.cached
               && v.cached[BuildCacheKey(q)].version < |v.versions|
      ensures v.cached[BuildCacheKey(q)].result ==
              list(v.versions[v.cached[BuildCacheKey(q)].version].posts, ListingOf(q))
    {
      assert Timed(w, w.cached[BuildCacheKey(q)]);
    }
  }

  // ---- times and versions ----

  predicate Later<R>(w: Race<R>, v: Race<R>) {
    && w.now <= v.now && w.versions <= v.versions && w.versions != []
    && (|v.versions| > |w.versions| ==> v.versions[|w.versions|].savedAt == w.now)
  }

  lemma StaysCurrentAt<R>(w: Race<R>, v: Race<R>, version: nat, t: int)
    requires Later(w, v) && CurrentAt(w.versions, version, t) && t <= w.now
    ensures CurrentAt(v.versions, version, t)
  {}

  lemma StepIsLater<R>(w: Race<R>, e: Step, list: (Posts, Listing) -> R)
    requires w.versions != [] && w.versions[Last(w)].savedAt <= w.now && MayTake(w, e)
    ensures var v := Take(w, e, list); Later(w, v) && v.versions[Last(v)].savedAt <= v.now
  {}

  lemma StepKeepsTimes<R>(w: Race<R>, e: Step, key: string, list: (Posts, Listing) -> R)
    requires Fits(w, list) && MayTake(w, e)
    ensures key in Take(w, e, list).cached ==> Timed(Take(w, e, list), Take(w, e, list).cached[key])
  {
    var v := Take(w, e, list);
    StepIsLater(w, e, list);
    if key !in v.cached {
    } else if e.Store? && key == BuildCacheKey(w.flights[e.call].query) {
      assert FlightFits(w, w.flights[e.call], list);
      StaysCurrentAt(w, v, w.flights[e.call].version, w.flights[e.call].readAt);
    } else {
      assert Timed(w, w.cached[key]) && v.cached[key] == w.cached[key].(miss := v.cached[key].miss);
      StaysCurrentAt(w, v, w.cached[key].version, w.cached[key].readAt);
    }
  }

  lemma StepKeepsFlight<R>(w: Race<R>, e: Step, call: nat, list: (Posts, Listing) -> R)
    requires Fits(w, list) && MayTake(w, e)
    ensures call in Take(w, e, list).flights ==> FlightFits(Take(w, e, list), Take(w, e, list).flights[call], list)
  {
    var v := Take(w, e, list);
    StepIsLater(w, e, list);
    if call in w.flights && call in v.flights {
      var f := w.flights[call];
      assert FlightFits(w, f, list) && v.flights[call] == f.(stored := v.flights[call].stored);
      StaysCurrentAt(w, v, f.version, f.readAt);
    }
  }

  lemma StepKeepsFits<R>(w: Race<R>, e: Step, list: (Posts, Listing) -> R)
    requires Fits(w, list) && MayTake(w, e)
    ensures Fits(Take(w, e, list), list)
  {
    StepIsLater(w, e, list);
    var v := Take(w, e, list);
    forall key | key in v.cached ensures Timed(v, v.cached[key]) { StepKeepsTimes(w, e, key, list); }
    forall call | call in v.flights ensures FlightFits(v, v.flights[call], list) { StepKeepsFlight(w, e, call, list); }
  }

  // ---- what the sweeps will remove ----

  lemma SweepOutlook<R>(w: Race<R>, e: Step, list: (Posts, Listing) -> R, key: string, n: nat)
    requires Sweeping(w) && MayTake(w, e) && n < |w.versions|
    ensures !(e.BeginSweep? && e.n == n && key !in w.registered) && !(e.RemoveKey? && e.key == key) ==>
              (WillRemove(Take(w, e, list), n, key) <==> WillRemove(w, n, key))
    ensures e.BeginSweep? && e.n == n && key !in w.registered ==> !WillRemove(Take(w, e, list), n, key)
  {}

  /** Being too late for the sweeps depends on what they will remove, and on nothing else. */
  lemma SameOutlook<R>(w: Race<R>, v: Race<R>, version: nat, key: string)
    requires w.versions <= v.versions
    requires forall n: nat :: version < n < |w.versions| ==> (WillRemove(v, n, key) <==> WillRemove(w, n, key))
    requires forall n: nat :: |w.versions| <= n < |v.versions| ==> WillRemove(v, n, key)
    ensures TooLate(v, version, key) <==> TooLate(w, version, key)
  {}

  lemma StepKeepsMark<R>(w: Race<R>, e: Step, key: string, list: (Posts, Listing) -> R)
    requires Sweeping(w) && MayTake(w, e)
    ensures key in Take(w, e, list).cached ==> Marked(Take(w, e, list), key, Take(w, e, list).cached[key])
  {
    var v := Take(w, e, list);
    if key !in v.cached {
      return;
    }
    var c := v.cached[key];
    if e.BeginSweep? && c.version < e.n && key !in w.registered {
      SweepOutlook(w, e, list, key, e.n);
      assert !WillRemove(v, e.n, key);
    } else {
      forall n: nat | c.version < n < |w.versions| ensures WillRemove(v, n, key) <==> WillRemove(w, n, key) {
        SweepOutlook(w, e, list, key, n);
      }
      SameOutlook(w, v, c.version, key);
      assert e.Store? || Marked(w, key, w.cached[key]);
    }
  }

  lemma StepKeepsSweeping<R>(w: Race<R>, e: Step, list: (Posts, Listing) -> R)
    requires Sweeping(w) && MayTake(w, e)
    ensures Sweeping(Take(w, e, list))
  {
    var v := Take(w, e, list);
    forall key | key in v.cached ensures Marked(v, key, v.cached[key]) { StepKeepsMark(w, e, key, list); }
  }

  /** Each step of a search, a save or a sweep keeps the versions, times and listings of the answers, and which answers
      are missed. */
  lemma StepKeepsInv<R(!new)>(w: Race<R>, e: Step, list: (Posts, Listing) -> R)
    requires Inv(w, list) && MayTake(w, e)
    ensures Inv(Take(w, e, list), list)
  {
    StepKeepsFits(w, e, list);
    StepKeepsSweeping(w, e, list);
    if e.Store? {
      StoreKeepsAnswers(w, e.call, list);
    } else {
      OthersKeepEntries(w, e, list);
      OthersKeepAnswers(w, Take(w, e, list), list);
    }
  }

  lemma {:induction false} StepsKeepInv<R(!new)>(w: Race<R>, es: seq<Step>, list: (Posts, Listing) -> R)
    requires Inv(w, list) && ValidSteps(w, es, list)
    ensures Inv(Ending(w, es, list), list)
    decreases es
  {
    if es != [] {
      StepKeepsInv(w, es[0], list);
      StepsKeepInv(Take(w, es[0], list), es[1..], list);
    }
  }

  // ---- how stale an answer can be ----

  /** The answer is the listing of one version; if that is not the current one, the next came less than 30 seconds ago,
      or as much longer as the search waited between reading the posts and storing the answer. */
  ghost predicate RecentlyCurrent<R>(w: Race<R>, c: Cached<R>, l: Listing, list: (Posts, Listing) -> R) {
    && c.version < |w.versions| && c.result == list(w.versions[c.version].posts, l)
    && (c.version + 1 < |w.versions| ==>
          w.now - w.versions[c.version + 1].savedAt < CACHE_LIFE + (c.storedAt - c.readAt))
  }

  lemma HitsAreRecent<R(!new)>(w: Race<R>, q: SearchQuery, list: (Posts, Listing) -> R)
    requires Inv(w, list) && VisibilityOf(q).Some? && NoBar(q) && Hit(w, q)
    ensures RecentlyCurrent(w, w.cached[BuildCacheKey(q)], ListingOf(q), list)
  {
    assert Timed(w, w.cached[BuildCacheKey(q)]);
  }

  /** Whatever searches, writers and sweeps overlap, a cached answer to a query without '|' is the listing of posts that
      were current at most that long ago. */
  lemma StaleWindow<R(!new)>(posts: Posts, start: int, es: seq<Step>, q: SearchQuery, list: (Posts, Listing) -> R)
    requires ValidSteps(Start<R>(posts, start), es, list) && VisibilityOf(q).Some? && NoBar(q)
    requires Hit(Ending(Start<R>(posts, start), es, list), q)
    ensures var w := Ending(Start<R>(posts, start), es, list);
            RecentlyCurrent(w, w.cached[BuildCacheKey(q)], ListingOf(q), list)
  {
    StepsKeepInv(Start<R>(posts, start), es, list);
    HitsAreRecent(Ending(Start<R>(posts, start), es, list), q, list);
  }

  /** Once every save has been followed by its whole sweep, a cached answer is of the current posts exactly when no sweep
      for a later save has missed it: by having come by before the answer was stored, or by beginning while its key was
      not registered. */
  lemma FreshExactly<R(!new)>(posts: Posts, start: int, es: seq<Step>, key: string, list: (Posts, Listing) -> R)
    requires ValidSteps(Start<R>(posts, start), es, list)
    requires var w := Ending(Start<R>(posts, start), es, list); key in w.cached && AtRest(w)
    ensures var w := Ending(Start<R>(posts, start), es, list);
            w.versions != [] && (w.cached[key].version == Last(w) <==> w.cached[key].miss == NotMissed)
  {
    StepsKeepInv(Start<R>(posts, start), es, list);
    var w := Ending(Start<R>(posts, start), es, list);
    assert Timed(w, w.cached[key]) && Marked(w, key, w.cached[key]);
    if w.cached[key].version != Last(w) { assert !WillRemove(w, Last(w), key); }
  }

  /** The step misses nothing: no answer is stored after the sweep for a later save has come by, and no sweep begins while
      an answer from before its save is cached under a key that is not registered. */
  predicate MissesNothing<R>(w: Race<R>, e: Step)
    requires MayTake(w, e)
  {
    match e
    case Store(call) => !TooLate(w, w.flights[call].version, BuildCacheKey(w.flights[call].query))
    case BeginSweep(n) => forall key <- w.cached :: w.cached[key].version < n ==> key in w.registered
    case _ => true
  }

  predicate NothingMissed<R>(w: Race<R>, es: seq<Step>, list: (Posts, Listing) -> R)
    requires ValidSteps(w, es, list)
    decreases es
  {
    es != [] ==> MissesNothing(w, es[0]) && NothingMissed(Take(w, es[0], list), es[1..], list)
  }

  lemma {:induction false} NoneIsMissed<R>(w: Race<R>, es: seq<Step>, list: (Posts, Listing) -> R)
    requires ValidSteps(w, es, list) && NothingMissed(w, es, list)
    requires forall key <- w.cached :: w.cached[key].miss == NotMissed
    ensures forall key <- Ending(w, es, list).cached :: Ending(w, es, list).cached[key].miss == NotMissed
    decreases es
  {
    if es != [] { NoneIsMissed(Take(w, es[0], list), es[1..], list); }
  }

  /** After a run in which nothing is missed, once every sweep is done, every cached answer to a query without '|' is what
      the listing query would answer now. */
  lemma UnmissedIsUncached<R(!new)>(posts: Posts, start: int, es: seq<Step>, q: SearchQuery, list: (Posts, Listing) -> R)
    requires ValidSteps(Start<R>(posts, start), es, list) && NothingMissed(Start<R>(posts, start), es, list)
    requires VisibilityOf(q).Some? && NoBar(q)
    requires var w := Ending(Start<R>(posts, start), es, list); Hit(w, q) && AtRest(w)
    ensures var w := Ending(Start<R>(posts, start), es, list);
            w.versions != [] && w.cached[BuildCacheKey(q)].result == list(Current(w), ListingOf(q))
  {
    NoneIsMissed(Start<R>(posts, start), es, list);
    FreshExactly(posts, start, es, BuildCacheKey(q), list);
    StaleWindow(posts, start, es, q, list);
  }

  // ---- runs that miss an answer ----

  lemma OneStep<R>(w: Race<R>, e: Step, rest: seq<Step>, list: (Posts, Listing) -> R)
    requires MayTake(w, e) && ValidSteps(Take(w, e, list), rest, list)
    ensures ValidSteps(w, [e] + rest, list) && Ending(w, [e] + rest, list) == Ending(Take(w, e, list), rest, list)
  {
    assert ([e] + rest)[1..] == rest;
  }

  lemma {:induction false} StepsOn<R>(w: Race<R>, first: seq<Step>, rest: seq<Step>, list: (Posts, Listing) -> R)
    requires ValidSteps(w, first, list) && ValidSteps(Ending(w, first, list), rest, list)
    ensures ValidSteps(w, first + rest, list)
    ensures Ending(w, first + rest, list) == Ending(Ending(w, first, list), rest, list)
    decreases first
  {
    if first == [] {
      assert first + rest == rest;
    } else {
      StepsOn(Take(w, first[0], list), first[1..], rest, list);
      assert first + rest == [first[0]] + (first[1..] + rest);
      OneStep(w, first[0], first[1..] + rest, list);
    }
  }

  /** A sweep that has begun goes through its keys and clears the registry. */
  lemma {:induction false} SweepGoesOn<R>(w: Race<R>, n: nat, list: (Posts, Listing) -> R) returns (es: seq<Step>)
    requires n in w.sweeps
    ensures ValidSteps(w, es, list)
    ensures var v := Ending(w, es, list);
            && v.versions == w.versions && v.due == w.due && v.sweeps == w.sweeps - {n} && v.registered == {}
            && v.flights == w.flights && v.now == w.now
            && forall key :: key in w.cached && key !in w.sweeps[n] ==> key in v.cached && v.cached[key] == w.cached[key]
    decreases |w.sweeps[n]|
  {
    if w.sweeps[n] == {} {
      OneStep(w, ClearKeys(n), [], list);
      es := [ClearKeys(n)];
    } else {
      var key := ElementOf(w.sweeps[n]);
      var v := Take(w, RemoveKey(n, key), list);
      var rest := SweepGoesOn(v, n, list);
      OneStep(w, RemoveKey(n, key), rest, list);
      es := [RemoveKey(n, key)] + rest;
      assert v.sweeps - {n} == w.sweeps - {n};
    }
  }

  /** The run leads from one state to the other. */
  ghost predicate Leads<R>(w: Race<R>, es: seq<Step>, v: Race<R>, list: (Posts, Listing) -> R) {
    ValidSteps(w, es, list) && Ending(w, es, list) == v
  }

  lemma First<R>(w: Race<R>, e: Step, rest: seq<Step>, v: Race<R>, list: (Posts, Listing) -> R) returns (es: seq<Step>)
    requires MayTake(w, e) && Leads(Take(w, e, list), rest, v, list)
    ensures Leads(w, es, v, list) && es == [e] + rest
  {
    OneStep(w, e, rest, list);
    es := [e] + rest;
  }

  lemma Joined<R>(w: Race<R>, first: seq<Step>, mid: Race<R>, rest: seq<Step>, v: Race<R>, list: (Posts, Listing) -> R)
      returns (es: seq<Step>)
    requires Leads(w, first, mid, list) && Leads(mid, rest, v, list)
    ensures Leads(w, es, v, list) && es == first + rest
  {
    StepsOn(w, first, rest, list);
    es := first + rest;
  }

  /** A new version whose sweep has begun, at once. */
  function SavedAndSweeping<R>(w: Race<R>, posts: Posts): Race<R> {
    w.(versions := w.versions + [Version(posts, w.now)], sweeps := map[|w.versions| := w.registered],
       cached := Overlooked(w, |w.versions|))
  }

  lemma SaveAndSweep<R>(w: Race<R>, write: Event, posts: Posts, list: (Posts, Listing) -> R) returns (es: seq<Step>)
    requires w.versions != [] && AtRest(w) && NewIdentity(Current(w), write) && Written(Current(w), write) == Some(posts)
    ensures Leads(w, es, SavedAndSweeping(w, posts), list)
  {
    var n, w1 := |w.versions|, Take(w, Save(write), list);
    assert w1.due - {n} == {};
    assert Overlooked(w1, n) == Overlooked(w, n);
    es := First(w1, BeginSweep(n), [], SavedAndSweeping(w, posts), list);
    es := First(w, Save(write), es, SavedAndSweeping(w, posts), list);
  }

  /** An answer that is stored and registered. */
  function Stored<R>(w: Race<R>, q: SearchQuery, c: Cached<R>): Race<R>
    requires VisibilityOf(q).Some?
  {
    w.(cached := w.cached[BuildCacheKey(q) := c], registered := w.registered + {BuildCacheKey(q)})
  }

  lemma StoreAndRegister<R>(w: Race<R>, call: nat, miss: Miss, list: (Posts, Listing) -> R) returns (es: seq<Step>)
    requires call in w.flights && !w.flights[call].stored && VisibilityOf(w.flights[call].query).Some?
    requires var f := w.flights[call];
             miss == if TooLate(w, f.version, BuildCacheKey(f.query)) then Overtaken else NotMissed
    ensures var f := w.flights[call];
            Leads(w, es, Stored(w, f.query, Cached(f.result, f.version, f.readAt, w.now, miss)).(flights := w.flights - {call}),
                  list)
  {
    var f, w1 := w.flights[call], Take(w, Store(call), list);
    var v := Stored(w, f.query, Cached(f.result, f.version, f.readAt, w.now, miss)).(flights := w.flights - {call});
    assert w1.flights - {call} == w.flights - {call};
    es := First(w1, Register(call), [], v, list);
    es := First(w, Store(call), es, v, list);
  }

  /** A cached answer to the query is hit now, and no more a second from now. */
  predicate LastSecond<R>(w: Race<R>, q: SearchQuery)
    requires VisibilityOf(q).Some?
  {
    Hit(w, q) && w.now + 1 == w.cached[BuildCacheKey(q)].storedAt + CACHE_LIFE
  }

  function Flown<R>(w: Race<R>, q: SearchQuery, call: nat, list: (Posts, Listing) -> R): Race<R>
    requires VisibilityOf(q).Some? && w.versions != []
  {
    w.(flights := w.flights[call := Flight(q, list(Current(w), ListingOf(q)), Last(w), w.now, false)])
  }

  lemma StoreLate<R>(w: Race<R>, call: nat, d: nat, list: (Posts, Listing) -> R) returns (es: seq<Step>, v: Race<R>)
    requires w.versions != [] && AtRest(w) && call in w.flights && !w.flights[call].stored
    requires VisibilityOf(w.flights[call].query).Some? && w.flights[call].version < Last(w)
    ensures Leads(w, es, v, list) && v.versions == w.versions && AtRest(v) && v.now == w.now + d + CACHE_LIFE - 1
    ensures LastSecond(v, w.flights[call].query)
    ensures var f := w.flights[call];
            v.cached[BuildCacheKey(f.query)] == Cached(f.result, f.version, f.readAt, w.now + d, Overtaken)
  {
    var f, w1 := w.flights[call], Take(w, Tick(d), list);
    assert !WillRemove(w1, Last(w1), BuildCacheKey(f.query));
    es := StoreAndRegister(w1, call, Overtaken, list);
    var w2 := Ending(w1, es, list);
    v := Take(w2, Tick(CACHE_LIFE - 1), list);
    var last := First(w2, Tick(CACHE_LIFE - 1), [], v, list);
    es := Joined(w1, es, w2, last, v, list);
    es := First(w, Tick(d), es, v, list);
  }

  /** The window is reached, from every state at rest: a search whose posts are saved over and swept meanwhile stores the
      old listing d seconds after the save, which is then answered for another 29 seconds, and not a second longer. */
  lemma OvertakenStaysStale<R(!new)>(w: Race<R>, q: SearchQuery, call: nat, write: Event, posts: Posts, d: nat,
                                     list: (Posts, Listing) -> R)
      returns (es: seq<Step>, v: Race<R>)
    requires w.versions != [] && AtRest(w) && VisibilityOf(q).Some? && !Hit(w, q) && call !in w.flights
    requires NewIdentity(Current(w), write) && Written(Current(w), write) == Some(posts)
    ensures Leads(w, es, v, list) && v.versions == w.versions + [Version(posts, w.now)] && AtRest(v)
    ensures v.now == w.now + d + CACHE_LIFE - 1 && LastSecond(v, q)
    ensures v.cached[BuildCacheKey(q)].result == list(Current(w), ListingOf(q))
            && v.cached[BuildCacheKey(q)].miss == Overtaken
  {
    var n, w1 := |w.versions|, Flown(w, q, call, list);
    var saved := SaveAndSweep(w1, write, posts, list);
    var w2 := SavedAndSweeping(w1, posts);
    var sweep := SweepGoesOn(w2, n, list);
    var w3 := Ending(w2, sweep, list);
    assert w3.sweeps == map[];
    var last;
    last, v := StoreLate(w3, call, d, list);
    es := Joined(w2, sweep, w3, last, v, list);
    es := Joined(w1, saved, w2, es, v, list);
    es := First(w, ReadPosts(call, q), es, v, list);
  }

  /** A search that reads, stores and registers while a sweep that does not know its key is under way: the clearing of the
      registry at the end of the sweep leaves the answer in the cache and its key unregistered. */
  lemma RegistrationIsLost<R(!new)>(w: Race<R>, q: SearchQuery, call: nat, write: Event, posts: Posts,
                                    list: (Posts, Listing) -> R)
      returns (es: seq<Step>, v: Race<R>)
    requires w.versions != [] && AtRest(w) && VisibilityOf(q).Some? && call !in w.flights
    requires !Hit(w, q) && BuildCacheKey(q) !in w.registered
    requires NewIdentity(Current(w), write) && Written(Current(w), write) == Some(posts)
    ensures Leads(w, es, v, list) && v.versions == w.versions + [Version(posts, w.now)] && AtRest(v) && v.now == w.now
    ensures v.registered == {} && BuildCacheKey(q) in v.cached
    ensures v.cached[BuildCacheKey(q)] == Cached(list(posts, ListingOf(q)), |w.versions|, w.now, w.now, NotMissed)
  {
    var n, key := |w.versions|, BuildCacheKey(q);
    var saved := SaveAndSweep(w, write, posts, list);
    var w1 := SavedAndSweeping(w, posts);
    var w2 := Flown(w1, q, call, list);
    var stored := StoreAndRegister(w2, call, NotMissed, list);
    var w3 := Ending(w2, stored, list);
    var sweep := SweepGoesOn(w3, n, list);
    v := Ending(w3, sweep, list);
    assert v.sweeps == map[];
    es := Joined(w2, stored, w3, sweep, v, list);
    es := First(w1, ReadPosts(call, q), es, v, list);
    es := Joined(w, saved, w1, es, v, list);
  }

  lemma SweepOfNothing<R>(w: Race<R>, write: Event, posts: Posts, key: string, list: (Posts, Listing) -> R)
      returns (es: seq<Step>, v: Race<R>)
    requires w.versions != [] && AtRest(w) && w.registered == {} && key in w.cached
    requires w.cached[key].version < |w.versions| && w.cached[key].miss == NotMissed
    requires NewIdentity(Current(w), write) && Written(Current(w), write) == Some(posts)
    ensures Leads(w, es, v, list) && v.now == w.now + CACHE_LIFE - 1 && AtRest(v)
    ensures v.versions == w.versions + [Version(posts, w.now)]
    ensures key in v.cached && v.cached[key] == w.cached[key].(miss := Unregistered)
  {
    var n := |w.versions|;
    var saved := SaveAndSweep(w, write, posts, list);
    var w1 := SavedAndSweeping(w, posts);
    var w2 := Take(w1, ClearKeys(n), list);
    assert w2.sweeps == map[];
    v := Take(w2, Tick(CACHE_LIFE - 1), list);
    es := First(w2, Tick(CACHE_LIFE - 1), [], v, list);
    es := First(w1, ClearKeys(n), es, v, list);
    es := Joined(w, saved, w1, es, v, list);
  }

  /** From every state at rest in which the key is not registered: after such a lost registration the next save's sweep does
      not find the key, and the answer stays for its 30 seconds although no save came between its reading and its
      storing. */
  lemma LostRegistrationStaysStale<R(!new)>(w: Race<R>, q: SearchQuery, call: nat, write: Event, posts: Posts,
                                            next: Event, newer: Posts, list: (Posts, Listing) -> R)
      returns (es: seq<Step>, v: Race<R>)
    requires w.versions != [] && AtRest(w) && VisibilityOf(q).Some? && call !in w.flights
    requires !Hit(w, q) && BuildCacheKey(q) !in w.registered
    requires NewIdentity(Current(w), write) && Written(Current(w), write) == Some(posts)
    requires NewIdentity(posts, next) && Written(posts, next) == Some(newer)
    ensures Leads(w, es, v, list) && AtRest(v) && v.now == w.now + CACHE_LIFE - 1 && LastSecond(v, q)
    ensures v.versions == w.versions + [Version(posts, w.now)] + [Version(newer, w.now)]
    ensures v.cached[BuildCacheKey(q)] == Cached(list(posts, ListingOf(q)), |w.versions|, w.now, w.now, Unregistered)
  {
    var w1, last;
    es, w1 := RegistrationIsLost(w, q, call, write, posts, list);
    last, v := SweepOfNothing(w1, next, newer, BuildCacheKey(q), list);
    es := Joined(w, es, w1, last, v, list);
  }
}
