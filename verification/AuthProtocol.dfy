/**
 Session state of the web client: any number of browser tabs, each with its own controller, over one
 local storage. One event is the code of a handler between two `await`s; a storage event reaches the
 other tabs later, in the order of the writes. A page that is loaded, anew or again, is a tab of its own;
 one that is closed or left just does nothing more.
 */
module AuthProtocol {
  import opened Wrappers

  datatype Key = GuestKey | LogoutKey | SessionHintKey | AdminHintKey | LegacyKey(n: nat) | FavoritesKey

  datatype User = User(id: int, admin: bool)

  /** Local storage: a key is absent, or holds "true" or another text; and the storage events written so far. */
  datatype Storage = Storage(items: map<Key, bool>, written: seq<Key>)

  /** An overlapping session check: what it read before its first await, and where it stands. */
  datatype Check = Check(id: nat, guestMode: bool, retrying: bool)

  datatype Tab = Tab(
    isAuthenticated: bool, user: Option<User>, isGuest: bool, loading: bool,
    authCheckRunId: nat, authCheckInitialized: bool,
    renderedAuthenticated: bool, renderedUser: Option<User>,
    oauthSuccess: bool,
    checks: seq<Check>, guestCalls: nat, storageEvents: seq<Key>)

  datatype World = World(items: map<Key, bool>, tabs: seq<Tab>)

  const FRESH := Tab(false, None, false, true, 0, false, false, None, false, [], 0, [])

  datatype Probe = Success(user: User) | AuthError | NetworkError

  datatype Event =
    | CheckAuth(tab: nat)
    | ProbeDone(tab: nat, check: nat, result: Probe)
    | SessionSet(tab: nat, user: User)
    | LoginAborted(tab: nat)
    | Logout(tab: nat)
    | GuestCalled(tab: nat)
    | GuestDone(tab: nat)
    | Rendered(tab: nat)
    | OtherWrite(tab: nat, key: Key, value: Option<bool>)
    | StorageEvent(tab: nat)
    | Open(redirected: bool)

  // ---- local storage ----

  function Put(l: Storage, key: Key, value: bool): Storage {
    if key in l.items && l.items[key] == value then l
    else Storage(l.items[key := value], l.written + [key])
  }

  function Drop(l: Storage, key: Key): Storage {
    Storage(l.items - {key}, if key in l.items then l.written + [key] else l.written)
  }

  predicate IsTrue(items: map<Key, bool>, key: Key) {
    key in items && items[key]
  }

  predicate HasHint(items: map<Key, bool>) {
    IsTrue(items, SessionHintKey) || LegacyKey(0) in items || LegacyKey(1) in items || LegacyKey(2) in items
  }

  function DropAll(l: Storage, keys: seq<Key>): Storage {
    if keys == [] then l else Drop(DropAll(l, keys[..|keys| - 1]), keys[|keys| - 1])
  }

  const CLEARED: seq<Key> :=
    [GuestKey, SessionHintKey, AdminHintKey, LegacyKey(0), LegacyKey(1), LegacyKey(2), FavoritesKey]

  function ClearAuthStorage(l: Storage): Storage {
    DropAll(l, CLEARED)
  }

  function Remember(l: Storage, user: User): Storage {
    Put(Put(l, SessionHintKey, true), AdminHintKey, user.admin)
  }

  // ---- one controller ----

  function SignOut(t: Tab): Tab {
    t.(isAuthenticated := false, user := None, isGuest := false)
  }

  function BecomeGuest(t: Tab): Tab {
    t.(isAuthenticated := false, user := None, isGuest := true)
  }

  function SignIn(t: Tab, user: User): Tab {
    t.(isAuthenticated := true, user := Some(user), isGuest := false)
  }

  function Settled(t: Tab): Tab {
    t.(authCheckInitialized := true, loading := false)
  }

  /** A check that finds no session ends as a guest, or signed out with the storage cleared. */
  function WithoutSession(l: Storage, t: Tab, guestMode: bool): (Storage, Tab) {
    if guestMode then (l, Settled(BecomeGuest(t))) else (ClearAuthStorage(l), Settled(SignOut(t)))
  }

  function OauthStorage(l: Storage, t: Tab): Storage {
    if t.oauthSuccess then Put(Drop(l, LogoutKey), SessionHintKey, true) else l
  }

  /** What a new run does at once: end under the logout flag or without any hint, or begin to probe. */
  function Decide(l: Storage, t: Tab): (Storage, Tab) {
    if IsTrue(l.items, LogoutKey) then WithoutSession(l, t, false)
    else
      var guestMode := IsTrue(l.items, GuestKey);
      if !t.renderedAuthenticated && t.renderedUser.None? && !HasHint(l.items) then WithoutSession(l, t, guestMode)
      else (l, t.(checks := t.checks + [Check(t.authCheckRunId, guestMode, false)]))
  }

  /** checkAuth up to its first await. */
  function StartCheck(l: Storage, t: Tab): (Storage, Tab) {
    Decide(OauthStorage(l, t),
           t.(authCheckRunId := t.authCheckRunId + 1, oauthSuccess := false,
           loading := t.loading || !t.authCheckInitialized))
  }

  /** checkAuth after the session probe, for the latest run only. */
  function FinishCheck(l: Storage, t: Tab, guestMode: bool, result: Probe): (Storage, Tab) {
    match result
    case Success(user) =>
      (Remember(if guestMode then Drop(l, GuestKey) else l, user), Settled(SignIn(t, user)))
    case AuthError => WithoutSession(l, t, guestMode)
    case NetworkError =>
      if guestMode then WithoutSession(l, t, guestMode)
      else if t.isAuthenticated && t.user.Some? then (l, Settled(t))
      else (l, Settled(t.(isAuthenticated := false, user := None)))
  }

  function Remove<T>(xs: seq<T>, k: nat): seq<T>
    requires k < |xs|
  {
    xs[..k] + xs[k + 1..]
  }

  /** A network error is retried once, before the run looks whether it is still the latest. */
  function ProbeAnswered(l: Storage, t: Tab, k: nat, result: Probe): (Storage, Tab)
    requires k < |t.checks|
  {
    var check := t.checks[k];
    if result.NetworkError? && !check.retrying then
      (l, t.(checks := t.checks[k := check.(retrying := true)]))
    else
      var t1 := t.(checks := Remove(t.checks, k));
      if check.id != t.authCheckRunId then (l, t1) else FinishCheck(l, t1, check.guestMode, result)
  }

  function PersistSession(l: Storage, t: Tab, user: User): (Storage, Tab) {
    (Remember(Drop(Drop(l, GuestKey), LogoutKey), user), SignIn(t, user))
  }

  function DoLogout(l: Storage, t: Tab): (Storage, Tab) {
    (ClearAuthStorage(Put(l, LogoutKey, true)),
     SignOut(t).(authCheckRunId := t.authCheckRunId + 1, loading := false))
  }

  function CallForGuest(t: Tab): Tab {
    t.(authCheckRunId := t.authCheckRunId + 1, guestCalls := t.guestCalls + 1)
  }

  function FinishGuest(l: Storage, t: Tab): (Storage, Tab)
    requires t.guestCalls > 0
  {
    (Put(Drop(ClearAuthStorage(l), LogoutKey), GuestKey, true), BecomeGuest(t.(guestCalls := t.guestCalls - 1)))
  }

  // ---- all tabs ----

  predicate Enabled(w: World, e: Event) {
    e.Open? || OfTab(w, e)
  }

  /** The event is one of a page that is there. */
  predicate OfTab(w: World, e: Event) {
    && !e.Open? && e.tab < |w.tabs|
    && (e.ProbeDone? ==> e.check < |w.tabs[e.tab].checks|)
    && (e.GuestDone? ==> w.tabs[e.tab].guestCalls > 0)
    && (e.StorageEvent? ==> w.tabs[e.tab].storageEvents != [])
    && (e.OtherWrite? ==> e.key.LogoutKey? ==> e.value.None?)
  }

  function Local(w: World, e: Event): (Storage, Tab)
    requires OfTab(w, e)
  {
    var l, t := Storage(w.items, []), w.tabs[e.tab];
    match e
    case CheckAuth(_) => StartCheck(l, t)
    case ProbeDone(_, k, result) => ProbeAnswered(l, t, k, result)
    case SessionSet(_, user) => PersistSession(l, t, user)
    case LoginAborted(_) => (ClearAuthStorage(l), SignOut(t))
    case Logout(_) => DoLogout(l, t)
    case GuestCalled(_) => (l, CallForGuest(t))
    case GuestDone(_) => FinishGuest(l, t)
    case Rendered(_) => (l, t.(renderedAuthenticated := t.isAuthenticated, renderedUser := t.user))
    case OtherWrite(_, key, value) => (if value.Some? then Put(l, key, value.value) else Drop(l, key), t)
    case StorageEvent(_) =>
      var t1 := t.(storageEvents := t.storageEvents[1..]);
      if t.storageEvents[0].FavoritesKey? then (l, t1) else StartCheck(l, t1)
  }

  /** A page as it is loaded; the redirect from a Google sign-in leaves its marker in the address. */
  function Page(redirected: bool): Tab {
    FRESH.(oauthSuccess := redirected)
  }

  /** The writes of one tab are announced to every other tab. */
  function Handled(w: World, e: Event): World
    requires OfTab(w, e)
  {
    var (l, t) := Local(w, e);
    World(l.items, seq(|w.tabs|, i requires 0 <= i < |w.tabs| =>
      if i == e.tab then t else w.tabs[i].(storageEvents := w.tabs[i].storageEvents + l.written)))
  }

  function Next(w: World, e: Event): World
    requires Enabled(w, e)
  {
    if e.Open? then w.(tabs := w.tabs + [Page(e.redirected)]) else Handled(w, e)
  }

  /** No page is open; the storage holds what earlier visits left. */
  predicate Initial(w: World) {
    w.tabs == []
  }

  ghost predicate ValidRun(w0: World, es: seq<Event>)
    decreases |es|, 0
  {
    es == [] || (ValidRun(w0, es[..|es| - 1]) && Enabled(After(w0, es[..|es| - 1]), es[|es| - 1]))
  }

  ghost function After(w0: World, es: seq<Event>): World
    requires ValidRun(w0, es)
    decreases |es|, 1
  {
    if es == [] then w0 else Next(After(w0, es[..|es| - 1]), es[|es| - 1])
  }
}
