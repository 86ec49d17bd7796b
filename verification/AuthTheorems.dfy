/** What holds of every tab's session state, whatever the interleaving. */
module AuthTheorems {
  import opened Wrappers
  import opened AuthProtocol

  predicate LoggedOut(w: World) {
    IsTrue(w.items, LogoutKey)
  }

  /** A check that may still change this tab: the latest run. */
  predicate HasLiveCheck(t: Tab) {
    exists k :: 0 <= k < |t.checks| && t.checks[k].id == t.authCheckRunId
  }

  predicate Coherent(t: Tab) {
    && (t.isAuthenticated <==> t.user.Some?)
    && !(t.isGuest && t.isAuthenticated)
    && (forall k :: 0 <= k < |t.checks| ==> t.checks[k].id <= t.authCheckRunId)
  }

  /** Under a set logout flag, a tab that is or may become authenticated has the flag's event still coming. */
  predicate Notified(items: map<Key, bool>, t: Tab) {
    IsTrue(items, LogoutKey) && (t.isAuthenticated || HasLiveCheck(t)) ==> LogoutKey in t.storageEvents
  }

  predicate TabInv(items: map<Key, bool>, t: Tab) {
    Coherent(t) && Notified(items, t)
  }

  predicate Inv(w: World) {
    forall i :: 0 <= i < |w.tabs| ==> TabInv(w.items, w.tabs[i])
  }

  // ---- one handler ----

  /** What is stored under a key, if anything. */
  function Stored(items: map<Key, bool>, key: Key): Option<bool> {
    if key in items then Some(items[key]) else None
  }

  /** From l to m no event was lost, and every change of a key was announced. */
  ghost predicate Announces(l: Storage, m: Storage) {
    && (forall key <- l.written :: key in m.written)
    && (forall key :: Stored(m.items, key) != Stored(l.items, key) ==> key in m.written)
  }

  lemma {:induction false} DropAllAnnounces(l: Storage, keys: seq<Key>)
    requires LogoutKey !in keys
    ensures Announces(l, DropAll(l, keys))
    ensures IsTrue(DropAll(l, keys).items, LogoutKey) <==> IsTrue(l.items, LogoutKey)
  {
    if keys != [] { DropAllAnnounces(l, keys[..|keys| - 1]); }
  }

  lemma ClearAnnounces(l: Storage)
    ensures Announces(l, ClearAuthStorage(l))
    ensures IsTrue(ClearAuthStorage(l).items, LogoutKey) <==> IsTrue(l.items, LogoutKey)
  {
    DropAllAnnounces(l, CLEARED);
  }

  lemma OauthAnnounces(l: Storage, t: Tab)
    ensures Announces(l, OauthStorage(l, t))
    ensures IsTrue(OauthStorage(l, t).items, LogoutKey) <==> IsTrue(l.items, LogoutKey) && !t.oauthSuccess
  {
  }

  lemma AnnouncesOn(l: Storage, mid: Storage, m: Storage)
    requires Announces(l, mid) && Announces(mid, m)
    ensures Announces(l, m)
  {
  }

  lemma DecideAnnounces(l: Storage, t: Tab)
    ensures var m := Decide(l, t).0; Announces(l, m) && (IsTrue(m.items, LogoutKey) <==> IsTrue(l.items, LogoutKey))
  {
    ClearAnnounces(l);
  }

  lemma DecideTab(l: Storage, t: Tab)
    requires Coherent(t) && !HasLiveCheck(t)
    ensures Coherent(Decide(l, t).1)
    ensures IsTrue(l.items, LogoutKey) ==> !Decide(l, t).1.isAuthenticated && !HasLiveCheck(Decide(l, t).1)
  {
  }

  lemma StartCheckAnnounces(l: Storage, t: Tab)
    ensures Announces(l, StartCheck(l, t).0)
    ensures IsTrue(StartCheck(l, t).0.items, LogoutKey) <==> IsTrue(l.items, LogoutKey) && !t.oauthSuccess
  {
    var l1 := OauthStorage(l, t);
    var t1 := t.(authCheckRunId := t.authCheckRunId + 1, oauthSuccess := false,
                 loading := t.loading || !t.authCheckInitialized);
    OauthAnnounces(l, t);
    DecideAnnounces(l1, t1);
    AnnouncesOn(l, l1, Decide(l1, t1).0);
  }

  lemma StartCheckTab(l: Storage, t: Tab)
    requires Coherent(t)
    ensures Coherent(StartCheck(l, t).1)
    ensures IsTrue(l.items, LogoutKey) && !t.oauthSuccess ==>
              !StartCheck(l, t).1.isAuthenticated && !HasLiveCheck(StartCheck(l, t).1)
  {
    OauthAnnounces(l, t);
    DecideTab(OauthStorage(l, t),
              t.(authCheckRunId := t.authCheckRunId + 1, oauthSuccess := false,
                 loading := t.loading || !t.authCheckInitialized));
  }

  lemma StartCheckKeeps(l: Storage, t: Tab)
    requires Coherent(t)
    ensures Announces(l, StartCheck(l, t).0) && TabInv(StartCheck(l, t).0.items, StartCheck(l, t).1)
    ensures IsTrue(l.items, LogoutKey) && !t.oauthSuccess ==>
              && IsTrue(StartCheck(l, t).0.items, LogoutKey)
              && !StartCheck(l, t).1.isAuthenticated && !HasLiveCheck(StartCheck(l, t).1)
  {
    StartCheckAnnounces(l, t);
    StartCheckTab(l, t);
  }

  lemma RememberAnnounces(l: Storage, user: User)
    ensures Announces(l, Remember(l, user))
    ensures IsTrue(Remember(l, user).items, LogoutKey) <==> IsTrue(l.items, LogoutKey)
  {
  }

  lemma WithoutSessionKeeps(l: Storage, t: Tab, guestMode: bool)
    requires Coherent(t) && (IsTrue(l.items, LogoutKey) ==> LogoutKey in t.storageEvents || !HasLiveCheck(t))
    ensures var (m, t') := WithoutSession(l, t, guestMode);
            && Announces(l, m) && TabInv(m.items, t')
            && (IsTrue(m.items, LogoutKey) <==> IsTrue(l.items, LogoutKey))
            && !t'.isAuthenticated && t'.checks == t.checks
  {
    ClearAnnounces(l);
  }

  lemma FinishCheckKeeps(l: Storage, t: Tab, guestMode: bool, result: Probe)
    requires Coherent(t) && (IsTrue(l.items, LogoutKey) ==> LogoutKey in t.storageEvents)
    ensures var (m, t') := FinishCheck(l, t, guestMode, result); Announces(l, m) && TabInv(m.items, t')
  {
    match result
    case Success(user) => RememberAnnounces(if guestMode then Drop(l, GuestKey) else l, user);
    case AuthError => WithoutSessionKeeps(l, t, guestMode);
    case NetworkError => if guestMode { WithoutSessionKeeps(l, t, guestMode); }
  }

  lemma ProbeAnsweredKeeps(l: Storage, t: Tab, k: nat, result: Probe)
    requires TabInv(l.items, t) && k < |t.checks|
    ensures var (m, t') := ProbeAnswered(l, t, k, result); Announces(l, m) && TabInv(m.items, t')
  {
    var check := t.checks[k];
    var (m, t') := ProbeAnswered(l, t, k, result);
    if result.NetworkError? && !check.retrying {
      forall j | 0 <= j < |t'.checks| ensures t'.checks[j].id == t.checks[j].id { }
    } else {
      var t1 := t.(checks := Remove(t.checks, k));
      forall j | 0 <= j < |t1.checks| ensures t1.checks[j] == t.checks[if j < k then j else j + 1] { }
      if check.id == t.authCheckRunId { FinishCheckKeeps(l, t1, check.guestMode, result); }
    }
  }

  lemma LogoutKeeps(l: Storage, t: Tab)
    requires TabInv(l.items, t)
    ensures var (m, t') := DoLogout(l, t);
            && Announces(l, m) && TabInv(m.items, t') && IsTrue(m.items, LogoutKey)
            && !t'.isAuthenticated && !HasLiveCheck(t')
  {
    ClearAnnounces(Put(l, LogoutKey, true));
  }

  lemma LocalKeeps(w: World, e: Event)
    requires OfTab(w, e) && TabInv(w.items, w.tabs[e.tab])
    ensures var (m, t') := Local(w, e); Announces(Storage(w.items, []), m) && TabInv(m.items, t')
  {
    var l, t := Storage(w.items, []), w.tabs[e.tab];
    match e
    case CheckAuth(_) => StartCheckKeeps(l, t);
    case ProbeDone(_, k, result) => ProbeAnsweredKeeps(l, t, k, result);
    case LoginAborted(_) => ClearAnnounces(l);
    case Logout(_) => LogoutKeeps(l, t);
    case GuestDone(_) => ClearAnnounces(l);
    case StorageEvent(_) =>
      if !t.storageEvents[0].FavoritesKey? { StartCheckKeeps(l, t.(storageEvents := t.storageEvents[1..])); }
    case _ =>
  }

  // ---- all tabs, all runs ----

  lemma OthersHear(w: World, e: Event, i: nat)
    requires OfTab(w, e) && i < |w.tabs| && i != e.tab
    ensures Next(w, e).items == Local(w, e).0.items && |Next(w, e).tabs| == |w.tabs|
    ensures Next(w, e).tabs[i] ==
            w.tabs[i].(storageEvents := w.tabs[i].storageEvents + Local(w, e).0.written)
  {
  }

  lemma Extended(w0: World, es: seq<Event>, e: Event)
    requires ValidRun(w0, es) && Enabled(After(w0, es), e)
    ensures ValidRun(w0, es + [e]) && After(w0, es + [e]) == Next(After(w0, es), e)
  {
    assert (es + [e])[..|es|] == es;
  }

  lemma PageKeepsInv(w: World, redirected: bool)
    requires Inv(w)
    ensures Inv(Next(w, Open(redirected)))
  {
    var w' := Next(w, Open(redirected));
    forall i | 0 <= i < |w'.tabs| ensures TabInv(w'.items, w'.tabs[i]) {
      if i < |w.tabs| { assert TabInv(w.items, w.tabs[i]); }
    }
  }

  lemma HandlerKeepsInv(w: World, e: Event)
    requires Inv(w) && OfTab(w, e)
    ensures Inv(Handled(w, e))
  {
    LocalKeeps(w, e);
    var (m, t') := Local(w, e);
    var w' := Handled(w, e);
    forall i | 0 <= i < |w'.tabs|
      ensures TabInv(w'.items, w'.tabs[i])
    {
      if i != e.tab {
        assert TabInv(w.items, w.tabs[i]);
        assert w'.tabs[i].checks == w.tabs[i].checks;
      }
    }
  }

  lemma EventKeepsInv(w: World, e: Event)
    requires Inv(w) && Enabled(w, e)
    ensures Inv(Next(w, e))
  {
    if e.Open? { PageKeepsInv(w, e.redirected); } else { HandlerKeepsInv(w, e); }
  }

  lemma {:induction false} RunKeepsInv(w0: World, es: seq<Event>)
    requires Initial(w0) && ValidRun(w0, es)
    ensures Inv(After(w0, es))
  {
    if es != [] {
      RunKeepsInv(w0, es[..|es| - 1]);
      EventKeepsInv(After(w0, es[..|es| - 1]), es[|es| - 1]);
    }
  }

  /** In every tab and every interleaving: authenticated exactly when there is a user, never also a guest,
      and never under a set logout flag once the flag's storage event was handled. */
  lemma SessionStateIsConsistent(w0: World, es: seq<Event>, i: nat)
    requires Initial(w0) && ValidRun(w0, es) && i < |After(w0, es).tabs|
    ensures var t := After(w0, es).tabs[i];
            && (t.isAuthenticated <==> t.user.Some?)
            && !(t.isGuest && t.isAuthenticated)
            && (LoggedOut(After(w0, es)) && LogoutKey !in t.storageEvents ==> !t.isAuthenticated)
  {
    RunKeepsInv(w0, es);
  }

  /** One page at a time: only the page that was opened last does anything. */
  ghost predicate OneAtATime(w0: World, es: seq<Event>)
    requires ValidRun(w0, es)
  {
    es == [] || (&& OneAtATime(w0, es[..|es| - 1])
                 && (!es[|es| - 1].Open? ==> es[|es| - 1].tab == |After(w0, es[..|es| - 1]).tabs| - 1))
  }

  /** With one page at a time, through any reloads and returns, no storage event is ever due for it, so the logout flag
      alone rules out a session. */
  lemma {:induction false} SingleTabLogoutFlag(w0: World, es: seq<Event>)
    requires Initial(w0) && ValidRun(w0, es) && OneAtATime(w0, es) && After(w0, es).tabs != []
    ensures var w := After(w0, es);
            && w.tabs[|w.tabs| - 1].storageEvents == []
            && (LoggedOut(w) ==> !w.tabs[|w.tabs| - 1].isAuthenticated)
  {
    RunKeepsInv(w0, es);
    var pre, e := es[..|es| - 1], es[|es| - 1];
    if !e.Open? {
      SingleTabLogoutFlag(w0, pre);
      LocalShape(After(w0, pre), e);
    }
    var w := After(w0, es);
    assert TabInv(w.items, w.tabs[|w.tabs| - 1]);
  }

  // ---- logout cancels checks, and sticks ----

  /** The answer of a check that is not the latest run changes neither storage nor session state. */
  lemma StaleCheckIsInert(w: World, i: nat, k: nat, result: Probe)
    requires OfTab(w, ProbeDone(i, k, result)) && w.tabs[i].checks[k].id != w.tabs[i].authCheckRunId
    ensures var w' := Next(w, ProbeDone(i, k, result));
            && w'.items == w.items && |w'.tabs| == |w.tabs|
            && w'.tabs[i] == w.tabs[i].(checks := w'.tabs[i].checks)
            && forall j :: 0 <= j < |w.tabs| && j != i ==> w'.tabs[j] == w.tabs[j]
  {
    var w' := Next(w, ProbeDone(i, k, result));
    forall j | 0 <= j < |w.tabs| && j != i
      ensures w'.tabs[j] == w.tabs[j]
    {
      assert w.tabs[j].storageEvents + [] == w.tabs[j].storageEvents;
    }
  }

  /** What a handler may do to the run id, the redirect marker and the queue of storage events. */
  lemma LocalShape(w: World, e: Event)
    requires OfTab(w, e)
    ensures var t, t' := w.tabs[e.tab], Local(w, e).1;
            && t.authCheckRunId <= t'.authCheckRunId
            && (e.Logout? ==> t.authCheckRunId < t'.authCheckRunId)
            && (t'.oauthSuccess ==> t.oauthSuccess)
            && t'.storageEvents == (if e.StorageEvent? then t.storageEvents[1..] else t.storageEvents)
  {
    var l, t := Storage(w.items, []), w.tabs[e.tab];
    match e
    case CheckAuth(_) => StartCheckShape(l, t);
    case StorageEvent(_) => StartCheckShape(l, t.(storageEvents := t.storageEvents[1..]));
    case ProbeDone(_, k, result) => ProbeAnsweredShape(l, t, k, result);
    case _ =>
  }

  lemma StartCheckShape(l: Storage, t: Tab)
    ensures var t' := StartCheck(l, t).1;
            && t'.authCheckRunId == t.authCheckRunId + 1 && !t'.oauthSuccess && t'.storageEvents == t.storageEvents
  {
  }

  lemma FinishCheckShape(l: Storage, t: Tab, guestMode: bool, result: Probe)
    ensures var t' := FinishCheck(l, t, guestMode, result).1;
            && t'.authCheckRunId == t.authCheckRunId && t'.oauthSuccess == t.oauthSuccess
            && t'.storageEvents == t.storageEvents
  {
  }

  lemma ProbeAnsweredShape(l: Storage, t: Tab, k: nat, result: Probe)
    requires k < |t.checks|
    ensures var t' := ProbeAnswered(l, t, k, result).1;
            && t'.authCheckRunId == t.authCheckRunId && t'.oauthSuccess == t.oauthSuccess
            && t'.storageEvents == t.storageEvents
  {
    FinishCheckShape(l, t.(checks := Remove(t.checks, k)), t.checks[k].guestMode, result);
  }

  lemma RunIdGrows(w: World, e: Event, i: nat)
    requires Enabled(w, e) && i < |w.tabs|
    ensures |Next(w, e).tabs| >= |w.tabs|
    ensures w.tabs[i].authCheckRunId <= Next(w, e).tabs[i].authCheckRunId
    ensures e == Logout(i) ==> w.tabs[i].authCheckRunId < Next(w, e).tabs[i].authCheckRunId
  {
    if !e.Open? { LocalShape(w, e); }
  }

  lemma {:induction false} RunIdGrowsOverRuns(w0: World, es: seq<Event>, k: nat, i: nat)
    requires ValidRun(w0, es) && k <= |es| && ValidRun(w0, es[..k]) && i < |After(w0, es[..k]).tabs|
    ensures |After(w0, es).tabs| >= |After(w0, es[..k]).tabs|
    ensures After(w0, es[..k]).tabs[i].authCheckRunId <= After(w0, es).tabs[i].authCheckRunId
  {
    if k == |es| {
      assert es[..k] == es;
    } else {
      var pre := es[..|es| - 1];
      assert pre[..k] == es[..k];
      RunIdGrowsOverRuns(w0, pre, k, i);
      RunIdGrows(After(w0, pre), es[|es| - 1], i);
    }
  }

  /** A check begun before a logout never changes the session state after it. */
  lemma CheckBegunBeforeLogoutIsInert(w0: World, es: seq<Event>, n: nat, i: nat, k: nat, result: Probe)
    requires ValidRun(w0, es) && n < |es| && es[n] == Logout(i)
    requires ValidRun(w0, es[..n]) && ValidRun(w0, es[..n + 1]) && Enabled(After(w0, es[..n]), Logout(i))
    requires Enabled(After(w0, es), ProbeDone(i, k, result))
    requires After(w0, es).tabs[i].checks[k].id <= After(w0, es[..n]).tabs[i].authCheckRunId
    ensures var w, w' := After(w0, es), Next(After(w0, es), ProbeDone(i, k, result));
            w'.items == w.items && w'.tabs[i] == w.tabs[i].(checks := w'.tabs[i].checks)
  {
    assert es[..n + 1][..n] == es[..n];
    RunIdGrows(After(w0, es[..n]), Logout(i), i);
    RunIdGrowsOverRuns(w0, es, n + 1, i);
    StaleCheckIsInert(After(w0, es), i, k, result);
  }

  /** Everything but a sign-in by the user, entering guest mode, or other code that drops the flag. */
  predicate KeepsFlag(e: Event) {
    match e
    case SessionSet(_, _) => false
    case GuestDone(_) => false
    case Open(redirected) => !redirected
    case OtherWrite(_, key, _) => !key.LogoutKey?
    case _ => true
  }

  predicate StaysOut(w: World, i: nat) {
    && i < |w.tabs| && LoggedOut(w) && !w.tabs[i].isAuthenticated && !HasLiveCheck(w.tabs[i])
    && NoRedirectWaits(w)
  }

  lemma LocalStaysOut(w: World, e: Event)
    requires Inv(w) && OfTab(w, e) && KeepsFlag(e) && LoggedOut(w) && !w.tabs[e.tab].oauthSuccess
    ensures var (m, t') := Local(w, e);
            && IsTrue(m.items, LogoutKey) && !t'.oauthSuccess
            && (!w.tabs[e.tab].isAuthenticated && !HasLiveCheck(w.tabs[e.tab]) ==>
                  !t'.isAuthenticated && !HasLiveCheck(t'))
  {
    var l, t := Storage(w.items, []), w.tabs[e.tab];
    match e
    case CheckAuth(_) => CheckStaysOut(l, t);
    case StorageEvent(_) => CheckStaysOut(l, t.(storageEvents := t.storageEvents[1..]));
    case Logout(_) =>
      LogoutKeeps(l, t);
      LocalShape(w, e);
    case ProbeDone(_, k, result) => ProbeStaysOut(l, t, k, result);
    case LoginAborted(_) => ClearAnnounces(l);
    case _ =>
  }

  lemma CheckStaysOut(l: Storage, t: Tab)
    requires Coherent(t) && IsTrue(l.items, LogoutKey) && !t.oauthSuccess
    ensures var (m, t') := StartCheck(l, t);
            IsTrue(m.items, LogoutKey) && !t'.oauthSuccess && !t'.isAuthenticated && !HasLiveCheck(t')
  {
    StartCheckKeeps(l, t);
    StartCheckShape(l, t);
  }

  lemma ProbeStaysOut(l: Storage, t: Tab, k: nat, result: Probe)
    requires k < |t.checks| && IsTrue(l.items, LogoutKey)
    ensures var (m, t') := ProbeAnswered(l, t, k, result);
            && IsTrue(m.items, LogoutKey) && t'.oauthSuccess == t.oauthSuccess
            && (!t.isAuthenticated && !HasLiveCheck(t) ==> !t'.isAuthenticated && !HasLiveCheck(t'))
  {
    var check := t.checks[k];
    var (m, t') := ProbeAnswered(l, t, k, result);
    if result.NetworkError? && !check.retrying {
      forall j | 0 <= j < |t'.checks| ensures t'.checks[j].id == t.checks[j].id { }
    } else if check.id != t.authCheckRunId {
      forall j | 0 <= j < |t'.checks| ensures t'.checks[j] == t.checks[if j < k then j else j + 1] { }
    } else {
      FinishKeepsFlag(l, t.(checks := Remove(t.checks, k)), check.guestMode, result);
    }
  }

  lemma FinishKeepsFlag(l: Storage, t: Tab, guestMode: bool, result: Probe)
    ensures IsTrue(FinishCheck(l, t, guestMode, result).0.items, LogoutKey) <==> IsTrue(l.items, LogoutKey)
    ensures FinishCheck(l, t, guestMode, result).1.oauthSuccess == t.oauthSuccess
  {
    ClearAnnounces(l);
  }

  /** No tab has a redirect from Google still to handle. */
  predicate NoRedirectWaits(w: World) {
    forall j :: 0 <= j < |w.tabs| ==> !w.tabs[j].oauthSuccess
  }

  /** After a logout, with no redirect waiting at that moment, the flag stays set and the tab stays signed out through
      every check, storage event, retry and logout of any tab, until somebody signs in again or enters guest mode. */
  lemma {:induction false} LogoutSticks(w0: World, es: seq<Event>, n: nat, i: nat)
    requires Initial(w0) && ValidRun(w0, es) && n < |es| && es[n] == Logout(i)
    requires ValidRun(w0, es[..n]) && NoRedirectWaits(After(w0, es[..n]))
    requires forall j :: n < j < |es| ==> KeepsFlag(es[j])
    ensures StaysOut(After(w0, es), i)
  {
    var pre, e := es[..|es| - 1], es[|es| - 1];
    var w := After(w0, pre);
    RunKeepsInv(w0, pre);
    if n + 1 == |es| {
      assert pre == es[..n];
      LogoutKeeps(Storage(w.items, []), w.tabs[i]);
    } else {
      assert pre[..n] == es[..n];
      LogoutSticks(w0, pre, n, i);
      if !e.Open? { LocalStaysOut(w, e); }
    }
  }
}
