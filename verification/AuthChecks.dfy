/** When a session check asks the server, what its answer leaves behind, and what a page load can rely on. */
module AuthChecks {
  import opened Wrappers
  import opened AuthProtocol
  import opened AuthTheorems

  const AUTH_KEYS: set<Key> :=
    {GuestKey, SessionHintKey, AdminHintKey, LegacyKey(0), LegacyKey(1), LegacyKey(2), FavoritesKey}

  // ---- storage ----

  lemma {:induction false} DropAllIsExact(l: Storage, keys: seq<Key>)
    ensures DropAll(l, keys).items == l.items - (set key <- keys)
  {
    if keys != [] {
      var front, last := keys[..|keys| - 1], keys[|keys| - 1];
      DropAllIsExact(l, front);
      assert (set key <- keys) == (set key <- front) + {last};
      assert l.items - (set key <- front) - {last} == l.items - ((set key <- front) + {last});
    }
  }

  /** Clearing removes exactly the auth keys; the logout flag is none of them. */
  lemma ClearIsExact(l: Storage)
    ensures ClearAuthStorage(l).items == l.items - AUTH_KEYS
  {
    DropAllIsExact(l, CLEARED);
    assert (set key <- CLEARED) == AUTH_KEYS by {
      assert CLEARED[0] == GuestKey && CLEARED[1] == SessionHintKey && CLEARED[2] == AdminHintKey;
      assert CLEARED[3] == LegacyKey(0) && CLEARED[4] == LegacyKey(1) && CLEARED[5] == LegacyKey(2);
      assert CLEARED[6] == FavoritesKey;
    }
  }

  /** What a returning Google sign-in restores: no logout flag, and a hint of the session. */
  function Redirected(items: map<Key, bool>, redirected: bool): map<Key, bool> {
    if redirected then (items - {LogoutKey})[SessionHintKey := true] else items
  }

  lemma OauthIsExact(l: Storage, t: Tab)
    ensures OauthStorage(l, t).items == Redirected(l.items, t.oauthSuccess)
  {
  }

  // ---- a check begins ----

  /** A stored session hint, or a key of an earlier version of the client. */
  predicate HintsSession(items: map<Key, bool>) {
    Stored(items, SessionHintKey) == Some(true) || exists n :: 0 <= n < 3 && LegacyKey(n) in items
  }

  /** The page asks the server: nobody logged out, and a session is shown or hinted at. */
  predicate Asks(items: map<Key, bool>, t: Tab) {
    && Stored(items, LogoutKey) != Some(true)
    && (t.renderedAuthenticated || t.renderedUser.Some? || HintsSession(items))
  }

  /** From l and t a check leads to m and t'. It begins exactly one run of its own and leaves the storage alone, exactly
      if it asks the server; otherwise the page ends as a guest, or signed out without any auth key. */
  ghost predicate ChecksExactly(items: map<Key, bool>, t: Tab, items': map<Key, bool>, t': Tab) {
    var restored := Redirected(items, t.oauthSuccess);
    var guestMode := Stored(restored, GuestKey) == Some(true);
    var started := t.(authCheckRunId := t.authCheckRunId + 1, oauthSuccess := false);
    if Asks(restored, t) then
      && items' == restored
      && t' == started.(loading := t.loading || !t.authCheckInitialized,
               checks := t.checks + [Check(t.authCheckRunId + 1, guestMode, false)])
    else
      var guest := guestMode && Stored(restored, LogoutKey) != Some(true);
      && items' == (if guest then restored else restored - AUTH_KEYS)
      && t' == started.(isAuthenticated := false, user := None, isGuest := guest,
               authCheckInitialized := true, loading := false)
  }

  lemma CheckIsExact(l: Storage, t: Tab)
    ensures ChecksExactly(l.items, t, StartCheck(l, t).0.items, StartCheck(l, t).1)
  {
    OauthIsExact(l, t);
    ClearIsExact(OauthStorage(l, t));
    HintIsExact(Redirected(l.items, t.oauthSuccess));
  }

  lemma HintIsExact(items: map<Key, bool>)
    ensures HasHint(items) <==> HintsSession(items)
  {
    if HasHint(items) && Stored(items, SessionHintKey) != Some(true) {
      var n := if LegacyKey(0) in items then 0 else if LegacyKey(1) in items then 1 else 2;
      assert LegacyKey(n) in items;
    }
  }

  // ---- a check is answered ----

  /** The last answer of the latest check. Success signs in and is remembered; without success guest mode goes on; a
      refusal signs out and clears the storage; a network error leaves a signed-in page and every stored key alone. */
  ghost predicate FinishesExactly(items: map<Key, bool>, t: Tab, guestMode: bool, result: Probe,
                                  items': map<Key, bool>, t': Tab) {
    var settled := t.(authCheckInitialized := true, loading := false);
    match result
    case Success(user) =>
      && items' == (if guestMode then items - {GuestKey} else items)[SessionHintKey := true][AdminHintKey := user.admin]
      && t' == settled.(isAuthenticated := true, user := Some(user), isGuest := false)
    case AuthError =>
      && items' == (if guestMode then items else items - AUTH_KEYS)
      && t' == settled.(isAuthenticated := false, user := None, isGuest := guestMode)
    case NetworkError =>
      && items' == items
      && t' == (if guestMode then settled.(isAuthenticated := false, user := None, isGuest := true)
                else if t.isAuthenticated && t.user.Some? then settled
                else settled.(isAuthenticated := false, user := None))
  }

  lemma FinishIsExact(l: Storage, t: Tab, guestMode: bool, result: Probe)
    ensures var (m, t') := FinishCheck(l, t, guestMode, result);
            FinishesExactly(l.items, t, guestMode, result, m.items, t')
  {
    ClearIsExact(l);
    if result.Success? {
      var kept := if guestMode then Drop(l, GuestKey) else l;
      assert Put(kept, SessionHintKey, true).items == kept.items[SessionHintKey := true];
    }
  }

  /** A first network error is asked again; a stale run answers in vain; the latest one decides. */
  ghost predicate AnswersExactly(items: map<Key, bool>, t: Tab, k: nat, result: Probe, items': map<Key, bool>, t': Tab)
    requires k < |t.checks|
  {
    var check := t.checks[k];
    if result == NetworkError && !check.retrying then
      items' == items && t' == t.(checks := t.checks[k := Check(check.id, check.guestMode, true)])
    else
      var rest := t.(checks := t.checks[..k] + t.checks[k + 1..]);
      if check.id != t.authCheckRunId then items' == items && t' == rest
      else FinishesExactly(items, rest, check.guestMode, result, items', t')
  }

  lemma AnswerIsExact(l: Storage, t: Tab, k: nat, result: Probe)
    requires k < |t.checks|
    ensures var (m, t') := ProbeAnswered(l, t, k, result); AnswersExactly(l.items, t, k, result, m.items, t')
  {
    FinishIsExact(l, t.(checks := Remove(t.checks, k)), t.checks[k].guestMode, result);
  }

  // ---- a page is loaded ----

  /** The latest run of page i is `id`, and the server has still to answer it. */
  ghost predicate Probing(w: World, i: nat, id: nat) {
    && i < |w.tabs| && w.tabs[i].authCheckRunId == id
    && exists k :: 0 <= k < |w.tabs[i].checks| && w.tabs[i].checks[k].id == id
  }

  /** What begins a later run in page i, cancels its run, or answers it for good. */
  predicate Supersedes(w: World, e: Event, i: nat)
    requires Enabled(w, e) && i < |w.tabs|
  {
    && !e.Open? && e.tab == i
    && match e
       case CheckAuth(_) => true
       case Logout(_) => true
       case GuestCalled(_) => true
       case StorageEvent(_) => !w.tabs[i].storageEvents[0].FavoritesKey?
       case ProbeDone(_, k, result) =>
         w.tabs[i].checks[k].id == w.tabs[i].authCheckRunId && (w.tabs[i].checks[k].retrying || !result.NetworkError?)
       case _ => false
  }

  lemma AnswerLeavesProbing(l: Storage, t: Tab, k: nat, result: Probe, j: nat)
    requires k < |t.checks| && j < |t.checks| && t.checks[j].id == t.authCheckRunId
    requires t.checks[k].id == t.authCheckRunId ==> result.NetworkError? && !t.checks[k].retrying
    ensures var t' := ProbeAnswered(l, t, k, result).1;
            && t'.authCheckRunId == t.authCheckRunId
            && exists n :: 0 <= n < |t'.checks| && t'.checks[n].id == t.authCheckRunId
  {
    var t' := ProbeAnswered(l, t, k, result).1;
    if t.checks[k].id == t.authCheckRunId || (result.NetworkError? && !t.checks[k].retrying) {
      assert t'.checks[j].id == t.checks[j].id;
    } else {
      assert t'.checks[if j < k then j else j - 1] == t.checks[j];
    }
  }

  lemma ProbingStays(w: World, e: Event, i: nat, id: nat)
    requires Enabled(w, e) && Probing(w, i, id) && !Supersedes(w, e, i)
    ensures Probing(Next(w, e), i, id)
  {
    var t := w.tabs[i];
    var j :| 0 <= j < |t.checks| && t.checks[j].id == id;
    if !e.Open? && e.tab == i {
      if e.ProbeDone? {
        AnswerLeavesProbing(Storage(w.items, []), t, e.check, e.result, j);
      } else {
        assert Next(w, e).tabs[i].checks == t.checks && Next(w, e).tabs[i].authCheckRunId == id;
      }
    } else {
      assert Next(w, e).tabs[i].checks == t.checks;
    }
  }

  /** Nothing after event n supersedes the run of page i that it began. */
  ghost predicate Unsuperseded(w0: World, es: seq<Event>, n: nat, i: nat)
    requires ValidRun(w0, es) && n <= |es|
  {
    |es| == n || (&& Unsuperseded(w0, es[..|es| - 1], n, i)
                  && i < |After(w0, es[..|es| - 1]).tabs|
                  && !Supersedes(After(w0, es[..|es| - 1]), es[|es| - 1], i))
  }

  /** A check that asks the server stays to be answered, whatever happens in any page, until something in its own page
      supersedes it. */
  lemma {:induction false} CheckStaysDue(w0: World, es: seq<Event>, n: nat, i: nat)
    requires ValidRun(w0, es) && n < |es| && es[n] == CheckAuth(i) && ValidRun(w0, es[..n])
    requires i < |After(w0, es[..n]).tabs|
    requires var w := After(w0, es[..n]); Asks(Redirected(w.items, w.tabs[i].oauthSuccess), w.tabs[i])
    requires Unsuperseded(w0, es, n + 1, i)
    ensures Probing(After(w0, es), i, After(w0, es[..n]).tabs[i].authCheckRunId + 1)
  {
    var pre, e := es[..|es| - 1], es[|es| - 1];
    if n + 1 == |es| {
      assert pre == es[..n];
      var w := After(w0, pre);
      CheckIsExact(Storage(w.items, []), w.tabs[i]);
      var t' := Next(w, e).tabs[i];
      assert t'.checks[|t'.checks| - 1].id == t'.authCheckRunId;
    } else {
      assert pre[..n] == es[..n];
      CheckStaysDue(w0, pre, n, i);
      ProbingStays(After(w0, pre), e, i, After(w0, es[..n]).tabs[i].authCheckRunId + 1);
    }
  }

  /** A page checks its session while a hint of one is stored, or it returns from Google, and nobody has logged out. When
      the server then answers that run with a user, the page is signed in as that user, whatever happened meanwhile in
      any other page; and the hint is stored for the next load. */
  lemma SessionIsRestored(w0: World, es: seq<Event>, n: nat, i: nat, k: nat, user: User)
    requires ValidRun(w0, es) && n < |es| && es[n] == CheckAuth(i) && ValidRun(w0, es[..n])
    requires i < |After(w0, es[..n]).tabs|
    requires var w := After(w0, es[..n]);
             w.tabs[i].oauthSuccess || (Stored(w.items, LogoutKey) != Some(true) && HintsSession(w.items))
    requires Unsuperseded(w0, es, n + 1, i)
    requires var w := After(w0, es);
             && Enabled(w, ProbeDone(i, k, Success(user)))
             && w.tabs[i].checks[k].id == After(w0, es[..n]).tabs[i].authCheckRunId + 1
    ensures Probing(After(w0, es), i, After(w0, es[..n]).tabs[i].authCheckRunId + 1)
    ensures var w := Next(After(w0, es), ProbeDone(i, k, Success(user)));
            && w.tabs[i].isAuthenticated && w.tabs[i].user == Some(user) && !w.tabs[i].isGuest && !w.tabs[i].loading
            && HintsSession(w.items) && Stored(w.items, GuestKey) == (
               if After(w0, es).tabs[i].checks[k].guestMode then None else Stored(After(w0, es).items, GuestKey))
  {
    CheckStaysDue(w0, es, n, i);
    var w := After(w0, es);
    AnswerIsExact(Storage(w.items, []), w.tabs[i], k, Success(user));
  }

  /** What one page changes in the storage, every other page hears: each changed key is among its storage events. */
  lemma ChangesAreHeard(w: World, e: Event, i: nat, key: Key)
    requires Inv(w) && OfTab(w, e) && i < |w.tabs| && i != e.tab
    requires Stored(Next(w, e).items, key) != Stored(w.items, key)
    ensures key in Next(w, e).tabs[i].storageEvents
  {
    OthersHear(w, e, i);
    LocalKeeps(w, e);
  }
}
