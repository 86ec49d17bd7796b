/** The auth controller of one tab as the object its hooks make up, over the browser's storage object. */
module AuthControllerObject {
  import opened Wrappers
  import opened AuthProtocol
  import opened AuthTheorems
  import opened AuthChecks

  class LocalStorage {
    var items: map<Key, bool>
    var written: seq<Key>

    function Snapshot(): Storage
      reads this
    {
      Storage(items, written)
    }

    constructor (items: map<Key, bool>)
      ensures Snapshot() == Storage(items, [])
    {
      this.items := items;
      written := [];
    }

    /** A handler starts: what earlier ones wrote is announced to the other tabs by now. */
    method BeginHandler()
      modifies this`written
      ensures Snapshot() == Storage(old(items), [])
    {
      written := [];
    }

    method SetItem(key: Key, value: bool)
      modifies this
      ensures Snapshot() == Put(old(Snapshot()), key, value)
    {
      if key !in items || items[key] != value {
        items := items[key := value];
        written := written + [key];
      }
    }

    method RemoveItem(key: Key)
      modifies this
      ensures Snapshot() == Drop(old(Snapshot()), key)
    {
      if key in items {
        items := items - {key};
        written := written + [key];
      } else {
        assert items - {key} == items;
      }
    }
  }

  class AuthController {
    const storage: LocalStorage
    var isAuthenticated: bool
    var user: Option<User>
    var isGuest: bool
    var loading: bool
    var authCheckRunId: nat
    var authCheckInitialized: bool
    var renderedAuthenticated: bool
    var renderedUser: Option<User>
    var oauthSuccess: bool
    var checks: seq<Check>
    var guestCalls: nat
    var storageEvents: seq<Key>

    // What earlier visits left, which page this one is, and everything that happened in any page.
    ghost const world: World
    ghost const tab: nat
    ghost var run: seq<Event>

    /** This tab and the storage are where the run of all tabs has led. */
    ghost predicate Valid()
      reads this, storage
    {
      && Initial(world) && ValidRun(world, run)
      && After(world, run).items == storage.items
      && tab < |After(world, run).tabs| && After(world, run).tabs[tab] == Snapshot()
    }

    function Snapshot(): Tab
      reads this
    {
      Tab(isAuthenticated, user, isGuest, loading, authCheckRunId, authCheckInitialized,
          renderedAuthenticated, renderedUser, oauthSuccess, checks, guestCalls, storageEvents)
    }

    /** The page is loaded, after everything that has happened in other pages. */
    constructor (storage: LocalStorage, redirected: bool, ghost world: World, ghost past: seq<Event>)
      requires Initial(world) && ValidRun(world, past) && After(world, past).items == storage.items
      ensures Valid() && this.storage == storage && this.world == world && run == past + [Open(redirected)]
      ensures tab == |After(world, past).tabs| && Snapshot() == Page(redirected)
    {
      this.storage, this.world, tab := storage, world, |After(world, past).tabs|;
      isAuthenticated, user, isGuest, loading := false, None, false, true;
      authCheckRunId, authCheckInitialized := 0, false;
      renderedAuthenticated, renderedUser, oauthSuccess := false, None, redirected;
      checks, guestCalls, storageEvents := [], 0, [];
      run := past + [Open(redirected)];
      new;
      Extended(world, past, Open(redirected));
    }

    /** Notes an event of this tab that the fields and the storage already show. */
    ghost method Record(e: Event)
      requires Initial(world) && ValidRun(world, run) && OfTab(After(world, run), e) && e.tab == tab
      requires (storage.Snapshot(), Snapshot()) == Local(After(world, run), e)
      modifies this`run
      ensures Valid() && run == old(run) + [e]
    {
      Extended(world, run, e);
      run := run + [e];
    }

    /** Another tab does something: the storage changes, and what it wrote is announced here. */
    method OnOtherTab(items: map<Key, bool>, written: seq<Key>, ghost e: Event)
      requires Valid() && OfTab(After(world, run), e) && e.tab != tab
      requires Storage(items, written) == Local(After(world, run), e).0
      modifies storage, this`storageEvents, this`run
      ensures Valid() && run == old(run) + [e]
      ensures storage.items == items && Snapshot() == old(Snapshot()).(storageEvents := old(storageEvents) + written)
    {
      OthersHear(After(world, run), e, tab);
      Hear(items, written);
      Extended(world, run, e);
      run := run + [e];
    }

    /** Another page is loaded, which by itself changes nothing here. */
    ghost method OnOtherPage(redirected: bool)
      requires Valid()
      modifies this`run
      ensures Valid() && run == old(run) + [Open(redirected)]
    {
      Extended(world, run, Open(redirected));
      run := run + [Open(redirected)];
    }

    method Hear(items: map<Key, bool>, written: seq<Key>)
      modifies storage, this`storageEvents
      ensures storage.items == items && Snapshot() == old(Snapshot()).(storageEvents := old(storageEvents) + written)
    {
      storage.items, storage.written := items, written;
      storageEvents := storageEvents + written;
    }

    /** What the page may rely on between the handlers of any tab. */
    lemma Holds()
      requires Valid()
      ensures isAuthenticated <==> user.Some?
      ensures !(isGuest && isAuthenticated)
      ensures forall k :: 0 <= k < |checks| ==> checks[k].id <= authCheckRunId
      ensures IsTrue(storage.items, LogoutKey) && LogoutKey !in storageEvents ==>
                !isAuthenticated && forall k :: 0 <= k < |checks| ==> checks[k].id < authCheckRunId
    {
      RunKeepsInv(world, run);
      var t := After(world, run).tabs[tab];
      assert TabInv(storage.items, t);
      if IsTrue(storage.items, LogoutKey) && LogoutKey !in storageEvents {
        assert !HasLiveCheck(t);
        forall k | 0 <= k < |checks| ensures checks[k].id < authCheckRunId { assert t.checks[k].id != t.authCheckRunId; }
      }
    }

    method ClearStorage()
      modifies storage
      ensures storage.Snapshot() == ClearAuthStorage(old(storage.Snapshot()))
      ensures storage.items == old(storage.items) - AUTH_KEYS
    {
      ClearIsExact(storage.Snapshot());
      ghost var before := storage.Snapshot();
      storage.RemoveItem(GuestKey);
      DropNext(before, 0);
      storage.RemoveItem(SessionHintKey);
      DropNext(before, 1);
      storage.RemoveItem(AdminHintKey);
      DropNext(before, 2);
      for n := 0 to 3
        invariant storage.Snapshot() == DropAll(before, CLEARED[..3 + n])
      {
        storage.RemoveItem(LegacyKey(n));
        DropNext(before, 3 + n);
      }
      storage.RemoveItem(FavoritesKey);
      DropNext(before, 6);
      assert CLEARED[..7] == CLEARED;
    }

    static lemma DropNext(l: Storage, n: nat)
      requires n < |CLEARED|
      ensures DropAll(l, CLEARED[..n + 1]) == Drop(DropAll(l, CLEARED[..n]), CLEARED[n])
      ensures n == 0 ==> DropAll(l, CLEARED[..n]) == l
    {
      assert CLEARED[..n + 1][..n] == CLEARED[..n];
    }

    method SetSignedOutState()
      modifies this`isAuthenticated, this`user, this`isGuest
      ensures Snapshot() == SignOut(old(Snapshot()))
    {
      isAuthenticated, user := false, None;
      isGuest := false;
    }

    method FinishLoading()
      modifies this`authCheckInitialized, this`loading
      ensures Snapshot() == Settled(old(Snapshot()))
    {
      authCheckInitialized := true;
      loading := false;
    }

    /** The redirect from a Google sign-in clears a stale logout flag. */
    method RestoreAfterOauth()
      modifies this`oauthSuccess, storage
      ensures storage.Snapshot() == OauthStorage(old(storage.Snapshot()), old(Snapshot()))
      ensures Snapshot() == old(Snapshot()).(oauthSuccess := false)
    {
      if oauthSuccess {
        storage.RemoveItem(LogoutKey);
        storage.SetItem(SessionHintKey, true);
        oauthSuccess := false;
      }
    }

    method RememberSession(newUser: User)
      modifies storage
      ensures storage.Snapshot() == Remember(old(storage.Snapshot()), newUser)
    {
      storage.SetItem(SessionHintKey, true);
      storage.SetItem(AdminHintKey, newUser.admin);
    }

    method SetSignedIn(newUser: User)
      modifies this`isAuthenticated, this`user, this`isGuest
      ensures Snapshot() == SignIn(old(Snapshot()), newUser)
    {
      isGuest := false;
      isAuthenticated, user := true, Some(newUser);
    }

    method SetGuest()
      modifies this`isAuthenticated, this`user, this`isGuest
      ensures Snapshot() == BecomeGuest(old(Snapshot()))
    {
      isGuest := true;
      isAuthenticated, user := false, None;
    }

    method EndWithoutSession(guestMode: bool)
      modifies this, storage
      ensures run == old(run)
      ensures (storage.Snapshot(), Snapshot()) == WithoutSession(old(storage.Snapshot()), old(Snapshot()), guestMode)
    {
      if guestMode {
        SetGuest();
      } else {
        ClearStorage();
        SetSignedOutState();
      }
      FinishLoading();
    }

    method StartCheckHere()
      modifies this, storage
      ensures (storage.Snapshot(), Snapshot()) == StartCheck(old(storage.Snapshot()), old(Snapshot())) && run == old(run)
      ensures ChecksExactly(old(storage.items), old(Snapshot()), storage.items, Snapshot())
    {
      CheckIsExact(storage.Snapshot(), Snapshot());
      authCheckRunId := authCheckRunId + 1;
      if !authCheckInitialized {
        loading := true;
      }
      RestoreAfterOauth();
      DecideProbe();
    }

    method DecideProbe()
      modifies this, storage
      ensures run == old(run)
      ensures (storage.Snapshot(), Snapshot()) == Decide(old(storage.Snapshot()), old(Snapshot()))
    {
      if IsTrue(storage.items, LogoutKey) {
        EndWithoutSession(false);
        return;
      }
      var guestMode := IsTrue(storage.items, GuestKey);
      if !renderedAuthenticated && renderedUser.None? && !HasHint(storage.items) {
        EndWithoutSession(guestMode);
        return;
      }
      checks := checks + [Check(authCheckRunId, guestMode, false)];
    }

    method ApplyProbe(guestMode: bool, result: Probe)
      modifies this, storage
      ensures run == old(run)
      ensures (storage.Snapshot(), Snapshot()) ==
              FinishCheck(old(storage.Snapshot()), old(Snapshot()), guestMode, result)
    {
      if result.Success? {
        if guestMode {
          storage.RemoveItem(GuestKey);
        }
        RememberSession(result.user);
        SetSignedIn(result.user);
        FinishLoading();
      } else if guestMode || result.AuthError? {
        EndWithoutSession(guestMode);
      } else {
        if !(isAuthenticated && user.Some?) {
          isAuthenticated, user := false, None;
        }
        FinishLoading();
      }
    }

    method Answer(k: nat, result: Probe)
      requires k < |checks|
      modifies this, storage
      ensures run == old(run)
      ensures (storage.Snapshot(), Snapshot()) == ProbeAnswered(old(storage.Snapshot()), old(Snapshot()), k, result)
    {
      var check := checks[k];
      if result.NetworkError? && !check.retrying {
        checks := checks[k := check.(retrying := true)];
        return;
      }
      checks := Remove(checks, k);
      if check.id != authCheckRunId {
        return;
      }
      ApplyProbe(check.guestMode, result);
    }

    method TakeAnswer(k: nat, result: Probe)
      requires k < |checks|
      modifies this, storage
      ensures run == old(run)
      ensures (storage.Snapshot(), Snapshot()) == ProbeAnswered(old(storage.Snapshot()), old(Snapshot()), k, result)
      ensures AnswersExactly(old(storage.items), old(Snapshot()), k, result, storage.items, Snapshot())
    {
      AnswerIsExact(storage.Snapshot(), Snapshot(), k, result);
      Answer(k, result);
    }

    method Persist(newUser: User)
      modifies this, storage
      ensures run == old(run)
      ensures (storage.Snapshot(), Snapshot()) == PersistSession(old(storage.Snapshot()), old(Snapshot()), newUser)
    {
      storage.RemoveItem(GuestKey);
      storage.RemoveItem(LogoutKey);
      RememberSession(newUser);
      SetSignedIn(newUser);
    }

    method RaiseLogoutFlag()
      modifies this, storage
      ensures run == old(run)
      ensures (storage.Snapshot(), Snapshot()) == DoLogout(old(storage.Snapshot()), old(Snapshot()))
    {
      authCheckRunId := authCheckRunId + 1;
      storage.SetItem(LogoutKey, true);
      ClearStorage();
      SetSignedOutState();
      loading := false;
    }

    method BeginGuestCall()
      modifies this`authCheckRunId, this`guestCalls
      ensures Snapshot() == CallForGuest(old(Snapshot()))
    {
      authCheckRunId := authCheckRunId + 1;
      guestCalls := guestCalls + 1;
    }

    method BecomeGuestHere()
      requires guestCalls > 0
      modifies this, storage
      ensures run == old(run)
      ensures (storage.Snapshot(), Snapshot()) == FinishGuest(old(storage.Snapshot()), old(Snapshot()))
    {
      guestCalls := guestCalls - 1;
      ClearStorage();
      storage.RemoveItem(LogoutKey);
      storage.SetItem(GuestKey, true);
      SetGuest();
    }

    method TakeStorageEvent()
      requires storageEvents != []
      modifies this, storage
      ensures run == old(run)
      ensures var t1 := old(Snapshot()).(storageEvents := old(storageEvents)[1..]);
              (storage.Snapshot(), Snapshot()) ==
              if old(storageEvents)[0].FavoritesKey? then (old(storage.Snapshot()), t1)
              else StartCheck(old(storage.Snapshot()), t1)
      ensures !old(storageEvents)[0].FavoritesKey? ==>
                ChecksExactly(old(storage.items), old(Snapshot()).(storageEvents := old(storageEvents)[1..]),
                              storage.items, Snapshot())
    {
      var key := storageEvents[0];
      storageEvents := storageEvents[1..];
      if !key.FavoritesKey? {
        StartCheckHere();
      }
    }

    /** checkAuth(), up to its first await: a new run, after which every earlier one is stale. */
    method CheckAuth()
      requires Valid()
      modifies this, storage
      ensures Valid() && run == old(run) + [Event.CheckAuth(tab)]
      ensures ChecksExactly(old(storage.items), old(Snapshot()), storage.items, Snapshot())
      ensures authCheckRunId == old(authCheckRunId) + 1 && !oauthSuccess
      ensures IsTrue(storage.items, LogoutKey) ==> !isAuthenticated && user == None && !isGuest && checks == old(checks)
    {
      storage.BeginHandler();
      StartCheckHere();
      Record(Event.CheckAuth(tab));
    }

    /** checkAuth(), after a session probe of overlapping check k was answered: a stale run changes nothing. */
    method OnProbe(k: nat, result: Probe)
      requires Valid() && k < |checks|
      modifies this, storage
      ensures Valid() && run == old(run) + [ProbeDone(tab, k, result)]
      ensures AnswersExactly(old(storage.items), old(Snapshot()), k, result, storage.items, Snapshot())
    {
      storage.BeginHandler();
      TakeAnswer(k, result);
      Record(ProbeDone(tab, k, result));
    }

    /** persistAuthenticatedSession(), where login, register and setSession end. */
    method SetSession(newUser: User)
      requires Valid()
      modifies this, storage
      ensures Valid() && run == old(run) + [SessionSet(tab, newUser)]
      ensures Snapshot() == old(Snapshot()).(isAuthenticated := true, user := Some(newUser), isGuest := false)
      ensures storage.items == (old(storage.items) - {GuestKey, LogoutKey})[SessionHintKey := true][AdminHintKey := newUser.admin]
    {
      storage.BeginHandler();
      PersistEffect(storage.Snapshot(), Snapshot(), newUser);
      Persist(newUser);
      Record(SessionSet(tab, newUser));
    }

    /** A sign-in whose user the server then rejects: signed out, the storage cleared, the logout flag kept. */
    method AbortSignIn()
      requires Valid()
      modifies this, storage
      ensures Valid() && run == old(run) + [LoginAborted(tab)]
      ensures Snapshot() == old(Snapshot()).(isAuthenticated := false, user := None, isGuest := false)
      ensures storage.items == old(storage.items) - AUTH_KEYS
      ensures IsTrue(storage.items, LogoutKey) <==> IsTrue(old(storage.items), LogoutKey)
    {
      storage.BeginHandler();
      ClearStorage();
      SetSignedOutState();
      Record(LoginAborted(tab));
    }

    /** logout(): the flag goes first, before anything can await. No check begun before can still change the session. */
    method LogOut()
      requires Valid()
      modifies this, storage
      ensures Valid() && run == old(run) + [Logout(tab)]
      ensures storage.items == old(storage.items)[LogoutKey := true] - AUTH_KEYS
      ensures Snapshot() == old(Snapshot()).(isAuthenticated := false, user := None, isGuest := false, loading := false,
                                             authCheckRunId := old(authCheckRunId) + 1)
      ensures checks == old(checks) && forall k :: 0 <= k < |checks| ==> checks[k].id < authCheckRunId
    {
      Holds();
      storage.BeginHandler();
      ClearIsExact(Put(storage.Snapshot(), LogoutKey, true));
      RaiseLogoutFlag();
      Record(Logout(tab));
    }

    /** loginAsGuest(), up to its await: only checks begun earlier are affected. */
    method LoginAsGuest()
      requires Valid()
      modifies this, storage
      ensures Valid() && run == old(run) + [GuestCalled(tab)] && storage.items == old(storage.items)
      ensures Snapshot() == old(Snapshot()).(authCheckRunId := old(authCheckRunId) + 1, guestCalls := old(guestCalls) + 1)
    {
      storage.BeginHandler();
      BeginGuestCall();
      Record(GuestCalled(tab));
    }

    /** The finally block of loginAsGuest(): a guest, and no logout flag. */
    method EnterGuestMode()
      requires Valid() && guestCalls > 0
      modifies this, storage
      ensures Valid() && run == old(run) + [GuestDone(tab)]
      ensures Snapshot() == old(Snapshot()).(isAuthenticated := false, user := None, isGuest := true,
                                             guestCalls := old(guestCalls) - 1)
      ensures storage.items == (old(storage.items) - AUTH_KEYS - {LogoutKey})[GuestKey := true]
      ensures !HintsSession(storage.items)
    {
      storage.BeginHandler();
      ClearIsExact(storage.Snapshot());
      BecomeGuestHere();
      Record(GuestDone(tab));
    }

    /** handleStorageChange(): any auth key that another tab wrote starts a check, so a logout elsewhere signs out here. */
    method OnStorageEvent()
      requires Valid() && storageEvents != []
      modifies this, storage
      ensures Valid() && run == old(run) + [StorageEvent(tab)] && storageEvents == old(storageEvents)[1..]
      ensures old(storageEvents)[0].FavoritesKey? ==>
                storage.items == old(storage.items) && Snapshot() == old(Snapshot()).(storageEvents := storageEvents)
      ensures !old(storageEvents)[0].FavoritesKey? ==>
                ChecksExactly(old(storage.items), old(Snapshot()).(storageEvents := old(storageEvents)[1..]),
                              storage.items, Snapshot())
    {
      storage.BeginHandler();
      TakeStorageEvent();
      Record(StorageEvent(tab));
    }

    /** React shows what the state holds; the next check reads what was shown. */
    method Render()
      requires Valid()
      modifies this, storage
      ensures Valid() && run == old(run) + [Rendered(tab)] && storage.items == old(storage.items)
      ensures Snapshot() == old(Snapshot()).(renderedAuthenticated := isAuthenticated, renderedUser := user)
    {
      storage.BeginHandler();
      renderedAuthenticated, renderedUser := isAuthenticated, user;
      Record(Rendered(tab));
    }

    static lemma PersistEffect(l: Storage, t: Tab, newUser: User)
      ensures var (m, t') := PersistSession(l, t, newUser);
              && t'.isAuthenticated && t'.user == Some(newUser) && !t'.isGuest
              && m.items == (l.items - {GuestKey, LogoutKey})[SessionHintKey := true][AdminHintKey := newUser.admin]
    {
      var kept := l.items - {GuestKey} - {LogoutKey};
      assert kept == l.items - {GuestKey, LogoutKey};
      assert Put(Drop(Drop(l, GuestKey), LogoutKey), SessionHintKey, true).items == kept[SessionHintKey := true];
    }
  }
}
