/** Google sign-in and the identity links as written: one call at a time over the two tables. */
module GoogleSignInObject {
  import opened Wrappers
  import opened Text
  import opened GoogleSignIn

  datatype LinkResult =
    | Linked
    | AlreadyLinkedToSameUser
    | LinkedToAnotherUser(user: int)
    | InvalidLinkRequest
    | LinkFailed

  datatype Result = Success(id: int, user: User) | Failure(reason: GoogleSignIn.Failure)

  /** What the services around the tables answer during one sign-in: lockouts, roles, the outcome of a signup,
      fresh identities and the time. */
  datatype Surroundings = Surroundings(locked: set<int>, withoutRole: set<int>, signup: SignupOutcome, newUser: int,
                                       keyFails: bool, now: int)

  function BuildAnswer(id: int, around: Surroundings): Answer {
    QUIET.(locked := id in around.locked, hasRole := id !in around.withoutRole, now := around.now)
  }

  function EndOf(subject: string, result: Result): Call {
    match result
    case Success(id, user) => Succeeded(subject, id, user)
    case Failure(reason) => Failed(reason)
  }

  /** Where a sign-in goes on after linking. */
  function LinkEnd(subject: string, id: int, user: User, link: LinkResult): Call {
    match link
    case LinkedToAnotherUser(other) => LoadingLinked(subject, other)
    case InvalidLinkRequest => Failed(InvalidRequest)
    case LinkFailed => Failed(PersistenceFailed)
    case _ => Building(subject, id, user)
  }

  /** A call run alone, one answer a step. */
  ghost predicate Reaches(s: Store, call: Call, answers: seq<Answer>, t: Store, end: Call)
    decreases answers
  {
    if answers == [] then s == t && call == end
    else
      && Honest(s, call, answers[0])
      && Reaches(Changed(s, call, answers[0]), Continue(s, call, answers[0]), answers[1..], t, end)
  }

  lemma {:induction false} ReachesOn(s: Store, call: Call, first: seq<Answer>, t: Store, mid: Call,
                                     rest: seq<Answer>, u: Store, end: Call)
    requires Reaches(s, call, first, t, mid) && Reaches(t, mid, rest, u, end)
    ensures Reaches(s, call, first + rest, u, end)
    decreases first
  {
    if first == [] {
      assert first + rest == rest;
    } else {
      assert (first + rest)[1..] == first[1..] + rest;
      ReachesOn(Changed(s, call, first[0]), Continue(s, call, first[0]), first[1..], t, mid, rest, u, end);
    }
  }

  lemma StepThen(s: Store, call: Call, answer: Answer, rest: seq<Answer>, t: Store, end: Call)
    requires Honest(s, call, answer)
    requires Reaches(Changed(s, call, answer), Continue(s, call, answer), rest, t, end)
    ensures Reaches(s, call, [answer] + rest, t, end)
  {
    assert ([answer] + rest)[1..] == rest;
  }

  lemma BuildStep(s: Store, subject: string, id: int, user: User, around: Surroundings, result: Result)
    requires EndOf(subject, result) == Build(subject, id, user, BuildAnswer(id, around))
    ensures Reaches(s, Building(subject, id, user), [BuildAnswer(id, around)] + [], s, EndOf(subject, result))
  {
    StepThen(s, Building(subject, id, user), BuildAnswer(id, around), [], s, EndOf(subject, result));
  }

  // ---- who gets in ----

  /** The account is not locked out, undeleted, active, not suspended, and has a role. */
  predicate InGoodStanding(id: int, user: User, around: Surroundings) {
    && id !in around.locked && !user.deleted && user.status == 1
    && (user.suspendedUntil == None || user.suspendedUntil.value <= around.now) && id !in around.withoutRole
  }

  /** The sign-in as this account: it succeeds exactly in good standing, or fails for the first thing that is not. */
  predicate SignsInAs(result: Result, id: int, user: User, around: Surroundings) {
    match result
    case Success(_, _) => result == Success(id, user) && InGoodStanding(id, user, around)
    case Failure(reason) =>
      && !InGoodStanding(id, user, around)
      && reason == (if id in around.locked then AccountLocked else if user.deleted then UserDeleted
                    else if id in around.withoutRole && InGoodStanding(id, user, around.(withoutRole := {}))
                    then RoleResolutionFailed else UserInactive)
  }

  /** An account that is to be linked to the subject. The user whom the subject is linked to already signs in; a subject
      nobody has is linked unless the account has another one or its keys fail, and then the account signs in. */
  ghost predicate LinksExactly(s: Store, t: Store, id: int, user: User, subject: string, around: Surroundings,
                               result: Result) {
    if id < 1 then t == s && result == Failure(InvalidRequest)
    else if SubjectLinked(s, subject) then
      && t == s
      && forall r :: r in s.links && s.links[r].subject == subject ==>
           if s.links[r].user == id then SignsInAs(result, id, user, around)
           else if Visible(s, s.links[r].user) then SignsInAs(result, s.links[r].user, s.users[s.links[r].user], around)
           else result == Failure(PersistenceFailed)
    else if UserLinked(s, id) || around.keyFails || id !in s.users then t == s && result == Failure(PersistenceFailed)
    else
      && t == s.(links := s.links[s.nextRow := Link(id, subject)], nextRow := s.nextRow + 1)
      && SignsInAs(result, id, user, around)
  }

  /** Signing up and linking the new account; after a duplicate, the active account that has the e-mail by then. */
  ghost predicate SignsUpExactly(s: Store, t: Store, email: string, again: Option<int>, subject: string,
                                 around: Surroundings, result: Result) {
    var made := User(email, false, 1, None);
    var joined := s.(users := s.users[around.newUser := made]);
    match around.signup
    case Created => LinksExactly(joined, t, around.newUser, made, subject, around, result)
    case CreatedWithoutRole => t == joined && result == Failure(Refused)
    case Duplicate =>
      && EmailMatch(s, email, again)
      && if again.Some? && s.users[again.value].status == 1
         then LinksExactly(s, t, again.value, s.users[again.value], subject, around, result)
         else t == s && result == Failure(Refused)
    case NotCreated => t == s && result == Failure(Refused)
  }

  /** A subject that nobody has: the account with the e-mail is linked to it, or else a new one is signed up. */
  ghost predicate JoinsExactly(s: Store, t: Store, email: string, matched: Option<int>, subject: string,
                               around: Surroundings, result: Result) {
    && EmailMatch(s, email, matched)
    && if matched.Some? then LinksExactly(s, t, matched.value, s.users[matched.value], subject, around, result)
       else SignsUpExactly(s, t, email, None, subject, around, result)
  }

  /** Nobody has the e-mail when it is searched for again at once. */
  lemma NobodyAgain(s: Store, t: Store, email: string, again: Option<int>, subject: string, around: Surroundings,
                    result: Result)
    requires EmailMatch(s, email, None) && SignsUpExactly(s, t, email, again, subject, around, result)
    ensures SignsUpExactly(s, t, email, None, subject, around, result)
  {}

  /** The tables after a link of a subject nobody has. */
  function WithLink(s: Store, id: int, subject: string, keyFails: bool): Store {
    if UserLinked(s, id) || keyFails || id !in s.users then s
    else s.(links := s.links[s.nextRow := Link(id, subject)], nextRow := s.nextRow + 1)
  }

  lemma InsertRun(s: Store, id: int, subject: string, keyFails: bool, model: User) returns (answers: seq<Answer>)
    requires OneToOne(s) && SubjectRow(s, subject, None) && !UserLinked(s, id)
    ensures Reaches(s, InsertingLink(subject, id, model), answers, WithLink(s, id, subject, keyFails),
                    if keyFails || id !in s.users then Failed(PersistenceFailed) else Building(subject, id, model))
  {
    var insert, t := QUIET.(newId := s.nextRow, keyFails := keyFails), WithLink(s, id, subject, keyFails);
    if keyFails || id !in s.users {
      StepThen(s, AfterConflict(subject, id, model), QUIET, [], s, Failed(PersistenceFailed));
      StepThen(s, InsertingLink(subject, id, model), insert, [QUIET] + [], s, Failed(PersistenceFailed));
      answers := [insert] + ([QUIET] + []);
    } else {
      StepThen(s, InsertingLink(subject, id, model), insert, [], t, Building(subject, id, model));
      answers := [insert] + [];
    }
  }

  lemma LinkRun(s: Store, id: int, subject: string, keyFails: bool, model: User) returns (answers: seq<Answer>)
    requires OneToOne(s) && SubjectRow(s, subject, None)
    ensures Reaches(s, CheckingUser(subject, id, model), answers, WithLink(s, id, subject, keyFails),
                    if UserLinked(s, id) || keyFails || id !in s.users then Failed(PersistenceFailed)
                    else Building(subject, id, model))
  {
    if UserLinked(s, id) {
      StepThen(s, CheckingUser(subject, id, model), QUIET, [], s, Failed(PersistenceFailed));
      answers := [QUIET] + [];
    } else {
      answers := InsertRun(s, id, subject, keyFails, model);
      StepThen(s, CheckingUser(subject, id, model), QUIET, answers, WithLink(s, id, subject, keyFails),
               if keyFails || id !in s.users then Failed(PersistenceFailed) else Building(subject, id, model));
      answers := [QUIET] + answers;
    }
  }

  class GoogleAuthService {
    var users: map<int, User>
    var links: map<int, Link>
    var nextRow: int

    function Tables(): Store
      reads this
    {
      Store(users, links, nextRow)
    }

    method RowOfSubject(subject: string) returns (row: Option<int>)
      ensures SubjectRow(Tables(), subject, row)
    {
      var rows := set r | r in links && links[r].subject == subject;
      if rows == {} {
        assert forall r :: r in links && links[r].subject == subject ==> r in rows;
        return None;
      }
      var r := AnyOf(rows);
      return Some(r);
    }

    method FindUserIdByProviderSubject(providerSubject: string) returns (user: Option<int>, ghost row: Option<int>)
      requires OneToOne(Tables())
      ensures forall id :: user == Some(id) <==> !IsBlank(providerSubject) && MapsTo(Tables(), Trim(providerSubject), id)
      ensures !IsBlank(providerSubject) ==>
                && SubjectRow(Tables(), Trim(providerSubject), row)
                && user == if row.Some? then Some(links[row.value].user) else None
    {
      TrimIsTrimmed(providerSubject);
      var subject := Trim(providerSubject);
      if subject == "" {
        return None, None;
      }
      var found := RowOfSubject(subject);
      row := found;
      if found == None {
        return None, row;
      }
      assert links[found.value] == Link(links[found.value].user, subject);
      return Some(links[found.value].user), row;
    }

    method GetUserByID(id: int) returns (user: Option<User>)
      ensures user == if id >= 1 && Visible(Tables(), id) then Some(users[id]) else None
    {
      if id < 1 || id !in users || users[id].deleted {
        return None;
      }
      return Some(users[id]);
    }

    method GetUserByLogin(email: string) returns (found: Option<int>)
      ensures EmailMatch(Tables(), email, found)
    {
      var ids := set id | id in users && users[id].email == email && !users[id].deleted;
      if ids == {} {
        assert forall id :: id in users && users[id].email == email && !users[id].deleted ==> id in ids;
        return None;
      }
      var id := AnyOf(ids);
      return Some(id);
    }

    method LinkIdentityToUser(user: int, providerSubject: string, keyFails: bool, ghost model: User)
        returns (result: LinkResult, ghost answers: seq<Answer>)
      requires OneToOne(Tables())
      modifies this`links, this`nextRow
      ensures OneToOne(Tables())
      ensures result == InvalidLinkRequest <==> user < 1 || IsBlank(providerSubject)
      ensures result == Linked <==>
              && user >= 1 && !IsBlank(providerSubject) && !SubjectLinked(old(Tables()), Trim(providerSubject))
              && !UserLinked(old(Tables()), user) && !keyFails && user in users
      ensures result == Linked ==> Tables() == old(Tables()).(links := links, nextRow := old(nextRow) + 1)
      ensures result == Linked ==> links == old(links)[old(nextRow) := Link(user, Trim(providerSubject))]
      ensures result != Linked ==> Tables() == old(Tables())
      ensures result == Linked || result == AlreadyLinkedToSameUser ==> MapsTo(Tables(), Trim(providerSubject), user)
      ensures result.LinkedToAnotherUser? ==> result.user != user && MapsTo(Tables(), Trim(providerSubject), result.user)
      ensures result == LinkFailed ==>
                && !SubjectLinked(Tables(), Trim(providerSubject))
                && (UserLinked(Tables(), user) || keyFails || user !in users)
      ensures !IsBlank(providerSubject) ==>
                Reaches(old(Tables()), Linking(Trim(providerSubject), user, model), answers, Tables(),
                        LinkEnd(Trim(providerSubject), user, model, result))
    {
      TrimIsTrimmed(providerSubject);
      var subject := Trim(providerSubject);
      ghost var s := Tables();
      answers := [];
      if subject == "" {
        return InvalidLinkRequest, [];
      }
      var row := RowOfSubject(subject);
      ghost var found := QUIET.(row := row);
      if user < 1 {
        StepThen(s, Linking(subject, user, model), found, [], s, Failed(InvalidRequest));
        return InvalidLinkRequest, [found] + [];
      }
      if row.Some? {
        var owner := links[row.value].user;
        assert links[row.value] == Link(owner, subject);
        result := if owner != user then LinkedToAnotherUser(owner) else AlreadyLinkedToSameUser;
        StepThen(s, Linking(subject, user, model), found, [], s, LinkEnd(subject, user, model, result));
        return result, [found] + [];
      }
      result, answers := LinkUnlinkedSubject(user, subject, keyFails, model);
      StepThen(s, Linking(subject, user, model), found, answers, Tables(), LinkEnd(subject, user, model, result));
      answers := [found] + answers;
    }

    /** The second half, for a subject that nobody has. */
    method LinkUnlinkedSubject(user: int, subject: string, keyFails: bool, ghost model: User)
        returns (result: LinkResult, ghost answers: seq<Answer>)
      requires OneToOne(Tables()) && SubjectRow(Tables(), subject, None)
      modifies this`links, this`nextRow
      ensures OneToOne(Tables()) && (result == Linked || result == LinkFailed)
      ensures result == Linked <==> !UserLinked(old(Tables()), user) && !keyFails && user in users
      ensures result == Linked ==> nextRow == old(nextRow) + 1
      ensures result == Linked ==> links == old(links)[old(nextRow) := Link(user, subject)] && MapsTo(Tables(), subject, user)
      ensures result == LinkFailed ==>
                && Tables() == old(Tables()) && !SubjectLinked(Tables(), subject)
                && (UserLinked(Tables(), user) || keyFails || user !in users)
      ensures Reaches(old(Tables()), CheckingUser(subject, user, model), answers, Tables(),
                      LinkEnd(subject, user, model, result))
    {
      answers := LinkRun(Tables(), user, subject, keyFails, model);
      if exists r <- links :: links[r].user == user {
        return LinkFailed, answers;
      }
      if keyFails || user !in users {
        return LinkFailed, answers;
      }
      links, nextRow := links[nextRow := Link(user, subject)], nextRow + 1;
      assert links[nextRow - 1] == Link(user, subject);
      result := Linked;
    }

    method DeleteIdentityLinkBySubject(providerSubject: string) returns (ghost row: Option<int>)
      requires OneToOne(Tables())
      modifies this`links
      ensures !IsBlank(providerSubject) ==> SubjectRow(old(Tables()), Trim(providerSubject), row)
      ensures links == if row.Some? then old(links) - {row.value} else old(links)
      ensures OneToOne(Tables())
      ensures forall r :: r in old(links) && old(links)[r].subject != Trim(providerSubject) ==>
                            r in links && links[r] == old(links)[r]
      ensures forall r :: r in links ==> r in old(links) && links[r] == old(links)[r]
      ensures !IsBlank(providerSubject) ==> !SubjectLinked(Tables(), Trim(providerSubject))
    {
      TrimIsTrimmed(providerSubject);
      var subject := Trim(providerSubject);
      row := None;
      if subject == "" {
        return;
      }
      var found := RowOfSubject(subject);
      row := found;
      if found.Some? {
        links := links - {found.value};
      }
    }

    method BuildGoogleSuccessResult(id: int, user: User, around: Surroundings) returns (result: Result)
      ensures result.Success? <==> id !in around.locked && Acceptable(user, around.now) && id !in around.withoutRole
      ensures SignsInAs(result, id, user, around)
      ensures forall subject :: EndOf(subject, result) == Build(subject, id, user, BuildAnswer(id, around))
    {
      if id in around.locked {
        return Failure(AccountLocked);
      }
      if user.deleted {
        return Failure(UserDeleted);
      }
      if user.status != ACTIVE {
        return Failure(UserInactive);
      }
      if user.suspendedUntil.Some? && user.suspendedUntil.value > around.now {
        return Failure(UserInactive);
      }
      if id in around.withoutRole {
        return Failure(RoleResolutionFailed);
      }
      return Success(id, user);
    }

    /** What a success promises: the store maps the subject to the returned user, whose row is as returned and in
        good standing. */
    ghost predicate Granted(result: Result, subject: string, now: int)
      reads this
    {
      result.Success? ==>
        && MapsTo(Tables(), subject, result.id)
        && result.id in users && users[result.id] == result.user && Acceptable(result.user, now)
    }

    /** The account at hand, or the other one the subject is linked to; no row changes. */
    method ResolveUserFromLink(id: int, user: User, subject: string, link: LinkResult, around: Surroundings)
        returns (result: Result, ghost answers: seq<Answer>)
      requires id in users && users[id] == user
      requires link == Linked || link == AlreadyLinkedToSameUser ==> MapsTo(Tables(), subject, id)
      requires link.LinkedToAnotherUser? ==> MapsTo(Tables(), subject, link.user)
      ensures match link
              case InvalidLinkRequest => result == Failure(InvalidRequest)
              case LinkFailed => result == Failure(PersistenceFailed)
              case LinkedToAnotherUser(other) =>
                if Visible(Tables(), other) then SignsInAs(result, other, users[other], around)
                else result == Failure(PersistenceFailed)
              case _ => SignsInAs(result, id, user, around)
      ensures Granted(result, subject, around.now)
      ensures Reaches(Tables(), LinkEnd(subject, id, user, link), answers, Tables(), EndOf(subject, result))
    {
      if link == InvalidLinkRequest {
        return Failure(InvalidRequest), [];
      }
      if link == LinkFailed {
        return Failure(PersistenceFailed), [];
      }
      ghost var t := Tables();
      if link.LinkedToAnotherUser? {
        var linked := GetUserByID(link.user);
        if linked == None {
          result, answers := Failure(PersistenceFailed), [];
        } else {
          result := BuildGoogleSuccessResult(link.user, linked.value, around);
          BuildStep(t, subject, link.user, linked.value, around, result);
          answers := [BuildAnswer(link.user, around)] + [];
        }
        StepThen(t, LoadingLinked(subject, link.user), QUIET, answers, t, EndOf(subject, result));
        answers := [QUIET] + answers;
      } else {
        result := BuildGoogleSuccessResult(id, user, around);
        BuildStep(t, subject, id, user, around, result);
        answers := [BuildAnswer(id, around)] + [];
      }
    }

    /** Links the account to the subject, or takes the account the subject is linked to. */
    method SignInAs(id: int, user: User, subject: string, around: Surroundings)
        returns (result: Result, ghost answers: seq<Answer>)
      requires OneToOne(Tables()) && !IsBlank(subject)
      requires id in users && users[id] == user && Trim(subject) == subject
      modifies this`links, this`nextRow
      ensures OneToOne(Tables()) && Granted(result, subject, around.now)
      ensures forall r :: r in old(links) ==> r in links && links[r] == old(links)[r]
      ensures LinksExactly(old(Tables()), Tables(), id, user, subject, around, result)
      ensures Reaches(old(Tables()), Linking(subject, id, user), answers, Tables(), EndOf(subject, result))
    {
      ghost var s := Tables();
      var link;
      link, answers := LinkIdentityToUser(id, subject, around.keyFails, user);
      ghost var more;
      result, more := ResolveUserFromLink(id, user, subject, link, around);
      ReachesOn(s, Linking(subject, id, user), answers, Tables(), LinkEnd(subject, id, user, link), more, Tables(),
                EndOf(subject, result));
      answers := answers + more;
    }

    method Signup(email: string, around: Surroundings) returns (outcome: SignupOutcome)
      requires OneToOne(Tables()) && around.newUser !in users
      modifies this`users
      ensures OneToOne(Tables()) && outcome == around.signup
      ensures users == if outcome == Created || outcome == CreatedWithoutRole
                       then old(users)[around.newUser := NewUser(email)] else old(users)
    {
      outcome := around.signup;
      if outcome == Created || outcome == CreatedWithoutRole {
        users := users[around.newUser := NewUser(email)];
      }
    }

    method SignUpAndLink(email: string, subject: string, around: Surroundings)
        returns (result: Result, ghost answers: seq<Answer>, ghost again: Option<int>)
      requires OneToOne(Tables()) && around.newUser >= 1 && around.newUser !in users
      requires Trim(subject) == subject && !IsBlank(subject)
      modifies this
      ensures OneToOne(Tables()) && Granted(result, subject, around.now)
      ensures forall r :: r in old(links) ==> r in links && links[r] == old(links)[r]
      ensures forall id :: id in old(users) ==> id in users && users[id] == old(users)[id]
      ensures SignsUpExactly(old(Tables()), Tables(), email, again, subject, around, result)
      ensures Reaches(old(Tables()), SigningUp(subject, email), answers, Tables(), EndOf(subject, result))
    {
      ghost var s := Tables();
      ghost var signed := QUIET.(newId := around.newUser, signup := around.signup);
      var outcome := Signup(email, around);
      ghost var t := Tables();
      ghost var rest := [];
      again := None;
      if outcome == Created {
        result, rest := SignInAs(around.newUser, NewUser(email), subject, around);
      } else if outcome == Duplicate {
        var found := GetUserByLogin(email);
        again := found;
        if found.Some? && !users[found.value].deleted && users[found.value].status == ACTIVE {
          result, rest := SignInAs(found.value, users[found.value], subject, around);
        } else {
          result := Failure(Refused);
        }
        StepThen(t, MatchingAgain(subject, email), QUIET.(matched := found), rest, Tables(),
                 EndOf(subject, result));
        rest := [QUIET.(matched := found)] + rest;
      } else {
        result := Failure(Refused);
      }
      StepThen(s, SigningUp(subject, email), signed, rest, Tables(), EndOf(subject, result));
      answers := [signed] + rest;
    }

    /** A link is given up only when its account is deleted. */
    ghost predicate MayGo(before: map<int, User>, link: Link, subject: string) {
      link.subject == subject && !(link.user >= 1 && link.user in before && !before[link.user].deleted)
    }

    /** From the search by e-mail on. */
    method MatchOrSignUp(email: string, subject: string, around: Surroundings)
        returns (result: Result, ghost answers: seq<Answer>, ghost matched: Option<int>)
      requires OneToOne(Tables()) && around.newUser >= 1 && around.newUser !in users
      requires Trim(subject) == subject && !IsBlank(subject)
      modifies this
      ensures OneToOne(Tables()) && Granted(result, subject, around.now)
      ensures forall r :: r in old(links) ==> r in links && links[r] == old(links)[r]
      ensures forall id :: id in old(users) ==> id in users && users[id] == old(users)[id]
      ensures JoinsExactly(old(Tables()), Tables(), email, matched, subject, around, result)
      ensures Reaches(old(Tables()), Matching(subject, email), answers, Tables(), EndOf(subject, result))
    {
      ghost var s := Tables();
      var found := GetUserByLogin(email);
      matched := found;
      if found.Some? {
        result, answers := SignInAs(found.value, users[found.value], subject, around);
      } else {
        ghost var again;
        result, answers, again := SignUpAndLink(email, subject, around);
        NobodyAgain(s, Tables(), email, again, subject, around, result);
      }
      StepThen(s, Matching(subject, email), QUIET.(matched := matched), answers, Tables(), EndOf(subject, result));
      answers := [QUIET.(matched := matched)] + answers;
    }

    /** For a subject that is linked: its account signs in, or if that is deleted the link is given up. */
    method SignInLinked(linked: int, ghost row: int, email: string, subject: string, around: Surroundings)
        returns (result: Result, ghost answers: seq<Answer>, ghost matched: Option<int>)
      requires OneToOne(Tables()) && around.newUser >= 1 && around.newUser !in users
      requires Trim(subject) == subject && !IsBlank(subject) && row in links && links[row] == Link(linked, subject)
      modifies this
      ensures OneToOne(Tables()) && Granted(result, subject, around.now)
      ensures forall id :: id in old(users) ==> id in users && users[id] == old(users)[id]
      ensures forall r :: r in old(links) ==>
                            (r in links && links[r] == old(links)[r]) || MayGo(old(users), old(links)[r], subject)
      ensures if Visible(old(Tables()), linked)
              then Tables() == old(Tables()) && SignsInAs(result, linked, users[linked], around)
              else JoinsExactly(old(Tables()).(links := old(links) - {row}), Tables(), email, matched, subject, around, result)
      ensures Reaches(old(Tables()), Loading(subject, email, linked), answers, Tables(), EndOf(subject, result))
    {
      ghost var s := Tables();
      matched := None;
      var user := GetUserByID(linked);
      if user.Some? {
        result := BuildGoogleSuccessResult(linked, user.value, around);
        BuildStep(s, subject, linked, user.value, around, result);
        answers := [BuildAnswer(linked, around)] + [];
      } else {
        ghost var gone := DeleteIdentityLinkBySubject(subject);
        assert gone == Some(row);
        result, answers, matched := MatchOrSignUp(email, subject, around);
        StepThen(s, Removing(subject, email, row), QUIET, answers, Tables(), EndOf(subject, result));
        StepThen(s, Unlinking(subject, email), QUIET.(row := gone), [QUIET] + answers, Tables(), EndOf(subject, result));
        answers := [QUIET.(row := gone)] + ([QUIET] + answers);
      }
      StepThen(s, Loading(subject, email, linked), QUIET, answers, Tables(), EndOf(subject, result));
      answers := [QUIET] + answers;
    }

    /** Run alone, the call is a run of the machine. On every path a success is the user the store maps the subject to,
        undeleted, active and unsuspended; no account is changed, and no link is lost but the subject's own, and that
        only if its account is deleted. */
    method GoogleAuth(email: Option<string>, providerSubject: string, around: Surroundings)
        returns (result: Result, ghost answers: seq<Answer>, ghost matched: Option<int>)
      requires OneToOne(Tables()) && around.newUser >= 1 && around.newUser !in users
      modifies this
      ensures OneToOne(Tables()) && Granted(result, Trim(providerSubject), around.now)
      ensures email == None || IsBlank(email.value) || IsBlank(providerSubject) ==>
                result == Failure(InvalidRequest) && Tables() == old(Tables())
      // A returning user signs in, exactly if the account is in good standing.
      ensures forall id :: email.Some? && !IsBlank(email.value) && !IsBlank(providerSubject)
                           && MapsTo(old(Tables()), Trim(providerSubject), id) && Visible(old(Tables()), id) ==>
                             Tables() == old(Tables()) && SignsInAs(result, id, users[id], around)
      // A subject that nobody has, or only an account that is gone, joins the account with its e-mail or a new one.
      ensures email.Some? && !IsBlank(email.value) && !IsBlank(providerSubject)
              && !SubjectLinked(old(Tables()), Trim(providerSubject)) ==>
                JoinsExactly(old(Tables()), Tables(), email.value, matched, Trim(providerSubject), around, result)
      ensures forall r :: email.Some? && !IsBlank(email.value) && !IsBlank(providerSubject) && r in old(links)
                          && old(links)[r].subject == Trim(providerSubject) && !Visible(old(Tables()), old(links)[r].user) ==>
                            JoinsExactly(old(Tables()).(links := old(links) - {r}), Tables(), email.value, matched,
                                         Trim(providerSubject), around, result)
      ensures forall id :: id in old(users) ==> id in users && users[id] == old(users)[id]
      ensures forall r :: r in old(links) ==>
                            || (r in links && links[r] == old(links)[r])
                            || MayGo(old(users), old(links)[r], Trim(providerSubject))
      ensures Reaches(old(Tables()), Start(email, providerSubject), answers, Tables(),
                      EndOf(Trim(providerSubject), result))
    {
      TrimIsTrimmed(providerSubject);
      TrimIsTrimmed(Trim(providerSubject));
      if email == None || IsBlank(email.value) {
        return Failure(InvalidRequest), [], None;
      }
      var subject := Trim(providerSubject);
      if subject == "" {
        return Failure(InvalidRequest), [], None;
      }
      ghost var s := Tables();
      var linked;
      ghost var row;
      linked, row := FindUserIdByProviderSubject(subject);
      ghost var found := QUIET.(row := row);
      if linked == None {
        result, answers, matched := MatchOrSignUp(email.value, subject, around);
        StepThen(s, Looking(subject, email.value), found, answers, Tables(), EndOf(subject, result));
        answers := [found] + answers;
        return;
      }
      result, answers, matched := SignInLinked(linked.value, row.value, email.value, subject, around);
      StepThen(s, Looking(subject, email.value), found, answers, Tables(), EndOf(subject, result));
      answers := [found] + answers;
    }
  }
}
