/** Returning users: a sign-in with a subject that is linked to a visible account, whatever goes on around it. */
module GoogleReturning {
  import opened Wrappers
  import opened GoogleSignIn
  import opened GoogleLinking

  /** The call works on the subject and is on its way to the account, with its row as it is stored. */
  predicate OnWayTo(s: Store, call: Call, subject: string, id: int)
    requires id in s.users
  {
    match call
    case Looking(g, _) => g == subject
    case Loading(g, _, linked) => g == subject && linked == id
    case Building(g, i, user) => g == subject && i == id && user == s.users[id]
    case _ => false
  }

  function StepsLeft(call: Call): nat {
    match call
    case Looking(_, _) => 3
    case Loading(_, _, _) => 2
    case Building(_, _, _) => 1
    case _ => 0
  }

  /** What the services answer lets the account in: no lockout, an active account without a suspension, and a role. */
  predicate LetsIn(user: User, a: Answer) {
    && !a.locked && !user.deleted && user.status == 1 && a.hasRole
    && (user.suspendedUntil == None || user.suspendedUntil.value <= a.now)
  }

  /** The answer to the last own step of call i in the run that it takes from `Building`. */
  function Verdict(w: World, es: seq<Event>, i: nat): Option<Answer>
    requires ValidRun(w, es)
    decreases es
  {
    if es == [] then None
    else if es[0].Advance? && es[0].id == i && w.calls[i].Building? then Some(es[0].answer)
    else Verdict(Next(w, es[0]), es[1..], i)
  }

  /** Nobody changes the account. */
  predicate LeavesAccount(es: seq<Event>, id: int) {
    forall e <- es :: !(e.ChangeUser? && e.user == id)
  }

  ghost predicate Returning(w: World, i: nat, subject: string, id: int) {
    && OneToOne(w.store) && MapsTo(w.store, subject, id) && Visible(w.store, id)
    && i in w.calls && OnWayTo(w.store, w.calls[i], subject, id)
  }

  lemma AccountKept(s: Store, call: Call, a: Answer, id: int)
    requires Honest(s, call, a) && id in s.users
    ensures id in Changed(s, call, a).users && Changed(s, call, a).users[id] == s.users[id]
  {}

  /** A call on its way comes nearer the account with each of its own steps. */
  lemma OwnStep(s: Store, call: Call, a: Answer, subject: string, id: int)
    requires OneToOne(s) && MapsTo(s, subject, id) && Visible(s, id) && OnWayTo(s, call, subject, id) && Honest(s, call, a)
    ensures Changed(s, call, a) == s
    ensures !call.Building? ==>
              OnWayTo(s, Continue(s, call, a), subject, id) && StepsLeft(Continue(s, call, a)) == StepsLeft(call) - 1
    ensures call.Building? ==>
              if LetsIn(s.users[id], a) then Continue(s, call, a) == Succeeded(subject, id, s.users[id])
              else Continue(s, call, a).Failed?
  {}

  lemma ReturningStays(w: World, e: Event, i: nat, subject: string, id: int)
    requires Returning(w, i, subject, id) && Enabled(w, e) && !Unlinks(w, e, subject) && LeavesAccount([e], id)
    requires !(e.Advance? && e.id == i && w.calls[i].Building?)
    ensures Returning(Next(w, e), i, subject, id) && Next(w, e).store.users[id] == w.store.users[id]
    ensures StepsLeft(Next(w, e).calls[i]) == StepsLeft(w.calls[i]) - if e.Advance? && e.id == i then 1 else 0
  {
    assert e in [e];
    EventKeepsOneToOne(w, e);
    MappingKept(w, e, subject, id);
    if e.Advance? {
      AccountKept(w.store, w.calls[e.id], e.answer, id);
      if e.id == i { OwnStep(w.store, w.calls[i], e.answer, subject, id); }
    }
  }

  lemma {:induction false} EndedStays(w: World, es: seq<Event>, i: nat)
    requires ValidRun(w, es) && i in w.calls && (w.calls[i].Succeeded? || w.calls[i].Failed?)
    ensures i in After(w, es).calls && After(w, es).calls[i] == w.calls[i]
    decreases es
  {
    if es != [] { EndedStays(Next(w, es[0]), es[1..], i); }
  }

  /** However sign-ins interleave, while nobody changes the account or removes its link: a call of the subject has ended
      after its own three steps, signed in as that account exactly if the services let it in at its last step, and
      refused otherwise. */
  lemma {:induction false} ReturningUserSignsInExactly(w: World, es: seq<Event>, i: nat, subject: string, id: int)
    requires Returning(w, i, subject, id)
    requires ValidRun(w, es) && NeverUnlinked(w, es, subject) && LeavesAccount(es, id)
    ensures i in After(w, es).calls
    ensures OwnSteps(es, i) >= StepsLeft(w.calls[i]) ==> Verdict(w, es, i).Some?
    ensures var answer := Verdict(w, es, i);
            match answer
            case None => Returning(After(w, es), i, subject, id)
            case Some(a) => if LetsIn(w.store.users[id], a)
                            then After(w, es).calls[i] == Succeeded(subject, id, w.store.users[id])
                            else After(w, es).calls[i].Failed?
    decreases es
  {
    if es != [] {
      var e := es[0];
      assert e in es;
      if e.Advance? && e.id == i && w.calls[i].Building? {
        OwnStep(w.store, w.calls[i], e.answer, subject, id);
        EndedStays(Next(w, e), es[1..], i);
      } else {
        ReturningStays(w, e, i, subject, id);
        ReturningUserSignsInExactly(Next(w, e), es[1..], i, subject, id);
      }
    }
  }
}
