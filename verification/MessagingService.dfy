/** The message and conversation services as written: one method a call, run against the two tables. */
module MessagingServiceObject {
  import opened Wrappers
  import opened Messaging

  /** A call run alone, one answer a step. */
  ghost predicate Reaches(s: Store, call: Call, answers: seq<Answer>, t: Store, end: Call)
    decreases answers
  {
    if answers == [] then s == t && call == end
    else
      && Honest(s, call, answers[0])
      && Reaches(Inserted(s, call, answers[0]), Continue(s, call, answers[0]), answers[1..], t, end)
  }

  lemma {:induction false} ReachesOn(s: Store, call: Call, first: seq<Answer>, t: Store, mid: Call,
                                     rest: seq<Answer>, u: Store, end: Call)
    requires Reaches(s, call, first, t, mid) && Reaches(t, mid, rest, u, end)
    ensures Reaches(s, call, first + rest, u, end)
    decreases first
  {
    if first == [] {
      assert first + rest == rest;
    } else {
      assert (first + rest)[1..] == first[1..] + rest;
      ReachesOn(Inserted(s, call, first[0]), Continue(s, call, first[0]), first[1..], t, mid, rest, u, end);
    }
  }

  lemma OneStep(s: Store, call: Call, answer: Answer)
    requires Honest(s, call, answer)
    ensures Reaches(s, call, [answer], Inserted(s, call, answer), Continue(s, call, answer))
  {
    assert [answer][1..] == [];
  }

  /** A call that runs alone leaves the tables as well as it found them. */
  lemma {:induction false} ReachesKeepsInv(s: Store, call: Call, answers: seq<Answer>, t: Store, end: Call)
    requires Inv(World(s, map[])) && CallFits(s, call) && Reaches(s, call, answers, t, end)
    ensures Inv(World(t, map[])) && CallFits(t, end)
    decreases answers
  {
    if answers != [] {
      InsertedKeeps(s, call, answers[0]);
      ContinueFits(s, call, answers[0]);
      ReachesKeepsInv(Inserted(s, call, answers[0]), Continue(s, call, answers[0]), answers[1..], t, end);
    }
  }

  // ---- what a send that nothing interrupts does ----

  /** The message is added, unread, or its keys fail and nothing is. */
  ghost predicate Saved(s: Store, t: Store, sender: int, receiver: int, post: Option<int>, conversation: int, at: int,
                        next: int, keyFails: bool, outcome: Call) {
    if keyFails then t == s && outcome == Failed(Thrown)
    else
      && next !in s.messages && outcome == Sent(next, sender, receiver, post, conversation)
      && t == s.(messages := s.messages[next := Message(sender, receiver, conversation, at, false, false)])
  }

  /** The undeleted conversation of the thread is found, or a new one made. */
  ghost predicate Opened(s: Store, t: Store, a: int, b: int, post: Option<int>, keyFails: bool, next: int, id: Option<int>) {
    if !FoundRight(s, a, b, post, None) then t == s && id.Some? && FoundRight(s, a, b, post, id)
    else if keyFails || Taken(s, a, b, post) then t == s && id == None
    else
      && next >= 1 && next !in s.conversations && id == Some(next)
      && t == s.(conversations := s.conversations[next := Conversation(Lower(a, b), Higher(a, b), post, false)])
  }

  /** Into a named conversation: only a participant may, only to the other one, and then the message is added. */
  ghost predicate RepliesExactly(s: Store, t: Store, sender: int, conversation: int, wanted: Option<int>, at: int,
                                 next: int, keyFails: bool, outcome: Call) {
    if !Visible(s, conversation) || sender !in {s.conversations[conversation].user1, s.conversations[conversation].user2}
    then t == s && outcome == Failed(Forbidden)
    else
      var c := s.conversations[conversation];
      var other := if sender == c.user1 then c.user2 else c.user1;
      if wanted.Some? && wanted.value != other then t == s && outcome == Failed(InvalidRequest)
      else Saved(s, t, sender, other, c.post, conversation, at, next, keyFails, outcome)
  }

  /** To a named receiver: in their undeleted conversation about the post, or in a new one unless a deleted one is in the
      way or its keys fail. */
  ghost predicate DeliversExactly(s: Store, t: Store, sender: int, receiver: int, post: Option<int>, at: int, next: int,
                                  nextConversation: int, pairFails: bool, keyFails: bool, outcome: Call) {
    var lower, higher := Lower(sender, receiver), Higher(sender, receiver);
    if exists id :: Visible(s, id) && s.conversations[id] == Conversation(lower, higher, post, false) then
      forall id :: Visible(s, id) && s.conversations[id] == Conversation(lower, higher, post, false) ==>
        Saved(s, t, sender, receiver, post, id, at, next, keyFails, outcome)
    else if pairFails || Taken(s, sender, receiver, post) then t == s && outcome == Failed(PersistenceFailed)
    else
      && nextConversation !in s.conversations
      && Saved(s.(conversations := s.conversations[nextConversation := Conversation(lower, higher, post, false)]), t,
               sender, receiver, post, nextConversation, at, next, keyFails, outcome)
  }

  /** A conversation named comes before a receiver named; without either, or to oneself, nothing is sent. */
  ghost predicate SendsExactly(s: Store, t: Store, command: Command, at: int, next: int, nextConversation: int,
                               pairFails: bool, keyFails: bool, outcome: Call) {
    var named := command.conversation.Some? && command.conversation.value > 0;
    var addressed := command.receiver.Some? && command.receiver.value > 0 && command.receiver.value != command.sender;
    if command.sender < 1 || !command.acceptable || (!named && !addressed) then t == s && outcome == Failed(InvalidRequest)
    else if named then
      RepliesExactly(s, t, command.sender, command.conversation.value, command.receiver, at, next, keyFails, outcome)
    else
      DeliversExactly(s, t, command.sender, command.receiver.value, command.post, at, next, nextConversation, pairFails,
                      keyFails, outcome)
  }

  const NO_ANSWER := Answer(None, 0, false, 0)

  class MessageService {
    var conversations: map<int, Conversation>
    var messages: map<int, Message>
    var nextConversation: int
    var nextMessage: int

    constructor ()
      ensures Valid() && Tables() == EMPTY.store
    {
      conversations, messages, nextConversation, nextMessage := map[], map[], 1, 1;
    }

    function Tables(): Store
      reads this
    {
      Store(conversations, messages)
    }

    /** Identity columns give out numbers not used before. */
    ghost predicate Numbered()
      reads this
    {
      && nextConversation >= 1 && nextMessage >= 1
      && (forall id :: id in conversations ==> id < nextConversation)
      && (forall id :: id in messages ==> id < nextMessage)
    }

    /** Between calls the two tables are as every run of the machine leaves them. */
    ghost predicate Valid()
      reads this
    {
      Numbered() && Inv(World(Tables(), map[]))
    }

    method FindConversationId(a: int, b: int, post: Option<int>) returns (found: Option<int>)
      ensures FoundRight(Tables(), a, b, post, found)
    {
      var ids := set id | id in conversations && !conversations[id].deleted && InThread(conversations[id], a, b, post);
      if ids == {} {
        assert forall id :: id in conversations && Visible(Tables(), id) && InThread(conversations[id], a, b, post) ==>
            id in ids;
        found := None;
      } else {
        var id := AnyOf(ids);
        found := Some(id);
      }
    }

    method IsUserInConversation(conversation: int, user: int) returns (allowed: bool)
      ensures allowed == CanAccess(Tables(), conversation, user)
    {
      if conversation < 1 || user < 1 {
        return false;
      }
      return conversation in conversations && !conversations[conversation].deleted
        && (conversations[conversation].user1 == user || conversations[conversation].user2 == user);
    }

    method CreateConversation(a: int, b: int, post: Option<int>, keyFails: bool)
        returns (id: Option<int>, ghost answers: seq<Answer>)
      requires Numbered()
      modifies this
      ensures Numbered() && messages == old(messages) && nextMessage == old(nextMessage)
      ensures !keyFails && !Taken(old(Tables()), a, b, post) ==>
                && id == Some(old(nextConversation)) && id.value !in old(conversations) && id.value >= 1
                && conversations == old(conversations)[id.value := Conversation(Lower(a, b), Higher(a, b), post, false)]
      ensures keyFails || Taken(old(Tables()), a, b, post) ==>
                Tables() == old(Tables()) && FoundRight(Tables(), a, b, post, id)
      ensures Reaches(old(Tables()), Inserting(a, b, post), answers, Tables(),
                      if id.Some? then Entering(a, b, post, id.value) else Failed(PersistenceFailed))
    {
      var answer := Answer(None, nextConversation, keyFails, 0);
      OneStep(Tables(), Inserting(a, b, post), answer);
      if keyFails || exists c <- conversations :: InThread(conversations[c], a, b, post) {
        id := FindConversationId(a, b, post);
        OneStep(Tables(), FindingAgain(a, b, post), NO_ANSWER.(found := id));
        answers := [answer, NO_ANSWER.(found := id)];
        ReachesOn(Tables(), Inserting(a, b, post), [answer], Tables(), FindingAgain(a, b, post),
                  [NO_ANSWER.(found := id)], Tables(),
                  if id.Some? then Entering(a, b, post, id.value) else Failed(PersistenceFailed));
        assert [answer] + [NO_ANSWER.(found := id)] == answers;
      } else {
        conversations := conversations[nextConversation := Conversation(Lower(a, b), Higher(a, b), post, false)];
        id, answers := Some(nextConversation), [answer];
        nextConversation := nextConversation + 1;
      }
    }

    /** None also for identifiers no user can have. */
    method GetOrCreateConversationId(a: int, b: int, post: Option<int>, keyFails: bool)
        returns (id: Option<int>, ghost answers: seq<Answer>)
      requires Numbered()
      modifies this
      ensures Numbered() && messages == old(messages) && nextMessage == old(nextMessage)
      ensures a >= 1 && b >= 1 && a != b ==> Opened(old(Tables()), Tables(), a, b, post, keyFails, old(nextConversation), id)
      ensures a < 1 || b < 1 || a == b ==> id == None && Tables() == old(Tables())
      ensures a >= 1 && b >= 1 && a != b ==>
                Reaches(old(Tables()), Finding(a, b, post), answers, Tables(),
                        if id.Some? then Entering(a, b, post, id.value) else Failed(PersistenceFailed))
    {
      if a < 1 || b < 1 || a == b {
        return None, [];
      }
      ghost var s := Tables();
      id := FindConversationId(a, b, post);
      ghost var answer := NO_ANSWER.(found := id);
      OneStep(s, Finding(a, b, post), answer);
      answers := [answer];
      if id == None {
        ghost var more;
        id, more := CreateConversation(a, b, post, keyFails);
        answers := answers + more;
        ReachesOn(s, Finding(a, b, post), [answer], s, Inserting(a, b, post), more, Tables(),
                  if id.Some? then Entering(a, b, post, id.value) else Failed(PersistenceFailed));
      }
    }

    /** None when the row is refused by a foreign key. */
    method AddMessage(sender: int, receiver: int, conversation: int, at: int, keyFails: bool) returns (id: Option<int>)
      requires Numbered()
      modifies this
      ensures Numbered() && conversations == old(conversations)
      ensures keyFails ==> id == None && messages == old(messages)
      ensures !keyFails ==>
                && id == Some(old(nextMessage)) && id.value !in old(messages) && id.value >= 1
                && messages == old(messages)[id.value := Message(sender, receiver, conversation, at, false, false)]
    {
      if keyFails {
        return None;
      }
      messages := messages[nextMessage := Message(sender, receiver, conversation, at, false, false)];
      id := Some(nextMessage);
      nextMessage := nextMessage + 1;
    }

    /** The participant check, then the insert. */
    method Save(sender: int, receiver: int, post: Option<int>, conversation: int, at: int, keyFails: bool)
        returns (outcome: Call, ghost answers: seq<Answer>)
      requires Numbered()
      modifies this
      ensures Numbered() && StepsLeft(outcome) == 0
      ensures if CanAccess(old(Tables()), conversation, sender)
              then Saved(old(Tables()), Tables(), sender, receiver, post, conversation, at, old(nextMessage), keyFails, outcome)
              else Tables() == old(Tables()) && outcome == Failed(PersistenceFailed)
      ensures Reaches(old(Tables()), Saving(sender, receiver, post, conversation), answers, Tables(), outcome)
    {
      ghost var s := Tables();
      var allowed := IsUserInConversation(conversation, sender);
      OneStep(s, Saving(sender, receiver, post, conversation), NO_ANSWER);
      if !allowed {
        return Failed(PersistenceFailed), [NO_ANSWER];
      }
      ghost var answer := Answer(None, nextMessage, keyFails, at);
      OneStep(s, Adding(sender, receiver, post, conversation), answer);
      var id := AddMessage(sender, receiver, conversation, at, keyFails);
      outcome := if id == None then Failed(Thrown) else Sent(id.value, sender, receiver, post, conversation);
      answers := [NO_ANSWER] + [answer];
      ReachesOn(s, Saving(sender, receiver, post, conversation), [NO_ANSWER], s,
                Adding(sender, receiver, post, conversation), [answer], Tables(), outcome);
    }

    /** The path of a command that names its conversation. */
    method SendInConversation(sender: int, conversation: int, wanted: Option<int>, at: int, keyFails: bool)
        returns (outcome: Call, ghost answers: seq<Answer>)
      requires Valid() && sender >= 1
      modifies this
      ensures Numbered() && StepsLeft(outcome) == 0
      ensures RepliesExactly(old(Tables()), Tables(), sender, conversation, wanted, at, old(nextMessage), keyFails, outcome)
      ensures Reaches(old(Tables()), Checking(sender, conversation, wanted), answers, Tables(), outcome)
    {
      ghost var s := Tables();
      var allowed := IsUserInConversation(conversation, sender);
      OneStep(s, Checking(sender, conversation, wanted), NO_ANSWER);
      if !allowed {
        return Failed(Forbidden), [NO_ANSWER];
      }
      var metadata := conversations[conversation];
      var receiver := OtherParticipant(metadata, sender);
      ghost var mid := ReadMetadata(s, sender, conversation, wanted);
      OneStep(s, Reading(sender, conversation, wanted), NO_ANSWER);
      answers := [NO_ANSWER] + [NO_ANSWER];
      ReachesOn(s, Checking(sender, conversation, wanted), [NO_ANSWER], s, Reading(sender, conversation, wanted),
                [NO_ANSWER], s, mid);
      if receiver < 1 {
        return Failed(Forbidden), answers;
      }
      if wanted.Some? && wanted.value != receiver {
        return Failed(InvalidRequest), answers;
      }
      ghost var more;
      outcome, more := Save(sender, receiver, metadata.post, conversation, at, keyFails);
      ReachesOn(s, Checking(sender, conversation, wanted), answers, s, mid, more, Tables(), outcome);
      answers := answers + more;
    }

    /** The path of a command that names its receiver. */
    method SendToReceiver(sender: int, receiver: int, post: Option<int>, at: int, pairFails: bool, keyFails: bool)
        returns (outcome: Call, ghost answers: seq<Answer>)
      requires Valid() && sender >= 1 && receiver >= 1 && sender != receiver
      modifies this
      ensures Numbered() && StepsLeft(outcome) == 0
      ensures DeliversExactly(old(Tables()), Tables(), sender, receiver, post, at, old(nextMessage), old(nextConversation),
                              pairFails, keyFails, outcome)
      ensures Reaches(old(Tables()), Finding(sender, receiver, post), answers, Tables(), outcome)
    {
      ghost var s := Tables();
      var id;
      id, answers := GetOrCreateConversationId(sender, receiver, post, pairFails);
      if id == None {
        return Failed(PersistenceFailed), answers;
      }
      ghost var t := Tables();
      var allowed := IsUserInConversation(id.value, sender);
      OneStep(t, Entering(sender, receiver, post, id.value), NO_ANSWER);
      ReachesOn(s, Finding(sender, receiver, post), answers, t, Entering(sender, receiver, post, id.value),
                [NO_ANSWER], t, Continue(t, Entering(sender, receiver, post, id.value), NO_ANSWER));
      answers := answers + [NO_ANSWER];
      if !allowed {
        return Failed(Forbidden), answers;
      }
      var kept := conversations[id.value].post;
      OneStep(t, Describing(sender, receiver, post, id.value), NO_ANSWER);
      ReachesOn(s, Finding(sender, receiver, post), answers, t, Describing(sender, receiver, post, id.value),
                [NO_ANSWER], t, Saving(sender, receiver, kept, id.value));
      answers := answers + [NO_ANSWER];
      ghost var more;
      outcome, more := Save(sender, receiver, kept, id.value, at, keyFails);
      ReachesOn(s, Finding(sender, receiver, post), answers, t, Saving(sender, receiver, kept, id.value),
                more, Tables(), outcome);
      answers := answers + more;
    }

    /** A send that nothing interrupts is a run of the machine, from its start to its end. */
    method SendMessage(command: Command, at: int, pairFails: bool, keyFails: bool)
        returns (outcome: Call, ghost answers: seq<Answer>)
      requires Valid()
      modifies this
      ensures Valid() && StepsLeft(outcome) == 0
      ensures SendsExactly(old(Tables()), Tables(), command, at, old(nextMessage), old(nextConversation), pairFails,
                           keyFails, outcome)
      ensures Reaches(old(Tables()), Start(command), answers, Tables(), outcome)
      ensures CallFits(Tables(), outcome)
    {
      ghost var s := Tables();
      outcome, answers := Send(command, at, pairFails, keyFails);
      ReachesKeepsInv(s, Start(command), answers, Tables(), outcome);
    }

    method Send(command: Command, at: int, pairFails: bool, keyFails: bool)
        returns (outcome: Call, ghost answers: seq<Answer>)
      requires Valid()
      modifies this
      ensures Numbered() && StepsLeft(outcome) == 0
      ensures SendsExactly(old(Tables()), Tables(), command, at, old(nextMessage), old(nextConversation), pairFails,
                           keyFails, outcome)
      ensures Reaches(old(Tables()), Start(command), answers, Tables(), outcome)
    {
      if command.sender < 1 || !command.acceptable {
        return Failed(InvalidRequest), [];
      }
      if command.conversation.Some? && command.conversation.value > 0 {
        outcome, answers :=
          SendInConversation(command.sender, command.conversation.value, command.receiver, at, keyFails);
      } else if command.receiver.Some? && command.receiver.value > 0 {
        if command.receiver.value == command.sender {
          return Failed(InvalidRequest), [];
        }
        outcome, answers :=
          SendToReceiver(command.sender, command.receiver.value, command.post, at, pairFails, keyFails);
      } else {
        return Failed(InvalidRequest), [];
      }
    }

    /** One update statement: afterwards nothing in the conversation is unread for the reader, and the answer says
        whether anything was. Only the read flags of what others wrote there change. */
    method MarkMessagesAsRead(conversation: int, receiver: int) returns (any: bool)
      requires Valid()
      modifies this`messages
      ensures Tables() == Messaging.MarkMessagesAsRead(old(Tables()), conversation, receiver)
      ensures messages.Keys == old(messages).Keys && UnreadFor(Tables(), conversation, receiver) == {}
      ensures forall id <- messages ::
                messages[id].read <==> || old(messages)[id].read
                                       || (&& old(messages)[id].conversation == conversation
                                           && old(messages)[id].sender != receiver && !old(messages)[id].deleted)
      ensures forall id <- messages ::
                messages[id] == old(messages)[id] || (old(messages)[id].conversation == conversation
                                                      && messages[id] == old(messages)[id].(read := true))
      ensures forall id <- messages :: old(messages)[id].sender == receiver ==> messages[id] == old(messages)[id]
      ensures any <==> messages != old(messages)
      ensures Valid()
    {
      var ids := set id | id in messages && messages[id].conversation == conversation
                          && messages[id].sender != receiver && !messages[id].read && !messages[id].deleted;
      assert ids == UnreadFor(Tables(), conversation, receiver);
      EventKeepsInv(World(Tables(), map[]), Mark(conversation, receiver));
      any := SetRead(ids);
    }

    /** The update of the read flags, and whether it hit a row. */
    method SetRead(ids: set<int>) returns (any: bool)
      requires forall id <- ids :: id in messages && !messages[id].read
      modifies this`messages
      ensures Tables() == MarkWhere(old(Tables()), ids)
      ensures any <==> messages != old(messages)
      ensures any <==> ids != {}
    {
      ghost var before := messages;
      messages := map id | id in messages :: if id in ids then messages[id].(read := true) else messages[id];
      if ids == {} {
        assert messages == before;
      } else {
        var id := AnyOf(ids);
        assert messages[id] != before[id];
      }
      var updatedRows := |ids|;
      any := updatedRows > 0;
    }

    /** One update statement: exactly the messages that the other user has sent to this one, in whichever of their
        undeleted conversations, become read; everything else is as before. */
    method MarkMessagesAsReadBetweenUsers(current: int, other: int) returns (any: bool)
      requires Valid()
      modifies this`messages
      ensures Valid() && Tables() == MarkBetweenUsers(old(Tables()), current, other)
      ensures messages.Keys == old(messages).Keys
      ensures forall id <- messages :: messages[id] == old(messages)[id].(read := messages[id].read)
      ensures forall id <- messages ::
                var m := old(messages)[id];
                messages[id].read <==> m.read || (m.sender == other && m.receiver == current && !m.deleted
                                                  && !conversations[m.conversation].deleted)
      ensures any <==> messages != old(messages)
    {
      var user1, user2 := Lower(current, other), Higher(current, other);
      var conversationIds := set c | c in conversations && !conversations[c].deleted
                                     && conversations[c].user1 == user1 && conversations[c].user2 == user2;
      assert forall c <- conversations :: conversations[c].user1 == user1 && conversations[c].user2 == user2 <==>
                                          Between(conversations[c], current, other);
      assert conversationIds == ConversationsBetween(Tables(), current, other);
      var ids := set id | id in messages && messages[id].conversation in conversationIds
                          && messages[id].sender == other && messages[id].receiver == current
                          && !messages[id].read && !messages[id].deleted;
      assert ids == UnreadBetween(Tables(), current, other);
      ghost var w := World(Tables(), map[]);
      EventKeepsInv(w, MarkBetween(current, other));
      forall id | id in messages
        ensures && MarkBetweenUsers(Tables(), current, other).messages.Keys == messages.Keys
                && var m, n := messages[id], MarkBetweenUsers(Tables(), current, other).messages[id];
                   && n == m.(read := n.read)
                   && (n.read != m.read <==> m.sender == other && m.receiver == current && !m.read && !m.deleted
                                             && !conversations[m.conversation].deleted)
      {
        MarkingTouchesNothingElse(w, current, other, id);
      }
      any := SetRead(ids);
    }
  }
}
