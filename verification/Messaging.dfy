/** Conversations and messages: the calls that send a message, cut at every database round trip and
    interleaved with each other, with read marking and with soft deletion. */
module Messaging {
  import opened Wrappers

  datatype Conversation = Conversation(user1: int, user2: int, post: Option<int>, deleted: bool)

  datatype Message = Message(sender: int, receiver: int, conversation: int, at: int, read: bool, deleted: bool)

  datatype Store = Store(conversations: map<int, Conversation>, messages: map<int, Message>)

  datatype Command = Command(sender: int, conversation: Option<int>, receiver: Option<int>, post: Option<int>,
                             acceptable: bool)

  datatype Failure = InvalidRequest | Forbidden | NotFound | PersistenceFailed | Thrown

  /** Where a sending call stands; each state but the last two is one await. */
  datatype Call =
    | Checking(sender: int, conversation: int, wanted: Option<int>)
    | Reading(sender: int, conversation: int, wanted: Option<int>)
    | Finding(sender: int, receiver: int, post: Option<int>)
    | Inserting(sender: int, receiver: int, post: Option<int>)
    | FindingAgain(sender: int, receiver: int, post: Option<int>)
    | Entering(sender: int, receiver: int, post: Option<int>, conversation: int)
    | Describing(sender: int, receiver: int, post: Option<int>, conversation: int)
    | Saving(sender: int, receiver: int, post: Option<int>, conversation: int)
    | Adding(sender: int, receiver: int, post: Option<int>, conversation: int)
    | Sent(message: int, sender: int, receiver: int, post: Option<int>, conversation: int)
    | Failed(reason: Failure)

  /** What the database answers: the row found, the identity given out, whether a foreign key fails, the time. */
  datatype Answer = Answer(found: Option<int>, newId: int, keyFails: bool, at: int)

  function Lower(a: int, b: int): int { if a <= b then a else b }

  function Higher(a: int, b: int): int { if a <= b then b else a }

  predicate Between(c: Conversation, a: int, b: int) {
    c.user1 == Lower(a, b) && c.user2 == Higher(a, b)
  }

  predicate InThread(c: Conversation, a: int, b: int, post: Option<int>) {
    Between(c, a, b) && c.post == post
  }

  predicate Visible(s: Store, id: int) {
    id in s.conversations && !s.conversations[id].deleted
  }

  predicate CanAccess(s: Store, id: int, user: int) {
    id >= 1 && user >= 1 && Visible(s, id) && (s.conversations[id].user1 == user || s.conversations[id].user2 == user)
  }

  predicate Taken(s: Store, a: int, b: int, post: Option<int>) {
    exists id :: id in s.conversations && InThread(s.conversations[id], a, b, post)
  }

  /** A correct answer to the search for an undeleted row of the thread. */
  predicate FoundRight(s: Store, a: int, b: int, post: Option<int>, found: Option<int>) {
    match found
    case Some(id) => Visible(s, id) && InThread(s.conversations[id], a, b, post)
    case None => forall id :: id in s.conversations && Visible(s, id) ==> !InThread(s.conversations[id], a, b, post)
  }

  predicate Honest(s: Store, call: Call, answer: Answer) {
    match call
    case Finding(a, b, post) => FoundRight(s, a, b, post, answer.found)
    case FindingAgain(a, b, post) => FoundRight(s, a, b, post, answer.found)
    case Inserting(_, _, _) => answer.newId >= 1 && answer.newId !in s.conversations
    case Adding(_, _, _, _) => answer.newId >= 1 && answer.newId !in s.messages
    case _ => true
  }

  function Start(command: Command): Call {
    if command.sender < 1 || !command.acceptable then Failed(InvalidRequest)
    else if command.conversation.Some? && command.conversation.value > 0 then
      Checking(command.sender, command.conversation.value, command.receiver)
    else if command.receiver.Some? && command.receiver.value > 0 then
      if command.receiver.value == command.sender then Failed(InvalidRequest)
      else Finding(command.sender, command.receiver.value, command.post)
    else Failed(InvalidRequest)
  }

  function OtherParticipant(c: Conversation, user: int): int {
    if user == c.user1 then c.user2 else if user == c.user2 then c.user1 else 0
  }

  function ReadMetadata(s: Store, sender: int, conversation: int, wanted: Option<int>): Call {
    if !Visible(s, conversation) then Failed(NotFound)
    else
      var c := s.conversations[conversation];
      var receiver := OtherParticipant(c, sender);
      if receiver < 1 then Failed(Forbidden)
      else if wanted.Some? && wanted.value != receiver then Failed(InvalidRequest)
      else Saving(sender, receiver, c.post, conversation)
  }

  predicate InsertFails(s: Store, a: int, b: int, post: Option<int>, answer: Answer) {
    answer.keyFails || Taken(s, a, b, post)
  }

  function Inserted(s: Store, call: Call, answer: Answer): Store {
    match call
    case Inserting(a, b, post) =>
      if InsertFails(s, a, b, post, answer) then s
      else s.(conversations := s.conversations[answer.newId := Conversation(Lower(a, b), Higher(a, b), post, false)])
    case Adding(a, b, _, c) =>
      if answer.keyFails then s
      else s.(messages := s.messages[answer.newId := Message(a, b, c, answer.at, false, false)])
    case _ => s
  }

  function Continue(s: Store, call: Call, answer: Answer): Call {
    match call
    case Checking(a, c, wanted) => if CanAccess(s, c, a) then Reading(a, c, wanted) else Failed(Forbidden)
    case Reading(a, c, wanted) => ReadMetadata(s, a, c, wanted)
    case Finding(a, b, post) =>
      if answer.found.Some? then Entering(a, b, post, answer.found.value) else Inserting(a, b, post)
    case Inserting(a, b, post) =>
      if InsertFails(s, a, b, post, answer) then FindingAgain(a, b, post) else Entering(a, b, post, answer.newId)
    case FindingAgain(a, b, post) =>
      if answer.found.Some? then Entering(a, b, post, answer.found.value) else Failed(PersistenceFailed)
    case Entering(a, b, post, c) => if CanAccess(s, c, a) then Describing(a, b, post, c) else Failed(Forbidden)
    case Describing(a, b, post, c) => Saving(a, b, if Visible(s, c) then s.conversations[c].post else post, c)
    case Saving(a, b, post, c) => if CanAccess(s, c, a) then Adding(a, b, post, c) else Failed(PersistenceFailed)
    case Adding(a, b, post, c) =>
      if answer.keyFails then Failed(Thrown) else Sent(answer.newId, a, b, post, c)
    case _ => call
  }

  // ---- read marking ----

  function MarkWhere(s: Store, ids: set<int>): Store {
    s.(messages := map id | id in s.messages ::
         if id in ids then s.messages[id].(read := true) else s.messages[id])
  }

  function UnreadFor(s: Store, conversation: int, receiver: int): set<int> {
    set id | id in s.messages && s.messages[id].conversation == conversation
             && s.messages[id].sender != receiver && !s.messages[id].read && !s.messages[id].deleted
  }

  function MarkMessagesAsRead(s: Store, conversation: int, receiver: int): Store {
    MarkWhere(s, UnreadFor(s, conversation, receiver))
  }

  function ConversationsBetween(s: Store, a: int, b: int): set<int> {
    set id | id in s.conversations && !s.conversations[id].deleted && Between(s.conversations[id], a, b)
  }

  function UnreadBetween(s: Store, current: int, other: int): set<int> {
    set id | id in s.messages && s.messages[id].conversation in ConversationsBetween(s, current, other)
             && s.messages[id].sender == other && s.messages[id].receiver == current
             && !s.messages[id].read && !s.messages[id].deleted
  }

  function MarkBetweenUsers(s: Store, current: int, other: int): Store {
    MarkWhere(s, UnreadBetween(s, current, other))
  }

  // ---- the machine ----

  datatype World = World(store: Store, calls: map<nat, Call>)

  datatype Event =
    | Begin(id: nat, command: Command)
    | Advance(id: nat, answer: Answer)
    | Mark(conversation: int, reader: int)
    | MarkBetween(current: int, other: int)
    | HideConversation(conversation: int, hidden: bool)
    | HideMessage(message: int, hidden: bool)

  predicate Enabled(w: World, e: Event) {
    match e
    case Begin(id, _) => id !in w.calls
    case Advance(id, answer) => id in w.calls && Honest(w.store, w.calls[id], answer)
    case HideConversation(c, _) => c in w.store.conversations
    case HideMessage(m, _) => m in w.store.messages
    case _ => true
  }

  function Next(w: World, e: Event): World
    requires Enabled(w, e)
  {
    var s := w.store;
    match e
    case Begin(id, command) => w.(calls := w.calls[id := Start(command)])
    case Advance(id, answer) =>
      World(Inserted(s, w.calls[id], answer), w.calls[id := Continue(s, w.calls[id], answer)])
    case Mark(c, reader) => w.(store := MarkMessagesAsRead(s, c, reader))
    case MarkBetween(current, other) => w.(store := MarkBetweenUsers(s, current, other))
    case HideConversation(c, hidden) =>
      w.(store := s.(conversations := s.conversations[c := s.conversations[c].(deleted := hidden)]))
    case HideMessage(m, hidden) =>
      w.(store := s.(messages := s.messages[m := s.messages[m].(deleted := hidden)]))
  }

  predicate ValidRun(w: World, es: seq<Event>)
    decreases es
  {
    es != [] ==> Enabled(w, es[0]) && ValidRun(Next(w, es[0]), es[1..])
  }

  function After(w: World, es: seq<Event>): World
    requires ValidRun(w, es)
    decreases es
  {
    if es == [] then w else After(Next(w, es[0]), es[1..])
  }

  const EMPTY := World(Store(map[], map[]), map[])

  // ---- the invariant ----

  predicate Ordered(s: Store) {
    forall id :: id in s.conversations ==> id >= 1 && 1 <= s.conversations[id].user1 < s.conversations[id].user2
  }

  predicate SameThread(c: Conversation, d: Conversation) {
    c.user1 == d.user1 && c.user2 == d.user2 && c.post == d.post
  }

  /** At most one conversation for each pair and post, deleted ones included. */
  predicate OnePerThread(s: Store) {
    forall i, j :: i in s.conversations && j in s.conversations && SameThread(s.conversations[i], s.conversations[j])
                   ==> i == j
  }

  /** Every message runs between the two participants of its conversation. */
  predicate Addressed(s: Store) {
    forall m :: m in s.messages ==>
      && s.messages[m].conversation in s.conversations
      && Between(s.conversations[s.messages[m].conversation], s.messages[m].sender, s.messages[m].receiver)
  }

  predicate Resolved(s: Store, sender: int, receiver: int, post: Option<int>, conversation: int) {
    conversation in s.conversations && InThread(s.conversations[conversation], sender, receiver, post)
  }

  predicate CallFits(s: Store, call: Call) {
    match call
    case Checking(a, _, _) => a >= 1
    case Reading(a, _, _) => a >= 1
    case Finding(a, b, _) => a >= 1 && b >= 1 && a != b
    case Inserting(a, b, _) => a >= 1 && b >= 1 && a != b
    case FindingAgain(a, b, _) => a >= 1 && b >= 1 && a != b
    case Entering(a, b, post, c) => Resolved(s, a, b, post, c)
    case Describing(a, b, post, c) => Resolved(s, a, b, post, c)
    case Saving(a, b, post, c) => Resolved(s, a, b, post, c)
    case Adding(a, b, post, c) => Resolved(s, a, b, post, c)
    case Sent(m, a, b, post, c) =>
      && Resolved(s, a, b, post, c) && m in s.messages
      && s.messages[m].sender == a && s.messages[m].receiver == b && s.messages[m].conversation == c
    case Failed(_) => true
  }

  predicate Inv(w: World) {
    && Ordered(w.store) && OnePerThread(w.store) && Addressed(w.store)
    && forall id :: id in w.calls ==> CallFits(w.store, w.calls[id])
  }

  /** Rows are never removed, and only `deleted` and, one way, `read` ever change. */
  predicate Grows(s: Store, t: Store) {
    && (forall id :: id in s.conversations ==> id in t.conversations && SameThread(s.conversations[id], t.conversations[id]))
    && (forall m :: m in s.messages ==>
          && m in t.messages
          && t.messages[m] == s.messages[m].(read := t.messages[m].read, deleted := t.messages[m].deleted)
          && (s.messages[m].read ==> t.messages[m].read))
  }

  lemma CallFitsGrows(s: Store, t: Store, call: Call)
    requires Grows(s, t) && CallFits(s, call)
    ensures CallFits(t, call)
  {}

  lemma ContinueFits(s: Store, call: Call, answer: Answer)
    requires Ordered(s) && CallFits(s, call) && Honest(s, call, answer)
    ensures CallFits(Inserted(s, call, answer), Continue(s, call, answer))
  {}

  lemma InsertedKeeps(s: Store, call: Call, answer: Answer)
    requires Ordered(s) && OnePerThread(s) && Addressed(s) && CallFits(s, call) && Honest(s, call, answer)
    ensures var t := Inserted(s, call, answer); Ordered(t) && OnePerThread(t) && Addressed(t) && Grows(s, t)
  {
    var t := Inserted(s, call, answer);
    if call.Inserting? && t != s {
      forall i | i in s.conversations ensures !SameThread(s.conversations[i], t.conversations[answer.newId]) {
        if SameThread(s.conversations[i], t.conversations[answer.newId]) {
          assert InThread(s.conversations[i], call.sender, call.receiver, call.post);
        }
      }
    }
  }

  lemma EventKeepsStore(w: World, e: Event)
    requires Inv(w) && Enabled(w, e)
    ensures var t := Next(w, e).store; Ordered(t) && OnePerThread(t) && Addressed(t) && Grows(w.store, t)
  {
    match e
    case Advance(id, answer) => InsertedKeeps(w.store, w.calls[id], answer);
    case _ =>
  }

  lemma EventKeepsInv(w: World, e: Event)
    requires Inv(w) && Enabled(w, e)
    ensures Inv(Next(w, e))
  {
    EventKeepsStore(w, e);
    var v := Next(w, e);
    forall id | id in v.calls ensures CallFits(v.store, v.calls[id]) {
      if e.Advance? && id == e.id {
        ContinueFits(w.store, w.calls[id], e.answer);
      } else if id in w.calls {
        CallFitsGrows(w.store, v.store, w.calls[id]);
      }
    }
  }

  lemma {:induction false} RunKeepsInv(w: World, es: seq<Event>)
    requires Inv(w) && ValidRun(w, es)
    ensures Inv(After(w, es))
    decreases es
  {
    if es != [] {
      EventKeepsInv(w, es[0]);
      RunKeepsInv(Next(w, es[0]), es[1..]);
    }
  }

  // ---- what follows ----

  /** In every reachable state the sender and receiver of a message are the two distinct participants of its
      conversation. */
  lemma MessagesStayBetweenParticipants(es: seq<Event>, m: int)
    requires ValidRun(EMPTY, es) && m in After(EMPTY, es).store.messages
    ensures var s := After(EMPTY, es).store;
            && s.messages[m].conversation in s.conversations
            && var c := s.conversations[s.messages[m].conversation];
               && s.messages[m].sender != s.messages[m].receiver
               && {s.messages[m].sender, s.messages[m].receiver} == {c.user1, c.user2}
  {
    RunKeepsInv(EMPTY, es);
  }

  predicate HasConversation(call: Call) {
    call.Entering? || call.Describing? || call.Saving? || call.Adding? || call.Sent?
  }

  /** Two calls between the same two users about the same post, from either side and however they race, work
      in one conversation. */
  lemma RacingCallsShareTheConversation(es: seq<Event>, i: nat, j: nat)
    requires ValidRun(EMPTY, es) && i in After(EMPTY, es).calls && j in After(EMPTY, es).calls
    requires HasConversation(After(EMPTY, es).calls[i]) && HasConversation(After(EMPTY, es).calls[j])
    ensures var a, b := After(EMPTY, es).calls[i], After(EMPTY, es).calls[j];
            {a.sender, a.receiver} == {b.sender, b.receiver} && a.post == b.post ==> a.conversation == b.conversation
  {
    RunKeepsInv(EMPTY, es);
    var w := After(EMPTY, es);
    var a, b := w.calls[i], w.calls[j];
    assert Resolved(w.store, a.sender, a.receiver, a.post, a.conversation);
    assert Resolved(w.store, b.sender, b.receiver, b.post, b.conversation);
    if {a.sender, a.receiver} == {b.sender, b.receiver} {
      assert a.sender in {b.sender, b.receiver} && a.receiver in {b.sender, b.receiver};
      assert b.sender in {a.sender, a.receiver} && b.receiver in {a.sender, a.receiver};
    }
  }

  lemma GrowsTransitive(s: Store, t: Store, u: Store)
    requires Grows(s, t) && Grows(t, u)
    ensures Grows(s, u)
  {}

  /** Over every run nothing is removed, no message is re-addressed, and what is read stays read. */
  lemma {:induction false} HistoryIsKept(w: World, es: seq<Event>)
    requires Inv(w) && ValidRun(w, es)
    ensures Grows(w.store, After(w, es).store)
    decreases es
  {
    if es != [] {
      EventKeepsStore(w, es[0]);
      EventKeepsInv(w, es[0]);
      HistoryIsKept(Next(w, es[0]), es[1..]);
      GrowsTransitive(w.store, Next(w, es[0]).store, After(w, es).store);
    }
  }

  // ---- when a message to somebody arrives ----

  /** An event with which no conversation disappears and no foreign key fails. */
  predicate Gentle(e: Event) {
    match e
    case Advance(_, answer) => !answer.keyFails
    case HideConversation(_, hidden) => !hidden
    case _ => true
  }

  predicate AllVisible(s: Store) {
    forall id :: id in s.conversations ==> !s.conversations[id].deleted
  }

  /** The sender takes part in the conversation, and the receiver wanted, if any, is the other one in it. */
  predicate Answerable(s: Store, sender: int, conversation: int, wanted: Option<int>) {
    && conversation in s.conversations
    && var c := s.conversations[conversation];
       || (sender == c.user1 && (wanted == None || wanted == Some(c.user2)))
       || (sender == c.user2 && (wanted == None || wanted == Some(c.user1)))
  }

  /** A call that can no longer fail: it is to go into a conversation of the sender, or to somebody else. */
  predicate OnTrack(s: Store, call: Call) {
    match call
    case Checking(a, c, wanted) => Answerable(s, a, c, wanted)
    case Reading(a, c, wanted) => Answerable(s, a, c, wanted)
    case Finding(_, _, _) => true
    case Inserting(_, _, _) => true
    case FindingAgain(a, b, post) => Taken(s, a, b, post)
    case _ => HasConversation(call)
  }

  function StepsLeft(call: Call): nat {
    match call
    case Finding(_, _, _) => 7
    case Inserting(_, _, _) => 6
    case FindingAgain(_, _, _) => 5
    case Entering(_, _, _, _) => 4
    case Describing(_, _, _, _) => 3
    case Checking(_, _, _) => 4
    case Reading(_, _, _) => 3
    case Saving(_, _, _, _) => 2
    case Adding(_, _, _, _) => 1
    case _ => 0
  }

  /** Every step of a call brings it closer to its end, so a call ends after at most seven. */
  lemma CallsEnd(s: Store, call: Call, answer: Answer)
    requires StepsLeft(call) > 0
    ensures StepsLeft(Continue(s, call, answer)) < StepsLeft(call)
  {}

  lemma FoundWhenTaken(s: Store, a: int, b: int, post: Option<int>, found: Option<int>)
    requires AllVisible(s) && Taken(s, a, b, post) && FoundRight(s, a, b, post, found)
    ensures found.Some?
  {
    var id :| id in s.conversations && InThread(s.conversations[id], a, b, post);
    assert Visible(s, id);
  }

  lemma StaysOnTrack(s: Store, call: Call, answer: Answer)
    requires Ordered(s) && AllVisible(s) && CallFits(s, call) && OnTrack(s, call)
    requires Honest(s, call, answer) && !answer.keyFails
    ensures OnTrack(Inserted(s, call, answer), Continue(s, call, answer))
    ensures AllVisible(Inserted(s, call, answer))
  {
    if call.FindingAgain? { FoundWhenTaken(s, call.sender, call.receiver, call.post, answer.found); }
  }

  lemma TakenGrows(s: Store, t: Store, call: Call)
    requires Grows(s, t) && OnTrack(s, call)
    ensures OnTrack(t, call)
  {
    if call.FindingAgain? {
      var id :| id in s.conversations && InThread(s.conversations[id], call.sender, call.receiver, call.post);
      assert InThread(t.conversations[id], call.sender, call.receiver, call.post);
    }
  }

  lemma GentleEventKeepsOnTrack(w: World, e: Event, id: nat)
    requires Inv(w) && Enabled(w, e) && Gentle(e) && AllVisible(w.store)
    requires id in w.calls && OnTrack(w.store, w.calls[id])
    ensures var v := Next(w, e); AllVisible(v.store) && id in v.calls && OnTrack(v.store, v.calls[id])
  {
    EventKeepsStore(w, e);
    if e.Advance? && e.id == id {
      StaysOnTrack(w.store, w.calls[id], e.answer);
    } else {
      TakenGrows(w.store, Next(w, e).store, w.calls[id]);
    }
  }

  function OwnSteps(es: seq<Event>, id: nat): nat {
    if es == [] then 0 else (if es[0].Advance? && es[0].id == id then 1 else 0) + OwnSteps(es[1..], id)
  }

  /** However calls interleave, a message to somebody else, or into a named conversation of the sender, goes through while
      no conversation is deleted and no foreign key fails: after its own remaining steps the call has sent it. Losing the
      insert race costs nothing but a second search. */
  lemma {:induction false} MessageGoesThrough(w: World, es: seq<Event>, id: nat)
    requires Inv(w) && AllVisible(w.store) && ValidRun(w, es) && (forall e <- es :: Gentle(e))
    requires id in w.calls && OnTrack(w.store, w.calls[id])
    ensures id in After(w, es).calls && OnTrack(After(w, es).store, After(w, es).calls[id])
    ensures OwnSteps(es, id) >= StepsLeft(w.calls[id]) ==> After(w, es).calls[id].Sent?
    decreases es
  {
    if es != [] {
      var e, v := es[0], Next(w, es[0]);
      GentleEventKeepsOnTrack(w, e, id);
      EventKeepsInv(w, e);
      assert e in es;
      MessageGoesThrough(v, es[1..], id);
      if e.Advance? && e.id == id && StepsLeft(w.calls[id]) > 0 {
        CallsEnd(w.store, w.calls[id], e.answer);
      }
    }
  }

  // ---- marking between two users is marking their conversations ----

  function MarkEach(s: Store, conversations: seq<int>, reader: int): Store
    decreases conversations
  {
    if conversations == [] then s
    else MarkEach(MarkMessagesAsRead(s, conversations[0], reader), conversations[1..], reader)
  }

  function Marked(m: Message, conversations: seq<int>, reader: int): Message {
    if m.conversation in conversations && m.sender != reader && !m.deleted then m.(read := true) else m
  }

  lemma {:induction false} MarkEachMarks(s: Store, conversations: seq<int>, reader: int)
    ensures var t := MarkEach(s, conversations, reader);
            && t.conversations == s.conversations && t.messages.Keys == s.messages.Keys
            && forall m :: m in s.messages ==> t.messages[m] == Marked(s.messages[m], conversations, reader)
    decreases conversations
  {
    if conversations != [] {
      MarkEachMarks(MarkMessagesAsRead(s, conversations[0], reader), conversations[1..], reader);
      assert conversations == [conversations[0]] + conversations[1..];
    }
  }

  /** In every state that keeps the invariant, marking between two users is marking each of their undeleted
      conversations for the reader, in any order. */
  lemma MarkingBetweenIsMarkingEach(w: World, conversations: seq<int>, current: int, other: int)
    requires Inv(w)
    requires forall c :: c in conversations <==> c in ConversationsBetween(w.store, current, other)
    ensures MarkEach(w.store, conversations, current) == MarkBetweenUsers(w.store, current, other)
  {
    var s := w.store;
    var t, u := MarkEach(s, conversations, current), MarkBetweenUsers(s, current, other);
    MarkEachMarks(s, conversations, current);
    forall m | m in s.messages ensures t.messages[m] == u.messages[m] {
      var c := s.messages[m].conversation;
      assert c in conversations <==> c in ConversationsBetween(s, current, other);
      assert Between(s.conversations[c], s.messages[m].sender, s.messages[m].receiver);
    }
    assert t.messages == u.messages;
  }

  /** It changes exactly what the reader had not read of what the other sent. */
  lemma MarkingTouchesNothingElse(w: World, current: int, other: int, m: int)
    requires Inv(w) && m in w.store.messages
    ensures var s, t := w.store, MarkBetweenUsers(w.store, current, other);
            && t.conversations == s.conversations && t.messages.Keys == s.messages.Keys
            && t.messages[m] == s.messages[m].(read := t.messages[m].read)
            && (t.messages[m].read != s.messages[m].read <==>
                  && s.messages[m].sender == other && s.messages[m].receiver == current
                  && !s.messages[m].read && !s.messages[m].deleted
                  && !s.conversations[s.messages[m].conversation].deleted)
  {
    var s := w.store;
    assert Between(s.conversations[s.messages[m].conversation], s.messages[m].sender, s.messages[m].receiver);
  }
}
