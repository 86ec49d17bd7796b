/** The inbox: the newest message of each conversation, newest first. */
module RecentChats {
  import opened Wrappers
  import opened Messaging
  import opened Ordering

  /** A message row as the query ranks it. */
  datatype Ranked = Ranked(id: int, at: int, conversation: int)

  predicate Newer(a: Ranked, b: Ranked) {
    if a.at != b.at then a.at > b.at else a.id > b.id
  }

  const NEWER: (Ranked, Ranked) -> bool := (a, b) => Newer(a, b)

  /** The two branches of the union: conversations where the user is first, and where second. */
  function UserConversations(s: Store, user: int): set<int> {
    (set c | c in s.conversations && s.conversations[c].user1 == user && !s.conversations[c].deleted)
    + (set c | c in s.conversations && s.conversations[c].user2 == user && !s.conversations[c].deleted)
  }

  /** Undeleted messages of those conversations. */
  function Inbox(s: Store, user: int): set<Ranked> {
    set m | m in s.messages && !s.messages[m].deleted && s.messages[m].conversation in UserConversations(s, user)
      :: Ranked(m, s.messages[m].at, s.messages[m].conversation)
  }

  function Partition(inbox: set<Ranked>, conversation: int): set<Ranked> {
    set r | r in inbox && r.conversation == conversation
  }

  /** ROW_NUMBER over the conversation, newest first. */
  function RowNumber(inbox: set<Ranked>, r: Ranked): nat {
    1 + |set other | other in Partition(inbox, r.conversation) && Newer(other, r)|
  }

  function Firsts(inbox: set<Ranked>): set<Ranked> {
    set r | r in inbox && RowNumber(inbox, r) == 1
  }

  predicate Greatest(rows: set<Ranked>, r: Ranked) {
    r in rows && forall other :: other in rows && other != r ==> Newer(r, other)
  }

  /** Rows differ in their identities. */
  predicate DistinctIds(rows: set<Ranked>) {
    forall a, b :: a in rows && b in rows && a.id == b.id ==> a == b
  }

  lemma InboxHasDistinctIds(s: Store, user: int)
    ensures DistinctIds(Inbox(s, user))
  {}

  /** Row number one is the greatest row of the conversation. */
  lemma FirstIsGreatest(inbox: set<Ranked>, r: Ranked)
    requires DistinctIds(inbox) && r in inbox
    ensures RowNumber(inbox, r) == 1 <==> Greatest(Partition(inbox, r.conversation), r)
  {
    var above := set other | other in Partition(inbox, r.conversation) && Newer(other, r);
    if above == {} {
      forall other | other in Partition(inbox, r.conversation) && other != r ensures Newer(r, other) {
        assert other !in above;
      }
    } else {
      var other := ElementOf(above);
      assert other in Partition(inbox, r.conversation) && Newer(other, r);
    }
  }

  lemma {:induction false} GreatestExists(rows: set<Ranked>) returns (r: Ranked)
    requires rows != {} && DistinctIds(rows)
    ensures Greatest(rows, r)
    decreases |rows|
  {
    var some := ElementOf(rows);
    var rest := rows - {some};
    if rest == {} {
      r := some;
      assert rows == {some};
    } else {
      var best := GreatestExists(rest);
      r := if Newer(best, some) then best else some;
      assert best in rows && best != some;
      forall other | other in rows && other != r ensures Newer(r, other) {
        if other != some && other != best { assert other in rest && Newer(best, other); }
      }
    }
  }

  /** The result of the query: the first rows, in the final order. */
  ghost predicate IsRecent(s: Store, user: int, recent: seq<Ranked>) {
    Sorted(NEWER, recent) && forall r: Ranked :: r in recent <==> r in Firsts(Inbox(s, user))
  }

  /** The inbox holds exactly the greatest message of each undeleted conversation of the user that has an undeleted
      message, each conversation once, in descending order. */
  lemma RecentIsNewestOfEach(s: Store, user: int, recent: seq<Ranked>, conversation: int)
    requires IsRecent(s, user, recent)
    ensures forall i, j :: 0 <= i < j < |recent| ==>
              recent[i].at > recent[j].at || (recent[i].at == recent[j].at && recent[i].id > recent[j].id)
    ensures forall i, m :: 0 <= i < |recent| && m in s.messages && !s.messages[m].deleted && m != recent[i].id
                           && s.messages[m].conversation == recent[i].conversation ==>
                             s.messages[m].at < recent[i].at || (s.messages[m].at == recent[i].at && m < recent[i].id)
    ensures forall i :: 0 <= i < |recent| ==>
              recent[i].id in s.messages && recent[i].at == s.messages[recent[i].id].at
              && recent[i].conversation == s.messages[recent[i].id].conversation && !s.messages[recent[i].id].deleted
    ensures forall i :: 0 <= i < |recent| ==>
                          Greatest(Partition(Inbox(s, user), recent[i].conversation), recent[i])
    ensures forall i, j :: 0 <= i < j < |recent| ==> recent[i].conversation != recent[j].conversation
    ensures (exists r :: r in recent && r.conversation == conversation) <==>
            && conversation in s.conversations && !s.conversations[conversation].deleted
            && (s.conversations[conversation].user1 == user || s.conversations[conversation].user2 == user)
            && (exists m :: m in s.messages && s.messages[m].conversation == conversation && !s.messages[m].deleted)
  {
    var inbox := Inbox(s, user);
    InboxHasDistinctIds(s, user);
    forall i | 0 <= i < |recent| ensures Greatest(Partition(inbox, recent[i].conversation), recent[i]) {
      assert recent[i] in recent;
      FirstIsGreatest(inbox, recent[i]);
    }
    forall i, j | 0 <= i < j < |recent| ensures recent[i].conversation != recent[j].conversation {
      assert NEWER(recent[i], recent[j]);
      assert recent[j] in recent && recent[i] in recent;
    }
    forall i, m | 0 <= i < |recent| && m in s.messages && !s.messages[m].deleted && m != recent[i].id
                  && s.messages[m].conversation == recent[i].conversation
      ensures s.messages[m].at < recent[i].at || (s.messages[m].at == recent[i].at && m < recent[i].id)
    {
      assert recent[i] in recent && recent[i] in inbox;
      var other := Ranked(m, s.messages[m].at, s.messages[m].conversation);
      assert other in Partition(inbox, recent[i].conversation);
      assert Newer(recent[i], other);
    }
    ConversationListed(s, user, recent, conversation);
  }

  lemma ConversationListed(s: Store, user: int, recent: seq<Ranked>, conversation: int)
    requires IsRecent(s, user, recent)
    ensures (exists r :: r in recent && r.conversation == conversation) <==>
            && conversation in UserConversations(s, user)
            && (exists m :: m in s.messages && s.messages[m].conversation == conversation && !s.messages[m].deleted)
  {
    var inbox := Inbox(s, user);
    InboxHasDistinctIds(s, user);
    if r :| r in recent && r.conversation == conversation {
      assert r in inbox;
    }
    if m :| m in s.messages && s.messages[m].conversation == conversation && !s.messages[m].deleted {
      if conversation in UserConversations(s, user) {
        assert Ranked(m, s.messages[m].at, conversation) in Partition(inbox, conversation);
        var r := GreatestExists(Partition(inbox, conversation));
        FirstIsGreatest(inbox, r);
        assert r in recent;
      }
    }
  }

  /** Runs the query; the result is unique because the order leaves no ties. */
  method GetRecentChats(s: Store, user: int) returns (recent: seq<Ranked>)
    ensures IsRecent(s, user, recent)
  {
    var inbox := Inbox(s, user);
    InboxHasDistinctIds(s, user);
    var todo := Firsts(inbox);
    recent := [];
    while todo != {}
      invariant todo <= Firsts(inbox) && Sorted(NEWER, recent)
      invariant forall r: Ranked :: r in recent <==> r in Firsts(inbox) && r !in todo
      decreases |todo|
    {
      var r := AnyOf(todo);
      forall other | other in recent ensures NEWER(r, other) || NEWER(other, r) {
        assert other in inbox && r in inbox;
      }
      InsertSorts(NEWER, r, recent);
      InsertKeeps(NEWER, r, recent);
      ghost var before := recent;
      recent := Insert(NEWER, r, recent);
      forall x: Ranked ensures x in recent <==> x in before || x == r {
        assert x in multiset(recent) <==> x in multiset(before) || x == r;
      }
      todo := todo - {r};
    }
  }
}
