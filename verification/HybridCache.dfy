/** The two-level cache: every node keeps its own level-one entries before one shared second level. Calls are cut at
    their awaits: a set or a removal changes the levels one after the other, a get looks into the first level, is answered
    by the second some time later, and fills the first again later. Entries may also be dropped at any time. */
module HybridCache {
  import opened Wrappers

  const MINUTE := 60
  const BACKFILL := 5 * MINUTE
  const DEFAULT_L1 := 60 * MINUTE
  const DEFAULT_L2 := 120 * MINUTE

  /** Who put an entry into a level: a set, or a get that read the shared level and came back later. */
  datatype Origin = BySet | ByGet(readAt: int, filledAt: int)

  datatype Entry = Entry(value: string, storedAt: int, life: nat, origin: Origin, expires: int)

  datatype Slot = Slot(node: int, key: string)

  /** A value stored in a level by a set. */
  datatype Record = Record(key: string, value: string, storedAt: int, life: nat)

  /** A call between two of its steps. */
  datatype Call =
    | Setting(key: string, value: string, absolute: Option<nat>)
    | Reading(slot: Slot, found: Entry, readAt: int)
    | Removing(gone: string)

  datatype World = World(l1: map<Slot, Entry>, l2: map<string, Entry>, calls: map<nat, Call>, now: int,
                         history: set<Record>)

  datatype Event =
    | SetL1(call: nat, node: int, key: string, value: string, absolute: Option<nat>)
    | SetL2(call: nat)
    | ReadL2(call: nat, node: int, key: string)
    | FillL1(call: nat, decodes: bool)
    | RemoveL1(call: nat, node: int, key: string)
    | RemoveL2(call: nat)
    | DropL1(node: int, key: string)
    | DropL2(key: string)
    | Tick(elapsed: nat)

  function Life(absolute: Option<nat>, default: nat): nat {
    if absolute.Some? then absolute.value else default
  }

  predicate Live(e: Entry, now: int) {
    now < e.expires
  }

  function Stored(value: string, now: int, life: nat): Entry {
    Entry(value, now, life, BySet, now + life)
  }

  /** The copy that a get leaves in the first level. */
  function Filled(found: Entry, readAt: int, now: int): Entry {
    found.(origin := ByGet(readAt, now), expires := now + BACKFILL)
  }

  /** What a get on the node answers at once, without the shared level. */
  function Hit(w: World, slot: Slot): Option<Entry> {
    if slot in w.l1 && Live(w.l1[slot], w.now) then Some(w.l1[slot]) else None
  }

  predicate Enabled(w: World, e: Event) {
    match e
    case SetL1(call, _, _, _, _) => call !in w.calls
    case SetL2(call) => call in w.calls && w.calls[call].Setting?
    case ReadL2(call, _, _) => call !in w.calls
    case FillL1(call, _) => call in w.calls && w.calls[call].Reading?
    case RemoveL1(call, _, _) => call !in w.calls
    case RemoveL2(call) => call in w.calls && w.calls[call].Removing?
    case _ => true
  }

  /** A get that its first level did not answer, some time before, is answered by the shared one, and goes on later. */
  function Read(w: World, call: nat, slot: Slot): World {
    if slot.key in w.l2 && Live(w.l2[slot.key], w.now) then
      w.(calls := w.calls[call := Reading(slot, w.l2[slot.key], w.now)])
    else w
  }

  /** The get goes on with what it has read; bytes that are no value of the type are removed instead. */
  function Fill(w: World, call: nat, decodes: bool): World
    requires call in w.calls && w.calls[call].Reading?
  {
    var c := w.calls[call];
    if decodes then
      w.(l1 := w.l1[c.slot := Filled(c.found, c.readAt, w.now)], calls := w.calls - {call})
    else w.(calls := w.calls[call := Removing(c.slot.key)])
  }

  /** What the get answers when it goes on. */
  function Answer(w: World, call: nat, decodes: bool): Option<string>
    requires call in w.calls && w.calls[call].Reading?
  {
    if decodes then Some(w.calls[call].found.value) else None
  }

  function Next(w: World, e: Event): World
    requires Enabled(w, e)
  {
    match e
    case SetL1(call, node, key, value, absolute) =>
      var life := Life(absolute, DEFAULT_L1);
      w.(l1 := w.l1[Slot(node, key) := Stored(value, w.now, life)],
         calls := w.calls[call := Setting(key, value, absolute)],
         history := w.history + {Record(key, value, w.now, life)})
    case SetL2(call) =>
      var c := w.calls[call];
      var life := Life(c.absolute, DEFAULT_L2);
      w.(l2 := w.l2[c.key := Stored(c.value, w.now, life)], calls := w.calls - {call},
         history := w.history + {Record(c.key, c.value, w.now, life)})
    case ReadL2(call, node, key) => Read(w, call, Slot(node, key))
    case FillL1(call, decodes) => Fill(w, call, decodes)
    case RemoveL1(call, node, key) => w.(l1 := w.l1 - {Slot(node, key)}, calls := w.calls[call := Removing(key)])
    case RemoveL2(call) => w.(l2 := w.l2 - {w.calls[call].gone}, calls := w.calls - {call})
    case DropL1(node, key) => w.(l1 := w.l1 - {Slot(node, key)})
    case DropL2(key) => w.(l2 := w.l2 - {key})
    case Tick(elapsed) => w.(now := w.now + elapsed)
  }

  predicate ValidRun(w: World, es: seq<Event>)
    decreases es
  {
    es != [] ==> Enabled(w, es[0]) && ValidRun(Next(w, es[0]), es[1..])
  }

  function After(w: World, es: seq<Event>): World
    requires ValidRun(w, es)
    decreases es
  {
    if es == [] then w else After(Next(w, es[0]), es[1..])
  }

  function Empty(now: int): World {
    World(map[], map[], map[], now, {})
  }

  // ---- how old an answer can be ----

  /** The value was stored under the key by a set, and was still live there at time t. */
  predicate FromSet(w: World, key: string, e: Entry, t: int) {
    Record(key, e.value, e.storedAt, e.life) in w.history && e.storedAt <= t < e.storedAt + e.life
  }

  /** A copy made by a get was live in the shared level when it was read, and ends five minutes after it was made. */
  predicate GoodCopy(w: World, key: string, e: Entry)
    requires e.origin.ByGet?
  {
    && FromSet(w, key, e, e.origin.readAt) && e.origin.readAt <= e.origin.filledAt <= w.now
    && e.expires == e.origin.filledAt + BACKFILL
  }

  /** A set's own entry ends with its lifetime. */
  predicate GoodOriginal(w: World, key: string, e: Entry) {
    && Record(key, e.value, e.storedAt, e.life) in w.history
    && e.storedAt <= w.now && e.expires == e.storedAt + e.life
  }

  predicate Good(w: World, key: string, e: Entry) {
    if e.origin.ByGet? then GoodCopy(w, key, e) else GoodOriginal(w, key, e)
  }

  predicate Inv(w: World) {
    && (forall key :: key in w.l2 ==> w.l2[key].origin.BySet? && Good(w, key, w.l2[key]))
    && (forall slot :: slot in w.l1 ==> Good(w, slot.key, w.l1[slot]))
    && (forall call :: call in w.calls && w.calls[call].Reading? ==>
          && FromSet(w, w.calls[call].slot.key, w.calls[call].found, w.calls[call].readAt)
          && w.calls[call].readAt <= w.now)
  }

  lemma EventKeepsInv(w: World, e: Event)
    requires Inv(w) && Enabled(w, e)
    ensures Inv(Next(w, e)) && w.now <= Next(w, e).now
  {}

  lemma {:induction false} RunKeepsInv(w: World, es: seq<Event>)
    requires Inv(w) && ValidRun(w, es)
    ensures Inv(After(w, es)) && w.now <= After(w, es).now
    decreases es
  {
    if es != [] {
      EventKeepsInv(w, es[0]);
      RunKeepsInv(Next(w, es[0]), es[1..]);
    }
  }

  /** No get of the run waits longer than d between reading the shared level and filling its own. */
  predicate Prompt(w: World, es: seq<Event>, d: nat)
    requires ValidRun(w, es)
    decreases es
  {
    es != [] ==>
      && (es[0].FillL1? ==> w.now - w.calls[es[0].call].readAt <= d)
      && Prompt(Next(w, es[0]), es[1..], d)
  }

  predicate PromptCopies(w: World, d: nat) {
    forall slot :: slot in w.l1 && w.l1[slot].origin.ByGet? ==>
      w.l1[slot].origin.filledAt - w.l1[slot].origin.readAt <= d
  }

  lemma {:induction false} RunKeepsPrompt(w: World, es: seq<Event>, d: nat)
    requires ValidRun(w, es) && Prompt(w, es, d) && PromptCopies(w, d)
    ensures PromptCopies(After(w, es), d)
    decreases es
  {
    if es != [] { RunKeepsPrompt(Next(w, es[0]), es[1..], d); }
  }

  /** In every run over any number of nodes, what a get finds in its first level was stored under that key by a set: at
      most that set's lifetime ago, or, for a copy of the shared entry, at most that lifetime, five minutes, and the
      time ago that the copying get waited between its read and its fill. */
  lemma HitsAreRecent(start: int, es: seq<Event>, slot: Slot)
    requires ValidRun(Empty(start), es) && Hit(After(Empty(start), es), slot).Some?
    ensures var w := After(Empty(start), es);
            var e := Hit(w, slot).value;
            && Record(slot.key, e.value, e.storedAt, e.life) in w.history && e.storedAt <= w.now
            && match e.origin
               case BySet => w.now < e.storedAt + e.life
               case ByGet(readAt, filledAt) =>
                 readAt <= filledAt && w.now < e.storedAt + e.life + BACKFILL + (filledAt - readAt)
  {
    RunKeepsInv(Empty(start), es);
  }

  /** What a get answers after it has waited for the shared level was live there when it was read. */
  lemma ReadsAreRecent(start: int, es: seq<Event>, call: nat)
    requires ValidRun(Empty(start), es) && Enabled(After(Empty(start), es), FillL1(call, true))
    ensures var w := After(Empty(start), es);
            var c := w.calls[call];
            && Answer(w, call, true) == Some(c.found.value)
            && Record(c.slot.key, c.found.value, c.found.storedAt, c.found.life) in w.history
            && c.found.storedAt <= c.readAt <= w.now
            && w.now < c.found.storedAt + c.found.life + (w.now - c.readAt)
  {
    RunKeepsInv(Empty(start), es);
  }

  /** The record is of a set in the run, with its lifetime or the default of two hours at most. */
  predicate FromEvents(es: seq<Event>, r: Record) {
    exists e <- es :: e.SetL1? && e.key == r.key && e.value == r.value && r.life <= Life(e.absolute, DEFAULT_L2)
  }

  predicate CallsFrom(es: seq<Event>, w: World) {
    forall call :: call in w.calls && w.calls[call].Setting? ==>
      exists e <- es :: e.SetL1? && e.key == w.calls[call].key && e.value == w.calls[call].value
                        && e.absolute == w.calls[call].absolute
  }

  predicate AllFrom(es: seq<Event>, w: World) {
    CallsFrom(es, w) && forall r :: r in w.history ==> FromEvents(es, r)
  }

  lemma MoreEvents(past: seq<Event>, e: Event, w: World)
    requires AllFrom(past, w)
    ensures AllFrom(past + [e], w)
  {
    assert forall x <- past :: x in past + [e];
  }

  lemma StepFromSets(w: World, past: seq<Event>, e: Event)
    requires Enabled(w, e) && AllFrom(past, w)
    ensures AllFrom(past + [e], Next(w, e))
  {
    MoreEvents(past, e, w);
    assert e in past + [e];
  }

  lemma {:induction false} HistoryComesFromSets(w: World, past: seq<Event>, es: seq<Event>)
    requires ValidRun(w, es) && AllFrom(past, w)
    ensures AllFrom(past + es, After(w, es))
    decreases es
  {
    if es == [] {
      assert past + es == past;
    } else {
      StepFromSets(w, past, es[0]);
      HistoryComesFromSets(Next(w, es[0]), past + [es[0]], es[1..]);
      assert past + es == past + [es[0]] + es[1..];
    }
  }

  /** With the default lifetimes, and gets that wait at most d between their two steps, the first level never answers
      with a value that was set more than two hours, five minutes and d ago. */
  lemma DefaultStaleness(start: int, es: seq<Event>, slot: Slot, d: nat)
    requires ValidRun(Empty(start), es) && Prompt(Empty(start), es, d)
    requires forall e <- es :: e.SetL1? ==> e.absolute == None
    requires Hit(After(Empty(start), es), slot).Some?
    ensures var w := After(Empty(start), es);
            var e := Hit(w, slot).value;
            && (exists x <- es :: x.SetL1? && x.key == slot.key && x.value == e.value)
            && e.storedAt <= w.now < e.storedAt + DEFAULT_L2 + BACKFILL + d
  {
    HitsAreRecent(start, es, slot);
    RunKeepsPrompt(Empty(start), es, d);
    HistoryComesFromSets(Empty(start), [], es);
    assert [] + es == es;
    var e := Hit(After(Empty(start), es), slot).value;
    assert FromEvents(es, Record(slot.key, e.value, e.storedAt, e.life));
  }

  // ---- does a node read what it has set? ----

  /** A get on the node answers the value from its first level. */
  predicate Reads(w: World, slot: Slot, value: string) {
    Hit(w, slot).Some? && Hit(w, slot).value.value == value
  }

  /** What ends that: another set there, a drop or a removal, the end of the entry, and a get that comes back late with
      another value. */
  predicate Displaces(w: World, e: Event, slot: Slot, value: string)
    requires Enabled(w, e)
  {
    match e
    case SetL1(_, node, key, v, absolute) => Slot(node, key) == slot && (v != value || Life(absolute, DEFAULT_L1) == 0)
    case FillL1(call, decodes) => decodes && w.calls[call].slot == slot && w.calls[call].found.value != value
    case RemoveL1(_, node, key) => Slot(node, key) == slot
    case DropL1(node, key) => Slot(node, key) == slot
    case Tick(elapsed) => slot in w.l1 && w.now + elapsed >= w.l1[slot].expires
    case _ => false
  }

  lemma DisplacedExactly(w: World, e: Event, slot: Slot, value: string)
    requires Enabled(w, e) && Reads(w, slot, value)
    ensures Reads(Next(w, e), slot, value) <==> !Displaces(w, e, slot, value)
  {
  }

  predicate Undisplaced(w: World, es: seq<Event>, slot: Slot, value: string)
    requires ValidRun(w, es)
    decreases es
  {
    es != [] ==> !Displaces(w, es[0], slot, value) && Undisplaced(Next(w, es[0]), es[1..], slot, value)
  }

  /** The value is read at every moment of a run exactly when nothing in the run displaces it. */
  lemma {:induction false} SetIsReadBack(w: World, es: seq<Event>, slot: Slot, value: string)
    requires ValidRun(w, es) && Reads(w, slot, value)
    ensures Undisplaced(w, es, slot, value) <==>
            forall n {:trigger es[..n]} :: 0 <= n <= |es| && ValidRun(w, es[..n]) ==> Reads(After(w, es[..n]), slot, value)
    decreases es
  {
    if es == [] {
      assert es[..0] == [];
    } else {
      DisplacedExactly(w, es[0], slot, value);
      var w1, rest := Next(w, es[0]), es[1..];
      RunStep(w, es[0], []);
      assert es[..1] == [es[0]] + [] && After(w1, []) == w1;
      if Reads(w1, slot, value) {
        SetIsReadBack(w1, rest, slot, value);
        forall n | 0 < n <= |es|
          ensures es[..n][0] == es[0] && es[..n][1..] == rest[..n - 1]
          ensures ValidRun(w, es[..n]) <==> ValidRun(w1, rest[..n - 1])
        {
        }
        forall n | 0 <= n <= |rest|
          ensures rest[..n] == es[..n + 1][1..]
        {
        }
      }
    }
  }

  lemma RunStep(w: World, e: Event, rest: seq<Event>)
    requires Enabled(w, e) && ValidRun(Next(w, e), rest)
    ensures ValidRun(w, [e] + rest) && After(w, [e] + rest) == After(Next(w, e), rest)
  {
    assert ([e] + rest)[1..] == rest;
  }

  lemma {:induction false} RunOn(w: World, first: seq<Event>, rest: seq<Event>)
    requires ValidRun(w, first) && ValidRun(After(w, first), rest)
    ensures ValidRun(w, first + rest) && After(w, first + rest) == After(After(w, first), rest)
    decreases first
  {
    if first == [] {
      assert first + rest == rest;
    } else {
      RunOn(Next(w, first[0]), first[1..], rest);
      assert first + rest == [first[0]] + (first[1..] + rest);
      RunStep(w, first[0], first[1..] + rest);
    }
  }

  lemma SetOnOneNode(value: string)
    ensures var es := [SetL1(0, 1, "k", value, None), SetL2(0), Tick(DEFAULT_L2 - 1)];
            && ValidRun(Empty(0), es)
            && var w := After(Empty(0), es);
               w.now == DEFAULT_L2 - 1 && w.calls == map[]
               && w.l1 == map[Slot(1, "k") := Stored(value, 0, DEFAULT_L1)]
               && w.l2 == map["k" := Stored(value, 0, DEFAULT_L2)]
  {
    var e0, e1, e2 := SetL1(0, 1, "k", value, None), SetL2(0), Tick(DEFAULT_L2 - 1);
    var w1 := Next(Empty(0), e0);
    var w2 := Next(w1, e1);
    RunStep(w2, e2, []);
    RunStep(w1, e1, [e2]);
    RunStep(Empty(0), e0, [e1, e2]);
  }

  lemma SlowRead(w: World, value: string, delay: nat)
    requires w.now == DEFAULT_L2 - 1 && w.l1 == map[Slot(1, "k") := Stored(value, 0, DEFAULT_L1)]
    requires w.l2 == map["k" := Stored(value, 0, DEFAULT_L2)] && w.calls == map[]
    ensures var es := [ReadL2(1, 2, "k"), Tick(delay), FillL1(1, true)];
            && ValidRun(w, es) && After(w, es).now == w.now + delay
            && After(w, es).l1 == w.l1[Slot(2, "k") := Filled(w.l2["k"], w.now, w.now + delay)]
            && After(w, es).l2 == w.l2 && After(w, es).calls == map[]
  {
    var e0, e1, e2 := ReadL2(1, 2, "k"), Tick(delay), FillL1(1, true);
    var w1 := Next(w, e0);
    var w2 := Next(w1, e1);
    RunStep(w2, e2, []);
    RunStep(w1, e1, [e2]);
    RunStep(w, e0, [e1, e2]);
  }

  lemma RemovedElsewhere(w: World, copy: Entry)
    requires Slot(2, "k") in w.l1 && w.l1[Slot(2, "k")] == copy && copy.expires == w.now + BACKFILL && w.calls == map[]
    ensures var es := [RemoveL1(2, 1, "k"), RemoveL2(2), Tick(BACKFILL - 1)];
            && ValidRun(w, es) && After(w, es).now == w.now + BACKFILL - 1
            && Hit(After(w, es), Slot(2, "k")) == Some(copy)
            && Hit(After(w, es), Slot(1, "k")) == None && "k" !in After(w, es).l2
  {
    var e0, e1, e2 := RemoveL1(2, 1, "k"), RemoveL2(2), Tick(BACKFILL - 1);
    var w1 := Next(w, e0);
    var w2 := Next(w1, e1);
    RunStep(w2, e2, []);
    RunStep(w1, e1, [e2]);
    RunStep(w, e0, [e1, e2]);
  }

  /** The bound is reached, for every delay: a second node reads just before the shared entry ends, fills its first
      level later, and still answers although the first node has meanwhile removed the key from both its levels. */
  lemma RemovedValueIsStillRead(value: string, delay: nat)
    ensures var es := [SetL1(0, 1, "k", value, None), SetL2(0), Tick(DEFAULT_L2 - 1)]
                      + [ReadL2(1, 2, "k"), Tick(delay), FillL1(1, true)]
                      + [RemoveL1(2, 1, "k"), RemoveL2(2), Tick(BACKFILL - 1)];
            && ValidRun(Empty(0), es)
            && var w := After(Empty(0), es);
               w.now == DEFAULT_L2 + BACKFILL + delay - 2
               && Reads(w, Slot(2, "k"), value) && Hit(w, Slot(1, "k")) == None && "k" !in w.l2
  {
    var first := [SetL1(0, 1, "k", value, None), SetL2(0), Tick(DEFAULT_L2 - 1)];
    var second := [ReadL2(1, 2, "k"), Tick(delay), FillL1(1, true)];
    var third := [RemoveL1(2, 1, "k"), RemoveL2(2), Tick(BACKFILL - 1)];
    SetOnOneNode(value);
    var w1 := After(Empty(0), first);
    SlowRead(w1, value, delay);
    RunOn(Empty(0), first, second);
    var w2 := After(w1, second);
    RemovedElsewhere(w2, Filled(w1.l2["k"], w1.now, w1.now + delay));
    RunOn(Empty(0), first + second, third);
  }

  /** A get that comes back late hides a set that its own node has completed meanwhile: in every world in which the node
      does not hold the key and the shared level holds another value, the node reads the older value again, though
      both levels had the newer one. */
  lemma LateFillHidesSet(w: World, node: int, key: string, value: string, reader: nat, setter: nat)
    requires Hit(w, Slot(node, key)) == None && key in w.l2 && Live(w.l2[key], w.now) && w.l2[key].value != value
    requires reader !in w.calls && setter !in w.calls && reader != setter
    ensures var es := [ReadL2(reader, node, key), SetL1(setter, node, key, value, None), SetL2(setter)];
            && ValidRun(w, es) && Reads(After(w, es), Slot(node, key), value) && key in After(w, es).l2
            && After(w, es).l2[key].value == value
            && Enabled(After(w, es), FillL1(reader, true))
            && Reads(Next(After(w, es), FillL1(reader, true)), Slot(node, key), w.l2[key].value)
  {
    var e0, e1, e2 := ReadL2(reader, node, key), SetL1(setter, node, key, value, None), SetL2(setter);
    var w1 := Next(w, e0);
    var w2 := Next(w1, e1);
    RunStep(w2, e2, []);
    RunStep(w1, e1, [e2]);
    RunStep(w, e0, [e1, e2]);
  }

  // ---- a set is read on every node ----

  /** The shared level holds the value until that time, and nothing older under the key is held or on its way. */
  ghost predicate Shared(w: World, key: string, value: string, until: int) {
    && key in w.l2 && w.l2[key].value == value && w.l2[key].expires == until
    && (forall slot :: slot in w.l1 && slot.key == key ==> w.l1[slot].value == value)
    && forall call :: call in w.calls ==>
         match w.calls[call]
         case Setting(k, _, _) => k != key
         case Reading(slot, found, _) => slot.key == key ==> found.value == value
         case Removing(k) => k != key
  }

  /** The event is about another key, or about this one only a get that can read what it finds. */
  predicate OnlyReads(w: World, e: Event, key: string)
    requires Enabled(w, e)
  {
    match e
    case SetL1(_, _, k, _, _) => k != key
    case RemoveL1(_, _, k) => k != key
    case FillL1(call, decodes) => decodes || w.calls[call].slot.key != key
    case DropL1(_, k) => k != key
    case DropL2(k) => k != key
    case _ => true
  }

  predicate OnlyRead(w: World, es: seq<Event>, key: string)
    requires ValidRun(w, es)
    decreases es
  {
    es != [] ==> OnlyReads(w, es[0], key) && OnlyRead(Next(w, es[0]), es[1..], key)
  }

  lemma ReadsKeepShared(w: World, e: Event, key: string, value: string, until: int)
    requires Enabled(w, e) && Shared(w, key, value, until) && OnlyReads(w, e, key)
    ensures Shared(Next(w, e), key, value, until)
  {}

  /** A get of the key on the node, now: its first level answers, or it goes on with what the shared level answers. */
  predicate Answers(w: World, call: nat, node: int, key: string, value: string) {
    if Hit(w, Slot(node, key)).Some? then Hit(w, Slot(node, key)).value.value == value
    else
      var v := Read(w, call, Slot(node, key));
      call in v.calls && v.calls[call].Reading? && Answer(v, call, true) == Some(value)
  }

  /** Once a set has reached the shared level, and nothing older under the key is left in a first level or on its way, a get
      on any node answers its value for the lifetime given, or two hours, whatever is read meanwhile and whatever happens
      to other keys. */
  lemma {:induction false} SetIsReadEverywhere(w: World, es: seq<Event>, key: string, value: string, until: int,
                                               call: nat, node: int)
    requires ValidRun(w, es) && Shared(w, key, value, until) && OnlyRead(w, es, key)
    requires After(w, es).now < until && call !in After(w, es).calls
    ensures Answers(After(w, es), call, node, key, value)
    decreases es
  {
    if es != [] {
      ReadsKeepShared(w, es[0], key, value, until);
      SetIsReadEverywhere(Next(w, es[0]), es[1..], key, value, until, call, node);
    }
  }

  /** A set alone on its key comes to such a state, for its lifetime in the shared level; its own first level keeps the
      value for its lifetime there. */
  lemma SetIsShared(w: World, setter: nat, node: int, key: string, value: string, absolute: Option<nat>)
    requires setter !in w.calls && (forall slot :: slot in w.l1 && slot.key == key ==> slot.node == node)
    requires forall call :: call in w.calls ==>
               match w.calls[call]
               case Setting(k, _, _) => k != key
               case Reading(slot, _, _) => slot.key != key
               case Removing(k) => k != key
    ensures var es := [SetL1(setter, node, key, value, absolute), SetL2(setter)];
            && ValidRun(w, es)
            && Shared(After(w, es), key, value, w.now + if absolute.Some? then absolute.value else 7200)
            && Slot(node, key) in After(w, es).l1 && After(w, es).l1[Slot(node, key)].value == value
            && After(w, es).l1[Slot(node, key)].expires == w.now + if absolute.Some? then absolute.value else 3600
  {
    var e0, e1 := SetL1(setter, node, key, value, absolute), SetL2(setter);
    var w1 := Next(w, e0);
    RunStep(w1, e1, []);
    RunStep(w, e0, [e1]);
    var w2 := Next(w1, e1);
    assert w2.calls == w.calls;
  }

  /** A removal empties its own first level and the shared one, and leaves every other entry. */
  lemma RemovalIsExact(w: World, call: nat, node: int, key: string)
    requires call !in w.calls
    ensures var es := [RemoveL1(call, node, key), RemoveL2(call)];
            && ValidRun(w, es) && After(w, es).calls == w.calls && After(w, es).now == w.now
            && After(w, es).l1 == w.l1 - {Slot(node, key)} && After(w, es).l2 == w.l2 - {key}
  {
    var e0, e1 := RemoveL1(call, node, key), RemoveL2(call);
    var w1 := Next(w, e0);
    RunStep(w1, e1, []);
    RunStep(w, e0, [e1]);
    assert Next(w1, e1).calls == w.calls;
  }

  /** A get that cannot read what the shared level answered gives nothing and removes it there, and nothing else. */
  lemma UnreadableIsRemoved(w: World, call: nat, node: int, key: string)
    requires call !in w.calls && key in w.l2 && w.now < w.l2[key].expires
    ensures var es := [ReadL2(call, node, key), FillL1(call, false), RemoveL2(call)];
            && ValidRun(w, es) && After(w, es) == w.(l2 := w.l2 - {key})
            && Answer(Next(w, es[0]), call, false) == None
  {
    var e0, e1, e2 := ReadL2(call, node, key), FillL1(call, false), RemoveL2(call);
    var w1 := Next(w, e0);
    var w2 := Next(w1, e1);
    RunStep(w2, e2, []);
    RunStep(w1, e1, [e2]);
    RunStep(w, e0, [e1, e2]);
    assert Next(w2, e2).calls == w.calls;
  }

  // ---- one node, one call at a time ----

  /** The service on its own node; `latest` remembers the value last set under each key and not removed. */
  class HybridCacheService {
    var memoryCache: map<string, Entry>
    var distributedCache: map<string, Entry>
    var now: int
    ghost var latest: map<string, string>

    constructor (start: int)
      ensures Valid() && latest == map[] && now == start
    {
      memoryCache, distributedCache, now, latest := map[], map[], start, map[];
    }

    ghost predicate Valid()
      reads this
    {
      && (forall k :: k in memoryCache ==> k in latest && memoryCache[k].value == latest[k])
      && (forall k :: k in distributedCache ==> k in latest && distributedCache[k].value == latest[k])
    }

    predicate LiveIn(cache: map<string, Entry>, key: string)
      reads this`now
    {
      key in cache && Live(cache[key], now)
    }

    /** The latest value set under the key, or nothing; something exactly when a level has a live entry that can be
        read, which then fills the first level. */
    method Get(key: string, decodes: bool) returns (value: Option<string>)
      requires Valid()
      modifies this`memoryCache, this`distributedCache
      ensures Valid()
      ensures value.Some? ==> key in latest && value.value == latest[key]
      ensures value.Some? <==> || (key in old(memoryCache) && now < old(memoryCache)[key].expires)
                               || (key in old(distributedCache) && now < old(distributedCache)[key].expires && decodes)
      ensures value.Some? && !(key in old(memoryCache) && now < old(memoryCache)[key].expires) ==>
                key in memoryCache && memoryCache[key].value == value.value && memoryCache[key].expires == now + 300
      ensures value.Some? <==> LiveIn(old(memoryCache), key) || (LiveIn(old(distributedCache), key) && decodes)
      ensures memoryCache == if LiveIn(old(memoryCache), key) || value.None? then old(memoryCache)
                             else old(memoryCache)[key := Filled(old(distributedCache)[key], now, now)]
      ensures distributedCache ==
              if !LiveIn(old(memoryCache), key) && LiveIn(old(distributedCache), key) && !decodes
              then old(distributedCache) - {key} else old(distributedCache)
    {
      if key in memoryCache && Live(memoryCache[key], now) {
        return Some(memoryCache[key].value);
      }
      if key !in distributedCache || !Live(distributedCache[key], now) {
        return None;
      }
      if !decodes {
        distributedCache := distributedCache - {key};
        return None;
      }
      var found := distributedCache[key];
      memoryCache := memoryCache[key := Filled(found, now, now)];
      return Some(found.value);
    }

    /** Both levels hold the value, each with its lifetime; no other key is touched. */
    method Set(key: string, value: string, absolute: Option<nat>)
      requires Valid()
      modifies this
      ensures Valid() && latest == old(latest)[key := value] && now == old(now)
      ensures key in memoryCache && memoryCache[key].value == value
              && memoryCache[key].expires == now + if absolute.Some? then absolute.value else 3600
      ensures key in distributedCache && distributedCache[key].value == value
              && distributedCache[key].expires == now + if absolute.Some? then absolute.value else 7200
      ensures memoryCache == old(memoryCache)[key := Stored(value, now, Life(absolute, DEFAULT_L1))]
      ensures distributedCache == old(distributedCache)[key := Stored(value, now, Life(absolute, DEFAULT_L2))]
    {
      memoryCache := memoryCache[key := Stored(value, now, Life(absolute, DEFAULT_L1))];
      distributedCache := distributedCache[key := Stored(value, now, Life(absolute, DEFAULT_L2))];
      latest := latest[key := value];
    }

    /** After a removal the key reads as nothing until it is set again. */
    method Remove(key: string)
      requires Valid()
      modifies this
      ensures Valid() && latest == old(latest) - {key} && now == old(now)
      ensures memoryCache == old(memoryCache) - {key} && distributedCache == old(distributedCache) - {key}
    {
      memoryCache := memoryCache - {key};
      distributedCache := distributedCache - {key};
      latest := latest - {key};
    }
  }
}
