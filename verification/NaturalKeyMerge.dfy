/**
 * Inserting or updating a batch by natural key while other transactions do the same (src/db/base.py).
 *
 * A table holds committed rows by primary key. Every writer has uncommitted rows of its own, and while it merges a
 * batch, rows inside a savepoint. Statements interleave in any order; a statement that needs a key another writer has
 * written but not yet committed waits, so that step is simply not enabled.
 */
module NaturalKeyMerge {
  type Id = nat

  datatype Row = Row(key: string, value: string)

  const NATURAL_KEY_MERGE_ATTEMPTS := 4

  datatype Phase =
    | Ready
    | Merging(batch: seq<Row>, first: set<string>, found: map<string, Id>, attempt: nat, todo: set<nat>,
              ids: map<string, Id>)
    | Failed(batch: seq<Row>, first: set<string>, found: map<string, Id>, attempt: nat, lost: bool)
    | Returned(batch: seq<Row>, ids: map<string, Id>)
    | Raised(batch: seq<Row>, lost: bool)
    | Exhausted(batch: seq<Row>, first: set<string>)

  /** `own` is uncommitted but outside the savepoint; `inner` is inside it. */
  datatype Writer = Writer(own: map<Id, Row>, inner: map<Id, Row>, phase: Phase)

  /** `book` records the key every id was minted for, in minting order. */
  datatype State = State(committed: map<Id, Row>, writers: map<nat, Writer>, book: seq<string>)

  // ---------- reading ----------

  ghost predicate HasKey(rows: map<Id, Row>, key: string) {
    exists id :: id in rows && rows[id].key == key
  }

  ghost function IdOf(rows: map<Id, Row>, key: string): (id: Id)
    requires HasKey(rows, key)
    ensures id in rows && rows[id].key == key
  {
    var id :| id in rows && rows[id].key == key;
    id
  }

  function Keys(batch: seq<Row>): set<string> {
    set i | 0 <= i < |batch| :: batch[i].key
  }

  function Indexes(batch: seq<Row>): set<nat> {
    set i {:trigger batch[i]} | 0 <= i < |batch| :: i
  }

  /** The ids of the keys that have a row. */
  ghost function Lookup(rows: map<Id, Row>, keys: set<string>): (found: map<string, Id>)
    ensures forall key :: key in found <==> key in keys && HasKey(rows, key)
    ensures forall key :: key in found ==> found[key] in rows && rows[found[key]].key == key
  {
    map key | key in keys && HasKey(rows, key) :: IdOf(rows, key)
  }

  /** What a writer's own statements see. */
  function Visible(s: State, w: nat): map<Id, Row>
    requires w in s.writers
  {
    s.committed + s.writers[w].own + s.writers[w].inner
  }

  ghost predicate Holds(writer: Writer, key: string) {
    HasKey(writer.own, key) || HasKey(writer.inner, key)
  }

  ghost predicate HeldByAnother(s: State, w: nat, key: string) {
    exists v :: v in s.writers && v != w && Holds(s.writers[v], key)
  }

  predicate DistinctKeys(batch: seq<Row>) {
    forall i, j :: 0 <= i < j < |batch| ==> batch[i].key != batch[j].key
  }

  // ---------- steps ----------

  datatype Step =
    | Open(w: nat)
    | Begin(w: nat, batch: seq<Row>)
    | Flush(w: nat, i: nat)
    | Conflict(w: nat, i: nat)
    | Fault(w: nat)
    | Retry(w: nat)
    | Release(w: nat)
    | Commit(w: nat)
    | Abort(w: nat)

  predicate Busy(phase: Phase) {
    phase.Merging? || phase.Failed?
  }

  /** A row whose key the last lookup found is updated; any other is inserted, and needs its key to be free. */
  ghost predicate Enabled(s: State, step: Step) {
    match step
    case Open(w) => w !in s.writers
    case Begin(w, batch) => w in s.writers && !Busy(s.writers[w].phase) && batch != []
    case Flush(w, i) =>
      && w in s.writers && s.writers[w].phase.Merging? && i in s.writers[w].phase.todo
      && i < |s.writers[w].phase.batch|
      && var key := s.writers[w].phase.batch[i].key;
      !HeldByAnother(s, w, key) && (key in s.writers[w].phase.found || !HasKey(Visible(s, w), key))
    case Conflict(w, i) =>
      && w in s.writers && s.writers[w].phase.Merging? && i in s.writers[w].phase.todo
      && i < |s.writers[w].phase.batch|
      && var key := s.writers[w].phase.batch[i].key;
      !HeldByAnother(s, w, key) && key !in s.writers[w].phase.found && HasKey(Visible(s, w), key)
    case Fault(w) => w in s.writers && s.writers[w].phase.Merging?
    case Retry(w) => w in s.writers && s.writers[w].phase.Failed?
    case Release(w) => w in s.writers && s.writers[w].phase.Merging? && s.writers[w].phase.todo == {}
    case Commit(w) => w in s.writers && !Busy(s.writers[w].phase)
    case Abort(w) => w in s.writers
  }

  function With(s: State, w: nat, writer: Writer): State {
    s.(writers := s.writers[w := writer])
  }

  /** The failed flush's savepoint is rolled back. */
  function RolledBack(writer: Writer, lost: bool): Writer
    requires writer.phase.Merging?
  {
    var p := writer.phase;
    Writer(writer.own, map[], Failed(p.batch, p.first, p.found, p.attempt, lost))
  }

  /** Look the keys up again; give up unless one that had no row now has one, and at most four times. */
  ghost function Retried(visible: map<Id, Row>, p: Phase): Phase
    requires p.Failed?
  {
    var resolved := Lookup(visible, Keys(p.batch));
    if resolved.Keys - p.found.Keys == {} then Raised(p.batch, p.lost)
    else if p.attempt + 1 == NATURAL_KEY_MERGE_ATTEMPTS then Exhausted(p.batch, p.first)
    else Merging(p.batch, p.first, resolved, p.attempt + 1, Indexes(p.batch), map[])
  }

  ghost function Apply(s: State, step: Step): State
    requires Enabled(s, step)
  {
    match step
    case Open(w) => With(s, w, Writer(map[], map[], Ready))
    case Begin(w, batch) =>
      var found := Lookup(Visible(s, w), Keys(batch));
      With(s, w, s.writers[w].(phase := Merging(batch, found.Keys, found, 0, Indexes(batch), map[])))
    case Flush(w, i) =>
      var writer := s.writers[w];
      var p := writer.phase;
      var row := p.batch[i];
      var id := if row.key in p.found then p.found[row.key] else |s.book|;
      var written := Writer(writer.own, writer.inner[id := row], p.(todo := p.todo - {i}, ids := p.ids[row.key := id]));
      With(s, w, written).(book := if row.key in p.found then s.book else s.book + [row.key])
    case Conflict(w, i) => With(s, w, RolledBack(s.writers[w], true))
    case Fault(w) => With(s, w, RolledBack(s.writers[w], false))
    case Retry(w) => With(s, w, s.writers[w].(phase := Retried(Visible(s, w), s.writers[w].phase)))
    case Release(w) =>
      var writer := s.writers[w];
      With(s, w, Writer(writer.own + writer.inner, map[], Returned(writer.phase.batch, writer.phase.ids)))
    case Commit(w) =>
      With(s, w, Writer(map[], map[], Ready)).(committed := s.committed + s.writers[w].own)
    case Abort(w) => With(s, w, Writer(map[], map[], Ready))
  }

  // ---------- what every step keeps ----------

  /** Every row is stored under an id minted for its key. */
  predicate Booked(rows: map<Id, Row>, book: seq<string>) {
    forall id :: id in rows ==> id < |book| && book[id] == rows[id].key
  }

  predicate OneRowPerKey(rows: map<Id, Row>) {
    forall a, b :: a in rows && b in rows && rows[a].key == rows[b].key ==> a == b
  }

  /** What one writer's rows and phase promise, whatever the others do. */
  ghost predicate WriterInvariant(committed: map<Id, Row>, writer: Writer, book: seq<string>) {
    && Booked(writer.own, book)
    && Booked(writer.inner, book)
    && OneRowPerKey(committed + writer.own + writer.inner)
    && (!writer.phase.Merging? ==> writer.inner == map[])
    && PhaseInvariant(committed, writer)
  }

  /** What has been looked up is there, under the id found; what this writer already holds has been looked up. */
  ghost predicate FoundInvariant(committed: map<Id, Row>, own: map<Id, Row>, batch: seq<Row>, first: set<string>,
                                 found: map<string, Id>, attempt: nat) {
    && attempt < NATURAL_KEY_MERGE_ATTEMPTS
    && first <= found.Keys <= Keys(batch)
    && |first| + attempt <= |found|
    && (forall key :: key in found ==> found[key] in committed + own && (committed + own)[found[key]].key == key)
    && (forall key :: key in Keys(batch) && HasKey(own, key) ==> key in found)
  }

  /** The batch rows flushed so far are in the savepoint, under the ids to be returned. */
  ghost predicate FlushInvariant(inner: map<Id, Row>, p: Phase)
    requires p.Merging?
  {
    && p.todo <= Indexes(p.batch)
    && (forall i :: 0 <= i < |p.batch| && i !in p.todo ==> p.batch[i].key in p.ids)
    && (forall key :: key in p.ids ==> Flushed(inner, p, key))
    && (forall id :: id in inner ==> inner[id].key in p.ids && p.ids[inner[id].key] == id)
  }

  ghost predicate Flushed(inner: map<Id, Row>, p: Phase, key: string)
    requires p.Merging? && key in p.ids
  {
    && p.ids[key] in inner
    && (key in p.found ==> p.ids[key] == p.found[key])
    && exists i :: 0 <= i < |p.batch| && i !in p.todo && p.batch[i].key == key && inner[p.ids[key]] == p.batch[i]
  }

  ghost predicate PhaseInvariant(committed: map<Id, Row>, writer: Writer) {
    var p := writer.phase;
    match p
    case Merging(batch, first, found, attempt, todo, ids) =>
      FoundInvariant(committed, writer.own, batch, first, found, attempt) && FlushInvariant(writer.inner, p)
    case Failed(batch, first, found, attempt, lost) =>
      && FoundInvariant(committed, writer.own, batch, first, found, attempt)
      && (lost && DistinctKeys(batch) ==> exists key :: key in Keys(batch) && key !in found && HasKey(committed, key))
    case Returned(batch, ids) => true
    case Raised(batch, lost) => !(lost && DistinctKeys(batch))
    case Exhausted(batch, first) => |first| + NATURAL_KEY_MERGE_ATTEMPTS <= |Keys(batch)| && first <= Keys(batch)
    case Ready => true
  }

  ghost predicate Apart(a: Writer, b: Writer) {
    forall key :: !(Holds(a, key) && Holds(b, key))
  }

  ghost predicate Invariant(s: State) {
    && Booked(s.committed, s.book)
    && OneRowPerKey(s.committed)
    && (forall w :: w in s.writers ==> WriterInvariant(s.committed, s.writers[w], s.book))
    && (forall v, w :: v in s.writers && w in s.writers && v != w ==> Apart(s.writers[v], s.writers[w]))
  }

  // ---------- one step at a time ----------

  /** A writer that did not move is unaffected by another's uncommitted work. */
  lemma OthersUndisturbed(committed: map<Id, Row>, writer: Writer, book: seq<string>, longer: seq<string>)
    requires WriterInvariant(committed, writer, book) && book <= longer
    ensures WriterInvariant(committed, writer, longer)
  {
  }

  /** Replacing one writer keeps the invariant if the new one is sound and holds nothing another writer holds. */
  lemma WriterReplaced(s: State, w: nat, writer: Writer, longer: seq<string>)
    requires Invariant(s) && s.book <= longer
    requires WriterInvariant(s.committed, writer, longer)
    requires forall v :: v in s.writers && v != w ==> Apart(s.writers[v], writer)
    ensures Invariant(With(s, w, writer).(book := longer))
  {
    var t := With(s, w, writer).(book := longer);
    forall v | v in t.writers ensures WriterInvariant(t.committed, t.writers[v], t.book) {
      if v != w {
        OthersUndisturbed(s.committed, s.writers[v], s.book, longer);
      }
    }
  }

  /** A writer that gave up some of what it held is still apart from the rest. */
  lemma HoldingLess(s: State, w: nat, writer: Writer)
    requires Invariant(s) && w in s.writers
    requires forall key :: Holds(writer, key) ==> Holds(s.writers[w], key)
    ensures forall v :: v in s.writers && v != w ==> Apart(s.writers[v], writer)
  {
    forall v | v in s.writers && v != w ensures Apart(s.writers[v], writer) {
      assert Apart(s.writers[v], s.writers[w]);
    }
  }

  lemma FoundAfterLookup(committed: map<Id, Row>, own: map<Id, Row>, batch: seq<Row>)
    ensures var found := Lookup(committed + own, Keys(batch));
      FoundInvariant(committed, own, batch, found.Keys, found, 0)
  {
    forall key | key in Keys(batch) && HasKey(own, key) ensures HasKey(committed + own, key) {
      var id :| id in own && own[id].key == key;
      assert id in committed + own && (committed + own)[id].key == key;
    }
  }

  lemma BeginKeeps(s: State, w: nat, batch: seq<Row>)
    requires Invariant(s) && Enabled(s, Begin(w, batch))
    ensures Invariant(Apply(s, Begin(w, batch)))
  {
    var writer := s.writers[w];
    PlusNothing(s.committed + writer.own);
    BegunWriter(s.committed, writer, s.book, batch);
    var next := Apply(s, Begin(w, batch)).writers[w];
    HoldingLess(s, w, next);
    WriterReplaced(s, w, next, s.book);
  }

  lemma BegunWriter(committed: map<Id, Row>, writer: Writer, book: seq<string>, batch: seq<Row>)
    requires WriterInvariant(committed, writer, book) && writer.inner == map[]
    ensures var found := Lookup(committed + writer.own, Keys(batch));
      WriterInvariant(committed, writer.(phase := Merging(batch, found.Keys, found, 0, Indexes(batch), map[])), book)
  {
    FoundAfterLookup(committed, writer.own, batch);
  }

  lemma ViewIsBooked(committed: map<Id, Row>, own: map<Id, Row>, inner: map<Id, Row>, book: seq<string>)
    requires Booked(committed, book) && Booked(own, book) && Booked(inner, book)
    ensures Booked(committed + own + inner, book)
  {
  }

  lemma UpdateKeepsKeys(rows: map<Id, Row>, id: Id, row: Row, book: seq<string>)
    requires Booked(rows, book) && OneRowPerKey(rows) && id in rows && rows[id].key == row.key
    ensures OneRowPerKey(rows[id := row])
  {
  }

  lemma InsertKeepsKeys(rows: map<Id, Row>, row: Row, book: seq<string>)
    requires Booked(rows, book) && OneRowPerKey(rows) && !HasKey(rows, row.key)
    ensures OneRowPerKey(rows[|book| := row])
  {
  }

  lemma BookGrows(rows: map<Id, Row>, book: seq<string>, longer: seq<string>)
    requires Booked(rows, book) && book <= longer
    ensures Booked(rows, longer)
  {
  }

  /** Updating the row a key was found under leaves one row per key in the writer's view. */
  lemma UpdateView(committed: map<Id, Row>, own: map<Id, Row>, inner: map<Id, Row>, book: seq<string>, id: Id, row: Row)
    requires Booked(committed, book) && Booked(own, book) && Booked(inner, book)
    requires OneRowPerKey(committed + own + inner)
    requires id in committed + own && (committed + own)[id].key == row.key
    ensures OneRowPerKey(committed + own + inner[id := row])
    ensures Booked(inner[id := row], book)
    ensures forall other :: other in inner && inner[other].key == row.key ==> other == id
    ensures id in inner ==> inner[id].key == row.key
  {
    var seen := committed + own + inner;
    ViewIsBooked(committed, own, inner, book);
    assert book[id] == row.key;
    UpdateKeepsKeys(seen, id, row, book);
    assert committed + own + inner[id := row] == seen[id := row];
    KeyOwner(inner, seen, id, row.key, book);
  }

  lemma KeyOwner(inner: map<Id, Row>, seen: map<Id, Row>, id: Id, key: string, book: seq<string>)
    requires OneRowPerKey(seen) && Booked(seen, book) && Booked(inner, book) && inner.Keys <= seen.Keys
    requires id in seen && book[id] == key
    ensures forall other :: other in inner && inner[other].key == key ==> other == id
    ensures id in inner ==> inner[id].key == key
  {
    forall other | other in inner && inner[other].key == key ensures other == id {
      assert seen[other].key == key && seen[id].key == key;
    }
  }

  lemma InsertViewKeys(committed: map<Id, Row>, own: map<Id, Row>, inner: map<Id, Row>, book: seq<string>, row: Row)
    requires Booked(committed, book) && Booked(own, book) && Booked(inner, book)
    requires OneRowPerKey(committed + own + inner) && !HasKey(committed + own + inner, row.key)
    ensures OneRowPerKey(committed + own + inner[|book| := row])
  {
    var seen := committed + own + inner;
    ViewIsBooked(committed, own, inner, book);
    InsertKeepsKeys(seen, row, book);
    assert committed + own + inner[|book| := row] == seen[|book| := row];
  }

  /** Inserting a key the writer does not see leaves one row per key in its view. */
  lemma InsertView(committed: map<Id, Row>, own: map<Id, Row>, inner: map<Id, Row>, book: seq<string>, row: Row)
    requires Booked(committed, book) && Booked(own, book) && Booked(inner, book)
    requires OneRowPerKey(committed + own + inner) && !HasKey(committed + own + inner, row.key)
    ensures OneRowPerKey(committed + own + inner[|book| := row])
    ensures Booked(own, book + [row.key]) && Booked(inner[|book| := row], book + [row.key])
    ensures forall other :: other in inner ==> inner[other].key != row.key && other != |book|
  {
    InsertViewKeys(committed, own, inner, book, row);
    BookGrows(own, book, book + [row.key]);
    BookGrows(inner, book, book + [row.key]);
    forall other | other in inner ensures inner[other].key != row.key {
      assert (committed + own + inner)[other].key == inner[other].key;
    }
  }

  function FlushedWriter(before: Writer, i: nat, id: Id): Writer
    requires before.phase.Merging? && i < |before.phase.batch|
  {
    var p := before.phase;
    Writer(before.own, before.inner[id := p.batch[i]], p.(todo := p.todo - {i}, ids := p.ids[p.batch[i].key := id]))
  }

  lemma FlushedPhase(committed: map<Id, Row>, before: Writer, i: nat, id: Id)
    requires before.phase.Merging? && i in before.phase.todo && i < |before.phase.batch|
    requires PhaseInvariant(committed, before)
    requires before.phase.batch[i].key in before.phase.found ==> id == before.phase.found[before.phase.batch[i].key]
    requires forall other ::
      other in before.inner && before.inner[other].key == before.phase.batch[i].key ==> other == id
    requires id in before.inner ==> before.inner[id].key == before.phase.batch[i].key
    ensures PhaseInvariant(committed, FlushedWriter(before, i, id))
  {
    FlushKeepsSavepoint(before.inner, before.phase, i, id);
  }

  lemma FlushKeepsWriter(s: State, w: nat, i: nat)
    requires Invariant(s) && Enabled(s, Flush(w, i))
    ensures s.book <= Apply(s, Flush(w, i)).book
    ensures WriterInvariant(s.committed, Apply(s, Flush(w, i)).writers[w], Apply(s, Flush(w, i)).book)
  {
    var before := s.writers[w];
    var p := before.phase;
    var row := p.batch[i];
    assert FoundInvariant(s.committed, before.own, p.batch, p.first, p.found, p.attempt);
    if row.key in p.found {
      UpdateView(s.committed, before.own, before.inner, s.book, p.found[row.key], row);
      FlushedPhase(s.committed, before, i, p.found[row.key]);
    } else {
      assert Visible(s, w) == s.committed + before.own + before.inner;
      InsertView(s.committed, before.own, before.inner, s.book, row);
      FlushedPhase(s.committed, before, i, |s.book|);
    }
  }

  lemma FlushKeepsSavepoint(inner: map<Id, Row>, p: Phase, i: nat, id: Id)
    requires p.Merging? && FlushInvariant(inner, p) && i in p.todo && i < |p.batch|
    requires p.batch[i].key in p.found ==> id == p.found[p.batch[i].key]
    requires forall other :: other in inner && inner[other].key == p.batch[i].key ==> other == id
    requires id in inner ==> inner[id].key == p.batch[i].key
    ensures FlushInvariant(inner[id := p.batch[i]], p.(todo := p.todo - {i}, ids := p.ids[p.batch[i].key := id]))
  {
    var row := p.batch[i];
    var q := p.(todo := p.todo - {i}, ids := p.ids[row.key := id]);
    var after := inner[id := row];
    forall key | key in q.ids ensures Flushed(after, q, key) {
      if key == row.key {
        assert q.batch[i].key == key && i !in q.todo;
      } else {
        assert Flushed(inner, p, key);
        var j :| 0 <= j < |p.batch| && j !in p.todo && p.batch[j].key == key && inner[p.ids[key]] == p.batch[j];
        assert p.ids[key] != id;
        assert j !in q.todo;
      }
    }
  }

  lemma FlushKeeps(s: State, w: nat, i: nat)
    requires Invariant(s) && Enabled(s, Flush(w, i))
    ensures Invariant(Apply(s, Flush(w, i)))
  {
    var t := Apply(s, Flush(w, i));
    var before, after := s.writers[w], t.writers[w];
    var row := before.phase.batch[i];
    FlushKeepsWriter(s, w, i);
    forall v | v in s.writers && v != w ensures Apart(s.writers[v], after) {
      assert Apart(s.writers[v], before);
      assert !Holds(s.writers[v], row.key);
      HoldsOneMore(before, after, after.phase.ids[row.key], row);
    }
    WriterReplaced(s, w, after, t.book);
  }

  lemma HoldsOneMore(before: Writer, after: Writer, id: Id, row: Row)
    requires after.own == before.own && after.inner == before.inner[id := row]
    ensures forall key :: Holds(after, key) ==> Holds(before, key) || key == row.key
  {
    forall key | HasKey(after.inner, key) ensures HasKey(before.inner, key) || key == row.key {
      var other :| other in after.inner && after.inner[other].key == key;
      assert other == id || before.inner[other].key == key;
    }
  }

  lemma UnflushedKey(inner: map<Id, Row>, p: Phase, i: nat)
    requires p.Merging? && FlushInvariant(inner, p) && i in p.todo && i < |p.batch| && DistinctKeys(p.batch)
    ensures !HasKey(inner, p.batch[i].key)
  {
    forall id | id in inner ensures inner[id].key != p.batch[i].key {
      assert Flushed(inner, p, inner[id].key);
    }
  }

  lemma SeenElsewhere(committed: map<Id, Row>, own: map<Id, Row>, inner: map<Id, Row>, key: string)
    requires HasKey(committed + own + inner, key) && !HasKey(own, key) && !HasKey(inner, key)
    ensures HasKey(committed, key)
  {
    var id :| id in committed + own + inner && (committed + own + inner)[id].key == key;
    assert id !in own && id !in inner;
  }

  /** On a batch of distinct keys, only a row another transaction committed can stand in an insert's way. */
  lemma LostToACommit(s: State, w: nat, i: nat)
    requires Invariant(s) && Enabled(s, Conflict(w, i)) && DistinctKeys(s.writers[w].phase.batch)
    ensures HasKey(s.committed, s.writers[w].phase.batch[i].key)
  {
    var writer := s.writers[w];
    var p := writer.phase;
    assert WriterInvariant(s.committed, writer, s.book);
    assert p.batch[i].key in Keys(p.batch) && !HasKey(writer.own, p.batch[i].key);
    UnflushedKey(writer.inner, p, i);
    SeenElsewhere(s.committed, writer.own, writer.inner, p.batch[i].key);
  }

  lemma RollbackKeeps(s: State, w: nat, lost: bool)
    requires Invariant(s) && w in s.writers && s.writers[w].phase.Merging?
    requires lost && DistinctKeys(s.writers[w].phase.batch) ==>
               exists key ::
                 key in Keys(s.writers[w].phase.batch) && key !in s.writers[w].phase.found && HasKey(s.committed, key)
    ensures Invariant(With(s, w, RolledBack(s.writers[w], lost)))
  {
    var writer := s.writers[w];
    var next := RolledBack(writer, lost);
    SmallerViewKeepsKeys(s.committed + writer.own + writer.inner, s.committed + next.own + next.inner, s.book);
    HoldingLess(s, w, next);
    WriterReplaced(s, w, next, s.book);
  }

  lemma SmallerViewKeepsKeys(more: map<Id, Row>, less: map<Id, Row>, book: seq<string>)
    requires OneRowPerKey(more) && less.Keys <= more.Keys
    requires Booked(more, book) && Booked(less, book)
    ensures OneRowPerKey(less)
  {
  }

  lemma FoundGrows(small: map<string, Id>, large: map<string, Id>)
    requires small.Keys <= large.Keys
    ensures |small| <= |large|
    ensures large.Keys - small.Keys != {} ==> |small| < |large|
  {
    assert large.Keys == small.Keys + (large.Keys - small.Keys);
    assert |large.Keys| == |small.Keys| + |large.Keys - small.Keys|;
  }

  lemma SubsetSize<T>(a: set<T>, b: set<T>)
    requires a <= b
    ensures |a| <= |b|
  {
    assert b == a + (b - a);
  }

  lemma LookupGrows(committed: map<Id, Row>, own: map<Id, Row>, p: Phase)
    requires p.Failed? && FoundInvariant(committed, own, p.batch, p.first, p.found, p.attempt)
    ensures p.found.Keys <= Lookup(committed + own, Keys(p.batch)).Keys
  {
    forall key | key in p.found ensures HasKey(committed + own, key) {
      assert p.found[key] in committed + own && (committed + own)[p.found[key]].key == key;
    }
  }

  lemma RetryCounts(committed: map<Id, Row>, own: map<Id, Row>, p: Phase)
    requires p.Failed? && FoundInvariant(committed, own, p.batch, p.first, p.found, p.attempt)
    ensures var resolved := Lookup(committed + own, Keys(p.batch));
      resolved.Keys - p.found.Keys != {} ==> |p.first| + p.attempt + 1 <= |resolved| <= |Keys(p.batch)|
  {
    var resolved := Lookup(committed + own, Keys(p.batch));
    LookupGrows(committed, own, p);
    FoundGrows(p.found, resolved);
    SubsetSize(resolved.Keys, Keys(p.batch));
  }

  /** A race that was lost shows: the key the flush tripped over has a row now. */
  lemma LostShows(committed: map<Id, Row>, own: map<Id, Row>, book: seq<string>, p: Phase)
    requires Booked(committed, book) && Booked(own, book) && p.Failed? && p.lost && DistinctKeys(p.batch)
    requires exists key :: key in Keys(p.batch) && key !in p.found && HasKey(committed, key)
    ensures Lookup(committed + own, Keys(p.batch)).Keys - p.found.Keys != {}
  {
    var key :| key in Keys(p.batch) && key !in p.found && HasKey(committed, key);
    var id :| id in committed && committed[id].key == key;
    assert (committed + own)[id].key == key;
    assert key in Lookup(committed + own, Keys(p.batch)).Keys - p.found.Keys;
  }

  /** The attempts that follow start from what the new lookup found. */
  lemma FoundAgain(committed: map<Id, Row>, own: map<Id, Row>, p: Phase)
    requires p.Failed? && FoundInvariant(committed, own, p.batch, p.first, p.found, p.attempt)
    requires p.attempt + 1 < NATURAL_KEY_MERGE_ATTEMPTS
    requires Lookup(committed + own, Keys(p.batch)).Keys - p.found.Keys != {}
    ensures FoundInvariant(committed, own, p.batch, p.first, Lookup(committed + own, Keys(p.batch)), p.attempt + 1)
  {
    FoundAfterLookup(committed, own, p.batch);
    LookupGrows(committed, own, p);
    RetryCounts(committed, own, p);
  }

  /** Nothing is flushed at the start of an attempt. */
  lemma NothingFlushed(p: Phase)
    requires p.Merging? && p.todo == Indexes(p.batch) && p.ids == map[]
    ensures FlushInvariant(map[], p)
  {
  }

  lemma ExhaustedCounts(committed: map<Id, Row>, own: map<Id, Row>, p: Phase)
    requires p.Failed? && FoundInvariant(committed, own, p.batch, p.first, p.found, p.attempt)
    requires p.attempt + 1 == NATURAL_KEY_MERGE_ATTEMPTS
    requires Lookup(committed + own, Keys(p.batch)).Keys - p.found.Keys != {}
    ensures |p.first| + NATURAL_KEY_MERGE_ATTEMPTS <= |Keys(p.batch)| && p.first <= Keys(p.batch)
  {
    RetryCounts(committed, own, p);
  }

  lemma RetriedPhase(committed: map<Id, Row>, own: map<Id, Row>, book: seq<string>, p: Phase)
    requires Booked(committed, book) && Booked(own, book) && p.Failed?
    requires PhaseInvariant(committed, Writer(own, map[], p))
    ensures PhaseInvariant(committed, Writer(own, map[], Retried(committed + own, p)))
  {
    if Lookup(committed + own, Keys(p.batch)).Keys - p.found.Keys == {} {
      if p.lost && DistinctKeys(p.batch) {
        LostShows(committed, own, book, p);
      }
    } else if p.attempt + 1 == NATURAL_KEY_MERGE_ATTEMPTS {
      ExhaustedCounts(committed, own, p);
    } else {
      FoundAgain(committed, own, p);
      NothingFlushed(Retried(committed + own, p));
    }
  }

  lemma RetryKeeps(s: State, w: nat)
    requires Invariant(s) && Enabled(s, Retry(w))
    ensures Invariant(Apply(s, Retry(w)))
  {
    var writer := s.writers[w];
    PlusNothing(s.committed + writer.own);
    RetriedWriter(s.committed, writer, s.book);
    var next := Apply(s, Retry(w)).writers[w];
    HoldingLess(s, w, next);
    WriterReplaced(s, w, next, s.book);
  }

  lemma RetriedWriter(committed: map<Id, Row>, writer: Writer, book: seq<string>)
    requires WriterInvariant(committed, writer, book) && Booked(committed, book)
    requires writer.phase.Failed? && writer.inner == map[]
    ensures WriterInvariant(committed, writer.(phase := Retried(committed + writer.own, writer.phase)), book)
  {
    assert writer == Writer(writer.own, map[], writer.phase);
    RetriedPhase(committed, writer.own, book, writer.phase);
  }

  lemma ReleasedHolds(writer: Writer, next: Writer)
    requires next.own == writer.own + writer.inner && next.inner == map[]
    ensures forall key :: Holds(next, key) ==> Holds(writer, key)
  {
    forall key | Holds(next, key) ensures Holds(writer, key) {
      var id :| id in next.own && next.own[id].key == key;
      assert if id in writer.inner then writer.inner[id].key == key else writer.own[id].key == key;
    }
  }

  lemma PlusNothing(a: map<Id, Row>)
    ensures a + map[] == a
  {
  }

  lemma PlusAssociates(a: map<Id, Row>, b: map<Id, Row>, c: map<Id, Row>)
    ensures a + (b + c) == a + b + c
  {
  }

  lemma BookedSum(a: map<Id, Row>, b: map<Id, Row>, book: seq<string>)
    requires Booked(a, book) && Booked(b, book)
    ensures Booked(a + b, book)
  {
  }

  lemma Released(committed: map<Id, Row>, writer: Writer, book: seq<string>)
    requires WriterInvariant(committed, writer, book) && writer.phase.Merging?
    ensures WriterInvariant(committed, Writer(writer.own + writer.inner, map[],
                                              Returned(writer.phase.batch, writer.phase.ids)), book)
  {
    PlusAssociates(committed, writer.own, writer.inner);
    PlusNothing(committed + (writer.own + writer.inner));
    BookedSum(writer.own, writer.inner, book);
  }

  lemma ReleaseKeeps(s: State, w: nat)
    requires Invariant(s) && Enabled(s, Release(w))
    ensures Invariant(Apply(s, Release(w)))
  {
    var writer := s.writers[w];
    var next := Apply(s, Release(w)).writers[w];
    Released(s.committed, writer, s.book);
    ReleasedHolds(writer, next);
    HoldingLess(s, w, next);
    WriterReplaced(s, w, next, s.book);
  }

  lemma UnionKeepsKeys(committed: map<Id, Row>, mine: map<Id, Row>, theirs: map<Id, Row>, book: seq<string>)
    requires Booked(committed, book) && Booked(mine, book) && Booked(theirs, book)
    requires OneRowPerKey(committed + mine) && OneRowPerKey(committed + theirs)
    requires forall a, b :: a in mine && b in theirs ==> book[a] != book[b]
    ensures OneRowPerKey(committed + mine + theirs)
  {
    var all := committed + mine + theirs;
    forall a, b | a in all && b in all && all[a].key == all[b].key ensures a == b {
      assert book[a] == book[b];
      assert a in committed + mine && b in committed + mine ==> (committed + mine)[a].key == (committed + mine)[b].key;
      assert a in committed + theirs && b in committed + theirs
             ==> (committed + theirs)[a].key == (committed + theirs)[b].key;
    }
  }

  lemma HeldApart(mine: Writer, other: Writer, book: seq<string>)
    requires Apart(mine, other)
    requires Booked(mine.own, book) && Booked(other.own, book) && Booked(other.inner, book)
    ensures forall a, b :: a in mine.own && b in other.own + other.inner ==> book[a] != book[b]
  {
    forall a, b | a in mine.own && b in other.own + other.inner ensures book[a] != book[b] {
      assert Holds(mine, book[a]);
      assert HasKey(other.own, book[b]) || HasKey(other.inner, book[b]);
    }
  }

  /** A commit brings in only keys no other writer holds, so nobody else's view gains a second row for a key. */
  lemma CommitLeavesOthers(committed: map<Id, Row>, mine: Writer, other: Writer, book: seq<string>)
    requires Booked(committed, book) && Apart(mine, other)
    requires Booked(mine.own, book) && OneRowPerKey(committed + mine.own)
    requires WriterInvariant(committed, other, book)
    ensures WriterInvariant(committed + mine.own, other, book)
  {
    var theirs := other.own + other.inner;
    HeldApart(mine, other, book);
    BookedSum(other.own, other.inner, book);
    BookedSum(committed, mine.own, book);
    PlusAssociates(committed, other.own, other.inner);
    UnionKeepsKeys(committed, mine.own, theirs, book);
    PlusAssociates(committed + mine.own, other.own, other.inner);
    CommitKeepsPhase(committed, committed + mine.own, other, book);
  }

  lemma CommitKeepsPhase(committed: map<Id, Row>, now: map<Id, Row>, other: Writer, book: seq<string>)
    requires Booked(committed, book) && Booked(now, book) && Booked(other.own, book)
    requires committed.Keys <= now.Keys
    requires PhaseInvariant(committed, other)
    ensures PhaseInvariant(now, other)
  {
    forall key | HasKey(committed, key) ensures HasKey(now, key) {
      var id :| id in committed && committed[id].key == key;
      assert now[id].key == key;
    }
  }

  lemma CommitKeeps(s: State, w: nat)
    requires Invariant(s) && Enabled(s, Commit(w))
    ensures Invariant(Apply(s, Commit(w)))
  {
    var t := Apply(s, Commit(w));
    var mine := s.writers[w];
    PlusNothing(s.committed + mine.own);
    BookedSum(s.committed, mine.own, s.book);
    forall v | v in t.writers ensures WriterInvariant(t.committed, t.writers[v], t.book) {
      if v != w {
        CommitLeavesOthers(s.committed, mine, s.writers[v], s.book);
      } else {
        PlusNothing(t.committed);
        Cleared(t.committed, t.book);
      }
    }
    HoldingLess(s, w, t.writers[w]);
  }

  lemma Cleared(committed: map<Id, Row>, book: seq<string>)
    requires OneRowPerKey(committed)
    ensures WriterInvariant(committed, Writer(map[], map[], Ready), book)
  {
    PlusNothing(committed);
  }

  lemma ClearedKeeps(s: State, w: nat)
    requires Invariant(s)
    ensures Invariant(With(s, w, Writer(map[], map[], Ready)))
  {
    var next := Writer(map[], map[], Ready);
    Cleared(s.committed, s.book);
    WriterReplaced(s, w, next, s.book);
  }

  /** Every statement of every writer keeps the invariant. */
  lemma StepKeepsInvariant(s: State, step: Step)
    requires Invariant(s) && Enabled(s, step)
    ensures Invariant(Apply(s, step))
  {
    match step
    case Open(w) => ClearedKeeps(s, w);
    case Begin(w, batch) => BeginKeeps(s, w, batch);
    case Flush(w, i) => FlushKeeps(s, w, i);
    case Conflict(w, i) =>
      if DistinctKeys(s.writers[w].phase.batch) {
        LostToACommit(s, w, i);
        assert s.writers[w].phase.batch[i].key in Keys(s.writers[w].phase.batch);
      }
      RollbackKeeps(s, w, true);
    case Fault(w) => RollbackKeeps(s, w, false);
    case Retry(w) => RetryKeeps(s, w);
    case Release(w) => ReleaseKeeps(s, w);
    case Commit(w) => CommitKeeps(s, w);
    case Abort(w) => ClearedKeeps(s, w);
  }
}
