/**
 * The projection under concurrency: units of work and drains as interleaved statements, at read committed
 * (accounting/repositories/projection.py, accounting/db/projection.py).
 *
 * A trigger's insert does nothing against a committed marker, and waits for a marker that another transaction has
 * inserted or deleted without having finished.
 */
module ProjectionRuns {
  import opened Frame
  import opened Tables
  import opened Recomputing
  import opened TornReads
  import opened Projection
  import opened Drains
  import Rebase
  import ResolvedIds

  /**
   * An open unit of work: what it sees, the markers its last statement still has to insert, those its triggers found
   * already committed, and those it inserted itself.
   */
  datatype Work = Work(view: Tables, owed: set<TransactionId>, found: set<TransactionId>, inserted: set<TransactionId>)

  /**
   * What is committed, and what is open beside it. A marker a drain has deleted is in the queue until it commits, and a
   * second drain waits for the markers of the first.
   */
  datatype State = State(tables: Tables, dirty: set<TransactionId>, stored: StoredRows,
                         works: map<nat, Work>, minted: nat, drain: Drain)

  datatype Event =
    | Begin
    /** One statement of a unit of work. */
    | Execute(w: nat, after: Tables)
    /** Some of the marker inserts its triggers owe. */
    | Mark(w: nat, ts: set<TransactionId>)
    | Commit(w: nat)
    | Abort(w: nat)
    /** DELETE ... RETURNING: the markers it saw when it began, in some order. */
    | Claim(order: seq<TransactionId>)
    /** The whole-collection overlays, read once for the drain. */
    | ReadOverlays
    /** The raw rows of the next batch. */
    | ReadRows
    /** Its overrides, and its rows replaced; a refused insert rolls the drain back. */
    | WriteBatch
    | CommitDrain
    | AbortDrain
    /** A recompute from scratch, over every transaction in some order. */
    | Rebuild(order: seq<TransactionId>)

  /** Another transaction has inserted or deleted this marker and is still open, so an insert of it waits. */
  ghost predicate Waits(s: State, w: nat, t: TransactionId) {
    t in Held(s.drain) || exists u :: u in s.works && u != w && t in s.works[u].inserted
  }

  function BesideIn(works: map<nat, Work>, w: nat, tables: Tables): map<nat, Work>
    requires w in works
  {
    map u | u in works && u != w :: works[u].(view := Rebase.Rebased(works[w].view, tables, works[u].view))
  }

  /** What the units of work beside `w` see once it commits. */
  function Beside(s: State, w: nat): map<nat, Work>
    requires w in s.works
  {
    BesideIn(s.works, w, s.tables)
  }

  /** Foreign keys hold in what every open unit of work sees: the engine locks the rows it refers to. */
  ghost predicate KeysHoldIn(works: map<nat, Work>) {
    forall w :: w in works ==> KeysHold()(works[w].view)
  }

  ghost predicate Legal(s: State, e: Event) {
    match e
    case Begin => true
    case Execute(w, after) => w in s.works && s.works[w].owed == {} && KeysHold()(after)
    case Mark(w, ts) => w in s.works && ts <= s.works[w].owed && forall t :: t in ts ==> !Waits(s, w, t)
    case Commit(w) =>
      && w in s.works && s.works[w].owed == {}
      && Committed(s.works[w].view) && PairsKept(s.tables, s.works[w].view)
      && KeysHoldIn(Beside(s, w))
    case Abort(w) => w in s.works
    case Claim(order) => s.drain.Idle? && order != [] && Distinct(order) && Claimed(order) <= s.dirty
    case ReadOverlays => s.drain.Claiming?
    case ReadRows => s.drain.Draining? && s.drain.done < |s.drain.order| && s.drain.ledger.None?
    case WriteBatch => ReadyToWrite(s.drain)
    case CommitDrain => AllDone(s.drain)
    case AbortDrain => !s.drain.Idle?
    case Rebuild(order) => s.drain.Idle? && Enumerates(order, s.tables.transactions.Keys)
  }

  function Marked(work: Work, dirty: set<TransactionId>, ts: set<TransactionId>): Work {
    work.(owed := work.owed - ts, found := work.found + ts * dirty, inserted := work.inserted + (ts - dirty))
  }

  /** One statement under any triggers: the view changes and their markers are owed. */
  function StatementUnder(triggers: (Tables, Tables) -> set<TransactionId>, work: Work, after: Tables): Work {
    work.(view := after, owed := triggers(work.view, after))
  }

  function Statement(work: Work, after: Tables): Work {
    StatementUnder(Triggers(), work, after)
  }

  function WithWork(s: State, w: nat, work: Work): State {
    s.(works := s.works[w := work])
  }

  function Began(s: State): State {
    s.(works := s.works[s.minted := Work(s.tables, {}, {}, {})], minted := s.minted + 1)
  }

  function Executed(s: State, w: nat, after: Tables): State
    requires w in s.works
  {
    WithWork(s, w, Statement(s.works[w], after))
  }

  function MarkedIn(s: State, w: nat, ts: set<TransactionId>): State
    requires w in s.works
  {
    WithWork(s, w, Marked(s.works[w], s.dirty, ts))
  }

  function CommittedWork(s: State, w: nat): State
    requires w in s.works
  {
    s.(tables := s.works[w].view, dirty := s.dirty + s.works[w].inserted, works := Beside(s, w))
  }

  function WithDrain(s: State, drain: Drain): State {
    s.(drain := drain)
  }

  function Drained(s: State): State
    requires s.drain.Draining?
  {
    s.(dirty := s.dirty - Held(s.drain), stored := s.drain.rows, drain := Idle)
  }

  function Rebuilt(s: State, order: seq<TransactionId>): State
    requires Committed(s.tables)
  {
    var out := Recompute(Pipeline(s.tables), map[], order);
    if out.None? then s else s.(dirty := {}, stored := out.value)
  }

  ghost function Next(s: State, e: Event): State
    requires Committed(s.tables) && Legal(s, e)
  {
    match e
    case Begin => Began(s)
    case Execute(w, after) => Executed(s, w, after)
    case Mark(w, ts) => MarkedIn(s, w, ts)
    case Commit(w) => CommittedWork(s, w)
    case Abort(w) => s.(works := s.works - {w})
    case Claim(order) => WithDrain(s, Claiming(order))
    case ReadOverlays => WithDrain(s, ReadOverlaysOf(s.drain, s.tables, s.stored))
    case ReadRows => WithDrain(s, s.drain.(ledger := Some(s.tables)))
    case WriteBatch => WithDrain(s, BatchWritten(s.drain, s.tables))
    case CommitDrain => Drained(s)
    case AbortDrain => WithDrain(s, Idle)
    case Rebuild(order) => Rebuilt(s, order)
  }

  // ---------- what every step keeps ----------

  /** A unit of work sees a consistent database, and holds only markers nobody else has. */
  ghost predicate WorkKept(s: State, w: nat)
    requires w in s.works
  {
    && KeysHold()(s.works[w].view)
    && s.works[w].inserted !! s.dirty
    && (forall u :: u in s.works && u != w ==> s.works[u].inserted !! s.works[w].inserted)
    && w < s.minted
  }

  ghost predicate WorksKept(s: State) {
    forall w :: w in s.works ==> WorkKept(s, w)
  }

  ghost predicate Protocol(s: State) {
    && Committed(s.tables)
    && Keyed(s.stored)
    && Held(s.drain) <= s.dirty
    && DrainKept(s.stored, s.drain)
    && WorksKept(s)
  }

  /** Every transaction not in the queue is fresh; one that no longer exists has no rows. */
  ghost predicate Invariant(s: State) {
    && Committed(s.tables)
    && Keyed(s.stored)
    && (forall t :: t !in s.dirty ==> Fresh(s.tables, s.stored, t))
  }

  /** The invariant, as a value. */
  ghost function Holding(): State -> bool {
    (s: State) => Invariant(s)
  }

  lemma MarkedApart(s: State, v: nat, ts: set<TransactionId>, u: nat)
    requires Legal(s, Mark(v, ts)) && u in s.works && u != v
    ensures ts !! s.works[u].inserted
  {
    forall t | t in ts ensures t !in s.works[u].inserted {
      assert !Waits(s, v, t);
    }
  }

  lemma MarkKeepsWork(s: State, v: nat, ts: set<TransactionId>, w: nat)
    requires WorksKept(s) && Legal(s, Mark(v, ts)) && w in s.works
    ensures WorkKept(MarkedIn(s, v, ts), w)
  {
    assert WorkKept(s, w) && WorkKept(s, v);
    forall u | u in s.works && u != v ensures ts !! s.works[u].inserted {
      MarkedApart(s, v, ts, u);
    }
  }

  lemma CommitKeepsWork(s: State, v: nat, w: nat)
    requires WorksKept(s) && Legal(s, Commit(v)) && w in Beside(s, v)
    ensures WorkKept(CommittedWork(s, v), w)
  {
    assert WorkKept(s, w) && WorkKept(s, v);
    assert KeysHoldIn(Beside(s, v));
  }

  lemma BeginKeepsWork(s: State, w: nat)
    requires WorksKept(s) && KeysHold()(s.tables) && w in Began(s).works
    ensures WorkKept(Began(s), w)
  {
    forall u | u in s.works ensures u < s.minted && KeysHold()(s.works[u].view) {
      assert WorkKept(s, u);
    }
    assert w in s.works ==> WorkKept(s, w);
  }

  /** Markers already inserted are nobody else's while no one inserts more. */
  lemma SameMarkersKept(s: State, next: State, w: nat)
    requires WorksKept(s) && w in next.works && next.works.Keys <= s.works.Keys
    requires next.dirty <= s.dirty && s.minted <= next.minted && KeysHold()(next.works[w].view)
    requires forall u :: u in next.works ==> next.works[u].inserted == s.works[u].inserted
    ensures WorkKept(next, w)
  {
    assert WorkKept(s, w);
  }

  lemma ExecuteKeepsWork(s: State, v: nat, work: Work, w: nat)
    requires WorksKept(s) && v in s.works && w in s.works
    requires KeysHold()(work.view) && work.inserted == s.works[v].inserted
    ensures WorkKept(WithWork(s, v, work), w)
  {
    assert WorkKept(s, w);
    SameMarkersKept(s, WithWork(s, v, work), w);
  }

  lemma StatementKeepsWork(s: State, v: nat, after: Tables, w: nat)
    requires WorksKept(s) && v in s.works && w in s.works && KeysHold()(after)
    ensures WorkKept(Executed(s, v, after), w)
  {
    ExecuteKeepsWork(s, v, Statement(s.works[v], after), w);
  }

  lemma DrainingKeepsWork(s: State, next: State, w: nat)
    requires WorksKept(s) && w in next.works
    requires next.dirty <= s.dirty && next.minted == s.minted
    requires forall u :: u in next.works ==> u in s.works && next.works[u] == s.works[u]
    ensures WorkKept(next, w)
  {
    assert WorkKept(s, w);
    SameMarkersKept(s, next, w);
  }

  lemma RebuiltKeepsWork(s: State, order: seq<TransactionId>, w: nat)
    requires WorksKept(s) && w in s.works && Committed(s.tables)
    ensures WorkKept(Rebuilt(s, order), w)
  {
    DrainingKeepsWork(s, Rebuilt(s, order), w);
  }

  /** Only the drain moves. */
  lemma DrainStepKeepsWork(s: State, next: State, w: nat)
    requires WorksKept(s) && w in s.works && next == WithDrain(s, next.drain)
    ensures WorkKept(next, w)
  {
    assert WorkKept(s, w);
    SameMarkersKept(s, next, w);
  }

  lemma OtherStepKeepsWork(s: State, e: Event, w: nat)
    requires WorksKept(s) && Committed(s.tables) && Legal(s, e) && w in Next(s, e).works
    requires !e.Begin? && !e.Execute? && !e.Mark? && !e.Commit?
    ensures WorkKept(Next(s, e), w)
  {
    match e {
      case Rebuild(order) => RebuiltKeepsWork(s, order, w);
      case Abort(v) => DrainingKeepsWork(s, s.(works := s.works - {v}), w);
      case CommitDrain => DrainingKeepsWork(s, Drained(s), w);
      case Claim(order) => DrainStepKeepsWork(s, WithDrain(s, Claiming(order)), w);
      case ReadOverlays => DrainStepKeepsWork(s, WithDrain(s, ReadOverlaysOf(s.drain, s.tables, s.stored)), w);
      case ReadRows => DrainStepKeepsWork(s, WithDrain(s, s.drain.(ledger := Some(s.tables))), w);
      case WriteBatch => DrainStepKeepsWork(s, WithDrain(s, BatchWritten(s.drain, s.tables)), w);
      case AbortDrain => DrainStepKeepsWork(s, WithDrain(s, Idle), w);
      case _ =>
    }
  }

  lemma StepKeepsWork(s: State, e: Event, w: nat)
    requires WorksKept(s) && Committed(s.tables) && Legal(s, e) && w in Next(s, e).works
    ensures WorkKept(Next(s, e), w)
  {
    if e.Begin? {
      BeginKeepsWork(s, w);
    } else if e.Execute? {
      StatementKeepsWork(s, e.w, e.after, w);
    } else if e.Mark? {
      MarkKeepsWork(s, e.w, e.ts, w);
    } else if e.Commit? {
      CommitKeepsWork(s, e.w, w);
    } else {
      OtherStepKeepsWork(s, e, w);
    }
  }

  lemma BatchKept(s: State)
    requires Committed(s.tables) && DrainKept(s.stored, s.drain) && ReadyToWrite(s.drain) && Held(s.drain) <= s.dirty
    ensures DrainKept(s.stored, BatchWritten(s.drain, s.tables)) && Held(BatchWritten(s.drain, s.tables)) <= s.dirty
  {
    WrittenKept(s.stored, s.drain, s.tables);
  }

  lemma StepKeepsDrain(s: State, e: Event)
    requires Protocol(s) && Legal(s, e) && (e.ReadOverlays? || e.ReadRows? || e.WriteBatch?)
    ensures DrainKept(s.stored, Next(s, e).drain) && Held(Next(s, e).drain) <= s.dirty
  {
    match e {
      case ReadOverlays => OverlaysKept(s.stored, s.drain, s.tables);
      case ReadRows => RowsKept(s.stored, s.drain, s.tables);
      case _ => BatchKept(s);
    }
  }

  /** Whatever is written, claimed or given up, and in whatever order, each side's bookkeeping holds. */
  lemma StepKeepsProtocol(s: State, e: Event)
    requires Protocol(s) && Legal(s, e)
    ensures Protocol(Next(s, e))
  {
    forall w | w in Next(s, e).works ensures WorkKept(Next(s, e), w) {
      StepKeepsWork(s, e, w);
    }
    if e.ReadOverlays? || e.ReadRows? || e.WriteBatch? {
      StepKeepsDrain(s, e);
    } else if e.Rebuild? && Recompute(Pipeline(s.tables), map[], e.order).Some? {
      RebuiltIsKeyed(s.tables, e.order);
    }
  }

  // ---------- when a step strands a transaction ----------

  /** A transaction resolves to other rows in one state than in the other. */
  ghost predicate Moves(a: Tables, b: Tables, t: TransactionId) {
    Committed(a) && Committed(b) && !SameRows(ResolveBatch(a, {t}), ResolveBatch(b, {t}))
  }

  lemma RowsAreOwn(tb: Tables, t: TransactionId)
    requires Committed(tb)
    ensures AllOf(ResolveBatch(tb, {t}), t)
  {
    forall d | d in ResolveBatch(tb, {t}) ensures d.row.transaction == t {
      ResolvedIds.BatchOwners(tb, {t}, d);
    }
  }

  lemma StaysFreshUnlessMoved(a: Tables, b: Tables, stored: StoredRows, t: TransactionId)
    requires Committed(a) && Committed(b) && Fresh(a, stored, t)
    ensures Fresh(b, stored, t) <==> !Moves(a, b, t)
  {
    RowsAreOwn(a, t);
    RowsAreOwn(b, t);
    FreshIsUnique(ResolveBatch(a, {t}), ResolveBatch(b, {t}), stored, t);
  }

  lemma FreshInOtherRows(tb: Tables, x: StoredRows, y: StoredRows, t: TransactionId)
    requires Committed(tb) && Fresh(tb, x, t) && SameRowsFor(x, y, t)
    ensures Fresh(tb, y, t)
  {
    RowsAreOwn(tb, t);
    SameRowsFreshen(ResolveBatch(tb, {t}), x, y, t);
  }

  /** A commit moves the transaction and leaves no marker for it. */
  ghost predicate CommitLoses(s: State, w: nat, t: TransactionId) {
    w in s.works && t !in s.dirty && t !in s.works[w].inserted && Moves(s.tables, s.works[w].view, t)
  }

  /** What the drain has written for a transaction is not what it resolves to now. */
  ghost predicate Outdated(drain: Drain, tb: Tables, t: TransactionId)
    requires drain.Draining?
  {
    && t in drain.seen && Committed(drain.overlays) && Committed(tb)
    && Committed(drain.seen[t].ledger) && Committed(drain.seen[t].corrections)
    && !SameRows(TornBatch(drain.seen[t].ledger, drain.overlays, drain.seen[t].corrections, {t}), ResolveBatch(tb, {t}))
  }

  /** A drain takes the marker of a transaction it has written other rows for than it resolves to. */
  ghost predicate DrainLoses(s: State, t: TransactionId) {
    AllDone(s.drain) && t in s.drain.order && Outdated(s.drain, s.tables, t)
  }

  /** The step leaves the transaction unmarked with other rows than it resolves to. */
  ghost predicate StrandedAt(s: State, e: Event, t: TransactionId) {
    (e.Commit? && CommitLoses(s, e.w, t)) || (e.CommitDrain? && DrainLoses(s, t))
  }

  lemma CommitStrands(s: State, w: nat, t: TransactionId)
    requires Protocol(s) && Invariant(s) && Legal(s, Commit(w)) && t !in s.dirty && t !in s.works[w].inserted
    ensures Fresh(s.works[w].view, s.stored, t) <==> !CommitLoses(s, w, t)
  {
    assert Fresh(s.tables, s.stored, t);
    StaysFreshUnlessMoved(s.tables, s.works[w].view, s.stored, t);
  }

  lemma FreshUnlessOutdated(drain: Drain, tb: Tables, t: TransactionId)
    requires drain.Draining? && t in drain.seen && Committed(drain.overlays) && Committed(tb)
    requires Committed(drain.seen[t].ledger) && Committed(drain.seen[t].corrections)
    requires FreshFor(TornBatch(drain.seen[t].ledger, drain.overlays, drain.seen[t].corrections, {t}), drain.rows, t)
    ensures Fresh(tb, drain.rows, t) <==> !Outdated(drain, tb, t)
  {
    var read := drain.seen[t];
    TornRowsAreOwn(read.ledger, drain.overlays, read.corrections, t);
    RowsAreOwn(tb, t);
    FreshIsUnique(TornBatch(read.ledger, drain.overlays, read.corrections, {t}), ResolveBatch(tb, {t}), drain.rows, t);
  }

  /** A claimed transaction comes out fresh unless it is outdated by then; any other stays as fresh as it was. */
  lemma DrainStrandsAt(s: State, t: TransactionId)
    requires Committed(s.tables) && AllDone(s.drain) && DrainKept(s.stored, s.drain)
    requires t !in s.dirty ==> Fresh(s.tables, s.stored, t)
    ensures t in s.dirty - Held(s.drain) || (Fresh(s.tables, s.drain.rows, t) <==> !DrainLoses(s, t))
  {
    assert s.drain.order[..|s.drain.order|] == s.drain.order;
    assert DrainKeptAt(s.stored, s.drain, t);
    assert t in s.drain.order <==> t in Held(s.drain);
    if t in s.drain.order {
      FreshUnlessOutdated(s.drain, s.tables, t);
    } else if t !in s.dirty {
      FreshInOtherRows(s.tables, s.stored, s.drain.rows, t);
    }
  }

  lemma DrainKeepsInvariant(s: State)
    requires Protocol(s) && Invariant(s) && AllDone(s.drain)
    ensures Invariant(Drained(s)) <==> forall t :: !DrainLoses(s, t)
  {
    forall t ensures t in s.dirty - Held(s.drain) || (Fresh(s.tables, s.drain.rows, t) <==> !DrainLoses(s, t)) {
      DrainStrandsAt(s, t);
    }
    assert forall t :: t in s.drain.order <==> t in Held(s.drain);
  }

  lemma CommitKeepsInvariant(s: State, w: nat)
    requires Protocol(s) && Invariant(s) && Legal(s, Commit(w))
    ensures Invariant(CommittedWork(s, w)) <==> forall t :: !CommitLoses(s, w, t)
  {
    forall t | t !in s.dirty && t !in s.works[w].inserted
      ensures Fresh(s.works[w].view, s.stored, t) <==> !CommitLoses(s, w, t)
    {
      CommitStrands(s, w, t);
    }
  }

  lemma StrandsOnlyAtCommits(s: State, e: Event, t: TransactionId)
    requires !e.Commit? && !e.CommitDrain?
    ensures !StrandedAt(s, e, t)
  {
  }

  /** Only what is committed is in the invariant. */
  lemma SameCommitted(s: State, next: State)
    requires Invariant(s) && next.tables == s.tables && next.dirty == s.dirty && next.stored == s.stored
    ensures Invariant(next)
  {
  }

  lemma OpenStepKeepsInvariant(s: State, e: Event)
    requires Protocol(s) && Invariant(s) && Legal(s, e) && !e.Commit? && !e.CommitDrain? && !e.Rebuild?
    ensures Invariant(Next(s, e))
  {
    SameCommitted(s, Next(s, e));
  }

  lemma StrandsAtDrains(s: State, e: Event, t: TransactionId)
    requires e.CommitDrain?
    ensures StrandedAt(s, e, t) <==> DrainLoses(s, t)
  {
  }

  lemma StrandsAtCommits(s: State, e: Event, t: TransactionId)
    requires e.Commit?
    ensures StrandedAt(s, e, t) <==> CommitLoses(s, e.w, t)
  {
  }

  /** Nothing is stranded, put as one fact so that the cases agree on it. */
  ghost predicate StrandsNothing(s: State, e: Event) {
    forall t :: !StrandedAt(s, e, t)
  }

  lemma CommitStep(s: State, e: Event)
    requires Protocol(s) && Invariant(s) && Legal(s, e) && e.Commit?
    ensures Invariant(Next(s, e)) <==> StrandsNothing(s, e)
  {
    CommitKeepsInvariant(s, e.w);
    forall t ensures StrandedAt(s, e, t) <==> CommitLoses(s, e.w, t) {
      StrandsAtCommits(s, e, t);
    }
  }

  lemma DrainStep(s: State, e: Event)
    requires Protocol(s) && Invariant(s) && Legal(s, e) && e.CommitDrain?
    ensures Invariant(Next(s, e)) <==> StrandsNothing(s, e)
  {
    DrainKeepsInvariant(s);
    forall t ensures StrandedAt(s, e, t) <==> DrainLoses(s, t) {
      StrandsAtDrains(s, e, t);
    }
  }

  lemma OtherStep(s: State, e: Event)
    requires Protocol(s) && Invariant(s) && Legal(s, e) && !e.Commit? && !e.CommitDrain?
    ensures Invariant(Next(s, e)) && StrandsNothing(s, e)
  {
    forall t ensures !StrandedAt(s, e, t) {
      StrandsOnlyAtCommits(s, e, t);
    }
    if e.Rebuild? {
      RebuildRepairs(s, e.order);
    } else {
      OpenStepKeepsInvariant(s, e);
    }
  }

  /** A step keeps the invariant if and only if it strands no transaction. */
  lemma StepKeepsInvariant(s: State, e: Event)
    requires Protocol(s) && Invariant(s) && Legal(s, e)
    ensures Invariant(Next(s, e)) <==> StrandsNothing(s, e)
  {
    if e.Commit? {
      CommitStep(s, e);
    } else if e.CommitDrain? {
      DrainStep(s, e);
    } else {
      OtherStep(s, e);
    }
  }

  /** A rebuild repairs any stored rows at all, and is never refused. */
  lemma RebuildRepairs(s: State, order: seq<TransactionId>)
    requires Committed(s.tables) && Legal(s, Rebuild(order))
    ensures Invariant(Next(s, Rebuild(order))) && Next(s, Rebuild(order)).dirty == {}
  {
    RebuildRefusesNothing(s.tables, order);
    RebuiltIsKeyed(s.tables, order);
    var out := Recompute(Pipeline(s.tables), map[], order).value;
    forall t ensures Fresh(s.tables, out, t) {
      RebuiltIsFresh(s.tables, order, t);
    }
  }

  // ---------- runs ----------

  ghost predicate StepAt(states: seq<State>, events: seq<Event>, i: nat)
    requires i < |events| && i + 1 < |states|
  {
    && Committed(states[i].tables)
    && Legal(states[i], events[i])
    && states[i + 1] == Next(states[i], events[i])
  }

  /** A run: each state follows from the one before by a legal event. */
  ghost predicate Run(states: seq<State>, events: seq<Event>) {
    |states| == |events| + 1 && forall i :: 0 <= i < |events| ==> StepAt(states, events, i)
  }

  /** Nothing is open, and the stored rows are whatever they are. */
  ghost predicate Quiet(s: State) {
    Committed(s.tables) && Keyed(s.stored) && s.works == map[] && s.drain.Idle?
  }

  lemma QuietIsProtocol(s: State)
    requires Quiet(s)
    ensures Protocol(s)
  {
  }

  lemma ProtocolInStep(states: seq<State>, events: seq<Event>, i: nat)
    requires Run(states, events) && i < |events| && Protocol(states[i])
    ensures Protocol(states[i + 1])
  {
    assert StepAt(states, events, i);
    StepKeepsProtocol(states[i], events[i]);
  }

  lemma {:induction false} RunKeepsProtocol(states: seq<State>, events: seq<Event>, i: nat)
    requires Run(states, events) && Quiet(states[0]) && i < |states|
    ensures Protocol(states[i])
  {
    if i == 0 {
      QuietIsProtocol(states[0]);
    } else {
      var j := i - 1;
      assert states[j + 1] == states[i];
      RunKeepsProtocol(states, events, j);
      ProtocolInStep(states, events, j);
    }
  }
}
