/**
 * The stored projection as its statements leave it (accounting/repositories/projection.py,
 * accounting/db/projection.py).
 */
module ProjectionStores {
  import opened Frame
  import opened Resolution
  import opened Tables
  import opened Recomputing
  import opened TornReads
  import opened Projection
  import opened Drains
  import opened ProjectionRuns
  import opened ProjectionStarts
  import ResolvedIds
  import Slices

  // ---------- a drain nothing interrupts ----------

  lemma DrainRefused(s: State, order: seq<TransactionId>)
    requires Invariant(s) && Enumerates(order, s.dirty)
    ensures Recompute(Pipeline(s.tables), s.stored, order).None?
      <==> CrossBatchMove(Pipeline(s.tables), s.stored, order)
  {
    PipelineIsCoherent(s.tables);
    forall t | t !in order ensures FreshFor(Pipeline(s.tables)({t}), s.stored, t) {
      assert t !in Claimed(order);
      assert Fresh(s.tables, s.stored, t);
    }
    RecomputeRefused(Pipeline(s.tables), s.stored, order);
  }

  /** Claim, recompute and commit, with nothing committed in between. */
  function DrainAlone(s: State, order: seq<TransactionId>): State
    requires Committed(s.tables)
  {
    var out := Recompute(Pipeline(s.tables), s.stored, order);
    if out.None? then s.(drain := Idle)
    else s.(drain := Idle, dirty := s.dirty - Claimed(order), stored := out.value)
  }

  lemma DrainedIsFresh(s: State, order: seq<TransactionId>, t: TransactionId)
    requires Invariant(s) && Enumerates(order, s.dirty) && Recompute(Pipeline(s.tables), s.stored, order).Some?
    ensures var out := Recompute(Pipeline(s.tables), s.stored, order).value; Keyed(out) && Fresh(s.tables, out, t)
  {
    if t !in order {
      assert t !in Claimed(order);
    }
    RecomputedIsFresh(s.tables, s.stored, order, t);
  }

  /** What the batches leave behind: the rows of a recompute, or nothing if it is refused. */
  ghost predicate RecomputedAlone(tb: Tables, stored: StoredRows, order: seq<TransactionId>, drain: Drain)
    requires Committed(tb)
  {
    var out := Recompute(Pipeline(tb), stored, order);
    if out.None? then drain.Idle? else AllDone(drain) && drain.order == order && drain.rows == out.value
  }

  lemma RecomputedThenDrained(s: State, order: seq<TransactionId>, drain: Drain, next: State)
    requires Committed(s.tables) && s.drain.Idle? && RecomputedAlone(s.tables, s.stored, order, drain)
    requires next == if drain.Draining? then Drained(WithDrain(s, drain)) else WithDrain(s, drain)
    ensures next == DrainAlone(s, order)
  {
  }

  /** A drain of the whole queue empties it and leaves everything fresh, unless the one refusal applies. */
  lemma DrainReconciles(s: State, order: seq<TransactionId>)
    requires Invariant(s) && s.drain.Idle? && Enumerates(order, s.dirty) && order != []
    ensures Invariant(DrainAlone(s, order))
    ensures var refused := CrossBatchMove(Pipeline(s.tables), s.stored, order);
      && (refused ==> DrainAlone(s, order) == s)
      && (!refused ==> DrainAlone(s, order).dirty == {})
    ensures |order| <= RECOMPUTE_BATCH_TRANSACTIONS ==> !CrossBatchMove(Pipeline(s.tables), s.stored, order)
  {
    DrainRefused(s, order);
    if |order| <= RECOMPUTE_BATCH_TRANSACTIONS {
      OneBatchNeverMoves(Pipeline(s.tables), s.stored, order);
    }
    var next := DrainAlone(s, order);
    if Recompute(Pipeline(s.tables), s.stored, order).Some? {
      DrainedIsFresh(s, order, 0);
      forall t ensures Fresh(s.tables, next.stored, t) {
        DrainedIsFresh(s, order, t);
      }
    }
  }

  lemma DrainEnds(s: State, order: seq<TransactionId>)
    requires Invariant(s) && s.drain.Idle? && Enumerates(order, s.dirty) && order != []
    ensures var next := DrainAlone(s, order);
      && Invariant(next)
      && (next.dirty == {} <==> !CrossBatchMove(Pipeline(s.tables), s.stored, order))
      && (next.dirty != {} ==> next == s)
      && (|order| <= RECOMPUTE_BATCH_TRANSACTIONS ==> next.dirty == {})
  {
    DrainReconciles(s, order);
    assert order[0] in Claimed(order);
  }

  /** With the queue empty, the stored rows are the whole-ledger resolution, no more and no less. */
  lemma EmptyQueueMeansEqual(s: State, d: DisplayRow)
    requires Invariant(s) && s.dirty == {}
    ensures Holds(s.stored, d) <==> d in ResolveEverything(s.tables)
  {
    var t := d.row.transaction;
    assert Fresh(s.tables, s.stored, t);
    if t in s.tables.transactions {
      Slices.RecomputeMatchesFullRead(s.tables, t);
      RestrictDisplayMembers(ResolveEverything(s.tables), {t}, d);
    } else {
      Slices.AbsentResolvesToNothing(s.tables, t);
      if d in ResolveEverything(s.tables) {
        Slices.BatchOverridesSuffice(s.tables, s.tables.transactions.Keys, s.tables.postings.Keys);
        ResolvedIds.BatchOwners(s.tables, s.tables.transactions.Keys, d);
      }
    }
  }

  // ---------- a unit of work nothing interrupts ----------

  /** A unit of work alone keeps the invariant: what it does not enqueue resolves as before. */
  lemma SaveKeepsInvariant(s: State, next: State, statements: seq<Tables>)
    requires Invariant(s) && LegalWrite(s.tables, statements)
    requires next.tables == statements[|statements| - 1] && next.stored == s.stored
    requires next.dirty == s.dirty + EnqueuedBy(s.tables, statements)
    ensures Invariant(next)
  {
    forall t | t !in next.dirty ensures Fresh(next.tables, s.stored, t) {
      UnenqueuedResolvesAsBefore(s.tables, statements, t);
      assert Fresh(s.tables, s.stored, t);
    }
  }

  /** The markers one unit of work has inserted and found, in a queue nobody else touches. */
  ghost predicate Tally(work: Work, dirty: set<TransactionId>, named: set<TransactionId>) {
    work.owed == {} && work.found <= dirty && work.found + work.inserted == named
  }

  lemma TallyStatement(triggers: (Tables, Tables) -> set<TransactionId>, work: Work, dirty: set<TransactionId>,
                       named: set<TransactionId>, after: Tables)
    requires Tally(work, dirty, named)
    ensures var next := StatementUnder(triggers, work, after);
      Tally(Marked(next, dirty, next.owed), dirty, named + triggers(work.view, after))
  {
  }

  // ---------- the store ----------

  lemma DrainStepKeeps(s: State, e: Event, drain: Drain)
    requires Committed(s.tables) && Legal(s, e) && Next(s, e) == WithDrain(s, drain)
    ensures Protocol(s) ==> Protocol(WithDrain(s, drain))
  {
    if Protocol(s) {
      StepKeepsProtocol(s, e);
    }
  }

  method InsertRows(stored: StoredRows, rows: seq<DisplayRow>) returns (out: Option<StoredRows>)
    ensures out == InsertAll(stored, rows)
  {
    var filled := stored;
    assert rows[0..] == rows;
    for i := 0 to |rows|
      invariant InsertAll(filled, rows[i..]) == InsertAll(stored, rows)
    {
      assert rows[i..][1..] == rows[i + 1..];
      if rows[i].row.posting in filled {
        return None;
      }
      filled := filled[rows[i].row.posting := rows[i]];
    }
    out := Some(filled);
  }

  /** The statements of one batch: its overrides, the delete and the inserts. */
  method ReplaceBatch(drain: Drain, tables: Tables) returns (next: Drain)
    requires Committed(tables) && ReadyToWrite(drain)
    ensures next == BatchWritten(drain, tables)
  {
    var batch := BatchAt(drain.order, drain.done);
    var ledger := drain.ledger.value;
    var rows := TornBatch(ledger, drain.overlays, tables, Claimed(batch));
    var out := InsertRows(Purge(drain.rows, Claimed(batch)), rows);
    if out.None? {
      return Idle;
    }
    next := Draining(drain.order, drain.overlays, drain.done + |batch|, None, out.value,
                     WithReads(drain.seen, batch, Read(ledger, tables)));
  }

  class ProjectionStore {
    var tables: Tables
    var dirty: set<TransactionId>
    var stored: StoredRows
    var works: map<nat, Work>
    var minted: nat
    var drain: Drain

    ghost function Value(): State
      reads this
    {
      State(tables, dirty, stored, works, minted, drain)
    }

    /** The migration's two tables, empty; right at once if and only if no transaction resolves to a row. */
    constructor (tb: Tables)
      requires Committed(tb)
      ensures Installed(Value()) && Protocol(Value()) && tables == tb
      ensures Invariant(Value()) <==> forall t :: ResolveBatch(tb, {t}) == []
    {
      tables, dirty, stored, works, minted, drain := tb, {}, map[], map[], 0, Idle;
      new;
      InstalledIsQuiet(Value());
      InstalledIsRight(Value());
    }

    method Begin() returns (w: nat)
      modifies this
      ensures w == old(minted) && Value() == old(Began(Value()))
    {
      w := minted;
      works, minted := works[w := Work(tables, {}, {}, {})], minted + 1;
    }

    /** One statement: what the unit of work sees changes, and its triggers owe their markers. */
    method Execute(triggers: (Tables, Tables) -> set<TransactionId>, w: nat, after: Tables)
      requires w in works
      modifies this`works
      ensures Value() == old(WithWork(Value(), w, StatementUnder(triggers, works[w], after)))
    {
      works := works[w := StatementUnder(triggers, works[w], after)];
    }

    /**
     * The triggers' inserts, one marker at a time: nothing where the marker is committed, a new one where it is not.
     */
    method Mark(w: nat, ts: set<TransactionId>)
      requires w in works
      modifies this`works
      ensures Value() == old(MarkedIn(Value(), w, ts))
    {
      var start := works[w];
      var work, left := start.(owed := start.owed - ts), ts;
      while left != {}
        invariant left <= ts && works == old(works)
        invariant work == Marked(start, dirty, ts - left).(owed := start.owed - ts)
      {
        var t :| t in left;
        assert ts - (left - {t}) == (ts - left) + {t};
        if t in dirty {
          work := work.(found := work.found + {t});
        } else {
          work := work.(inserted := work.inserted + {t});
        }
        left := left - {t};
      }
      assert ts - left == ts;
      works := works[w := work];
    }

    /** The statements of one unit of work and their markers, in order, with nobody else at work. */
    method ExecuteAll(triggers: (Tables, Tables) -> set<TransactionId>, w: nat, statements: seq<Tables>)
      requires statements != [] && works == map[w := Work(tables, {}, {}, {})]
      modifies this`works
      ensures works.Keys == {w} && works[w].view == statements[|statements| - 1]
      ensures Tally(works[w], dirty, Along(triggers, tables, statements))
    {
      ghost var named := {};
      for i := 0 to |statements|
        invariant works.Keys == {w}
        invariant works[w].view == if i == 0 then tables else statements[i - 1]
        invariant Tally(works[w], dirty, named)
        invariant named + Along(triggers, works[w].view, statements[i..]) == Along(triggers, tables, statements)
      {
        assert statements[i..][1..] == statements[i + 1..];
        TallyStatement(triggers, works[w], dirty, named, statements[i]);
        named := named + triggers(works[w].view, statements[i]);
        Execute(triggers, w, statements[i]);
        Mark(w, works[w].owed);
      }
    }

    /** A unit of work from its first statement to its commit. */
    method SaveSteps(triggers: (Tables, Tables) -> set<TransactionId>, statements: seq<Tables>)
      requires works == map[] && statements != []
      modifies this
      ensures tables == statements[|statements| - 1] && stored == old(stored) && works == map[]
      ensures dirty == old(dirty + Along(triggers, tables, statements))
    {
      var w := Begin();
      ExecuteAll(triggers, w, statements);
      tables, dirty, works := works[w].view, dirty + works[w].inserted, map[];
    }

    /** A unit of work alone: whatever it writes, through whatever path, the invariant survives it. */
    method Save(statements: seq<Tables>)
      requires Invariant(Value()) && works == map[] && LegalWrite(tables, statements)
      modifies this
      ensures tables == statements[|statements| - 1] && stored == old(stored) && works == map[]
      ensures dirty == old(dirty + EnqueuedBy(tables, statements))
      ensures Invariant(Value())
    {
      ghost var before := Value();
      SaveSteps(Triggers(), statements);
      SaveKeepsInvariant(before, Value(), statements);
    }

    /** The commit keeps the invariant exactly when it strands no transaction. */
    method Commit(w: nat)
      requires Protocol(Value()) && Legal(Value(), ProjectionRuns.Commit(w))
      modifies this
      ensures Value() == old(CommittedWork(Value(), w)) && Protocol(Value())
      ensures old(Invariant(Value())) ==>
        (Invariant(Value()) <==> old(forall t :: !CommitLoses(Value(), w, t)))
    {
      ghost var before := Value();
      StepKeepsProtocol(before, ProjectionRuns.Commit(w));
      var work := works[w];
      works := BesideIn(works, w, tables);
      tables, dirty := work.view, dirty + work.inserted;
      assert Value() == CommittedWork(before, w);
      if Invariant(before) {
        CommitKeepsInvariant(before, w);
      }
    }

    method Claim(order: seq<TransactionId>)
      requires Protocol(Value()) && Legal(Value(), ProjectionRuns.Claim(order))
      modifies this`drain
      ensures Value() == old(Value()).(drain := Claiming(order)) && Protocol(Value())
    {
      StepKeepsProtocol(Value(), ProjectionRuns.Claim(order));
      drain := Claiming(order);
    }

    /** The overlays, read once for the whole drain. */
    method ReadOverlays()
      requires Committed(tables) && drain.Claiming?
      modifies this`drain
      ensures Value() == old(WithDrain(Value(), ReadOverlaysOf(drain, tables, stored)))
      ensures old(Protocol(Value())) ==> Protocol(Value())
    {
      DrainStepKeeps(Value(), ProjectionRuns.ReadOverlays, ReadOverlaysOf(drain, tables, stored));
      drain := Draining(drain.order, tables, 0, None, stored, map[]);
    }

    /** The rows of the batch it is at. */
    method ReadRows()
      requires Committed(tables) && Legal(Value(), ProjectionRuns.ReadRows)
      modifies this`drain
      ensures Value() == old(WithDrain(Value(), drain.(ledger := Some(tables))))
      ensures old(Protocol(Value())) ==> Protocol(Value())
    {
      DrainStepKeeps(Value(), ProjectionRuns.ReadRows, drain.(ledger := Some(tables)));
      drain := drain.(ledger := Some(tables));
    }

    /**
     * Its overrides, then its rows replaced; a refused insert rolls the drain back and its markers are queued again.
     */
    method WriteBatch() returns (ok: bool)
      requires Committed(tables) && ReadyToWrite(drain)
      modifies this`drain
      ensures Value() == old(WithDrain(Value(), BatchWritten(drain, tables)))
      ensures ok <==> drain.Draining?
      ensures old(Protocol(Value())) ==> Protocol(Value())
    {
      DrainStepKeeps(Value(), ProjectionRuns.WriteBatch, BatchWritten(drain, tables));
      drain := ReplaceBatch(drain, tables);
      ok := drain.Draining?;
    }

    /** The commit keeps the invariant exactly when nothing it wrote for a claimed transaction is outdated by now. */
    method CommitDrain()
      requires Protocol(Value()) && AllDone(drain)
      modifies this
      ensures Value() == old(Drained(Value())) && Protocol(Value())
      ensures old(Invariant(Value())) ==>
        (Invariant(Value()) <==> old(forall t :: !DrainLoses(Value(), t)))
    {
      ghost var before := Value();
      StepKeepsProtocol(before, ProjectionRuns.CommitDrain);
      if Invariant(before) {
        DrainKeepsInvariant(before);
      }
      StoreDrained();
    }

    method StoreDrained()
      requires drain.Draining?
      modifies this
      ensures Value() == old(Drained(Value()))
    {
      dirty, stored, drain := dirty - Claimed(drain.order), drain.rows, Idle;
    }

    /** Batch after batch, up to the last or to a refused insert. */
    method RecomputeClaimed(order: seq<TransactionId>)
      requires Committed(tables) && drain == Draining(order, tables, 0, None, stored, map[])
      modifies this`drain
      ensures RecomputedAlone(tables, stored, order, drain)
    {
      assert order[0..] == order;
      while drain.done < |order|
        invariant drain.Draining? && drain.order == order && drain.overlays == tables && drain.ledger.None?
        invariant drain.done <= |order|
        invariant Recompute(Pipeline(tables), drain.rows, order[drain.done..])
               == Recompute(Pipeline(tables), stored, order)
        decreases |order| - drain.done
      {
        WholeBatch(drain, tables);
        BatchThenRest(Pipeline(tables), drain.rows, order, drain.done);
        ReadRows();
        var ok := WriteBatch();
        if !ok {
          return;
        }
      }
    }

    method EndDrain(ghost before: State, ghost order: seq<TransactionId>)
      requires Committed(before.tables) && before.drain.Idle?
      requires Value() == WithDrain(before, drain) && RecomputedAlone(before.tables, before.stored, order, drain)
      modifies this
      ensures Value() == DrainAlone(before, order)
    {
      ghost var recomputed := drain;
      if drain.Draining? {
        StoreDrained();
      }
      RecomputedThenDrained(before, order, recomputed, Value());
    }

    /** A whole drain with nothing in between. */
    method DrainSteps(order: seq<TransactionId>)
      requires Committed(tables) && drain.Idle?
      modifies this
      ensures Value() == old(DrainAlone(Value(), order))
    {
      ghost var before := Value();
      drain := Claiming(order);
      ReadOverlays();
      RecomputeClaimed(order);
      EndDrain(before, order);
    }

    /** A drain nothing interrupts keeps the invariant, and says whether the queue is empty. */
    method DrainQueue(order: seq<TransactionId>) returns (done: bool)
      requires Invariant(Value()) && drain.Idle? && Enumerates(order, dirty)
      modifies this
      ensures order != [] ==> Value() == old(DrainAlone(Value(), order))
      ensures Invariant(Value())
      ensures done <==> dirty == {}
      ensures |order| <= RECOMPUTE_BATCH_TRANSACTIONS ==> done
    {
      if order == [] {
        assert Claimed(order) == {};
        return true;
      }
      DrainEnds(Value(), order);
      DrainSteps(order);
      done := dirty == {};
    }
  }
}
