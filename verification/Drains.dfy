/**
 * One drain, statement by statement: claim the markers, read the overlays, then batch by batch read the rows, read the
 * overrides and replace what is stored (accounting/repositories/projection.py).
 */
module Drains {
  import opened Frame
  import opened Resolution
  import opened Tables
  import opened Recomputing
  import opened TornReads
  import Projection

  /** The states a transaction's rows and overrides were read at. */
  datatype Read = Read(ledger: Tables, corrections: Tables)

  /**
   * A drain in progress. `overlays` is what was committed when it read them, `ledger` the same for the rows of the
   * batch it is at, if it has read those; `rows` is the projection as the drain sees it, with the first `done`
   * transactions replaced, each from the states in `seen`.
   */
  datatype Drain =
    | Idle
    | Claiming(order: seq<TransactionId>)
    | Draining(order: seq<TransactionId>, overlays: Tables, done: nat, ledger: Option<Tables>, rows: StoredRows,
               seen: map<TransactionId, Read>)

  function Held(drain: Drain): set<TransactionId> {
    if drain.Idle? then {} else Claimed(drain.order)
  }

  predicate AllDone(drain: Drain) {
    drain.Draining? && drain.done == |drain.order| && drain.ledger.None?
  }

  /** The transactions of the batch a drain is at. */
  function BatchAt(order: seq<TransactionId>, done: nat): seq<TransactionId>
    requires done <= |order|
  {
    order[done..][..BatchLength(order[done..])]
  }

  function ReadOverlaysOf(drain: Drain, tb: Tables, stored: StoredRows): Drain
    requires drain.Claiming?
  {
    Draining(drain.order, tb, 0, None, stored, map[])
  }

  ghost predicate ReadyToWrite(drain: Drain) {
    && drain.Draining? && drain.done < |drain.order| && drain.ledger.Some?
    && Committed(drain.overlays) && Committed(drain.ledger.value)
  }

  function WithReads(seen: map<TransactionId, Read>, batch: seq<TransactionId>, read: Read): map<TransactionId, Read> {
    map t | t in seen.Keys + Claimed(batch) :: if t in batch then read else seen[t]
  }

  /** Read the overrides, delete the batch's rows and insert the fresh ones; a refused insert gives the drain up. */
  function BatchWritten(drain: Drain, tb: Tables): Drain
    requires ReadyToWrite(drain) && Committed(tb)
  {
    var batch := BatchAt(drain.order, drain.done);
    var ledger := drain.ledger.value;
    var out := InsertAll(Purge(drain.rows, Claimed(batch)), TornBatch(ledger, drain.overlays, tb, Claimed(batch)));
    if out.None? then Idle
    else drain.(done := drain.done + |batch|, ledger := None, rows := out.value,
                seen := WithReads(drain.seen, batch, Read(ledger, tb)))
  }

  // ---------- rows of one transaction ----------

  ghost predicate SameRows(x: seq<DisplayRow>, y: seq<DisplayRow>) {
    forall d :: d in x <==> d in y
  }

  ghost predicate AllOf(rows: seq<DisplayRow>, t: TransactionId) {
    forall d :: d in rows ==> d.row.transaction == t
  }

  lemma FreshIsUnique(x: seq<DisplayRow>, y: seq<DisplayRow>, stored: StoredRows, t: TransactionId)
    requires AllOf(x, t) && AllOf(y, t) && FreshFor(x, stored, t)
    ensures FreshFor(y, stored, t) <==> SameRows(x, y)
  {
    if FreshFor(y, stored, t) {
      forall d ensures d in x <==> d in y {
        assert d in x ==> Holds(stored, d);
        assert d in y ==> Holds(stored, d);
      }
    }
  }

  lemma SameRowsFreshen(rows: seq<DisplayRow>, x: StoredRows, y: StoredRows, t: TransactionId)
    requires AllOf(rows, t) && FreshFor(rows, x, t) && SameRowsFor(x, y, t)
    ensures FreshFor(rows, y, t)
  {
    forall d | d in rows ensures Holds(y, d) {
      assert Holds(x, d);
    }
  }

  lemma SameRowsThrough(x: StoredRows, y: StoredRows, z: StoredRows, t: TransactionId)
    requires SameRowsFor(x, y, t) && SameRowsFor(y, z, t)
    ensures SameRowsFor(x, z, t)
  {
  }

  lemma TornRowsAreOwn(ledger: Tables, overlays: Tables, corrections: Tables, t: TransactionId)
    requires Committed(ledger) && Committed(overlays) && Committed(corrections)
    ensures AllOf(TornBatch(ledger, overlays, corrections, {t}), t)
  {
    forall d | d in TornBatch(ledger, overlays, corrections, {t}) ensures d.row.transaction == t {
      TornOwners(ledger, overlays, corrections, {t}, d);
    }
  }

  // ---------- what every step of a drain keeps ----------

  /** A transaction already replaced holds exactly what was read for it; any other holds what it held. */
  ghost predicate DrainKeptAt(stored: StoredRows, drain: Drain, t: TransactionId)
    requires drain.Draining? && drain.done <= |drain.order| && Committed(drain.overlays)
  {
    if t in drain.order[..drain.done] then
      && t in drain.seen
      && Committed(drain.seen[t].ledger) && Committed(drain.seen[t].corrections)
      && FreshFor(TornBatch(drain.seen[t].ledger, drain.overlays, drain.seen[t].corrections, {t}), drain.rows, t)
    else
      SameRowsFor(stored, drain.rows, t)
  }

  ghost predicate DrainKept(stored: StoredRows, drain: Drain) {
    && (!drain.Idle? ==> Distinct(drain.order))
    && (drain.Draining? ==>
          && Committed(drain.overlays) && Keyed(drain.rows)
          && drain.done <= |drain.order|
          && (drain.ledger.Some? ==> Committed(drain.ledger.value) && drain.done < |drain.order|)
          && forall t :: DrainKeptAt(stored, drain, t))
  }

  lemma OverlaysKept(stored: StoredRows, drain: Drain, tb: Tables)
    requires DrainKept(stored, drain) && drain.Claiming? && Committed(tb) && Keyed(stored)
    ensures DrainKept(stored, ReadOverlaysOf(drain, tb, stored))
  {
    var next := ReadOverlaysOf(drain, tb, stored);
    assert next.order[..0] == [];
    forall t ensures DrainKeptAt(stored, next, t) {
    }
  }

  lemma RowsKept(stored: StoredRows, drain: Drain, tb: Tables)
    requires DrainKept(stored, drain) && drain.Draining? && drain.done < |drain.order| && Committed(tb)
    ensures DrainKept(stored, drain.(ledger := Some(tb)))
  {
    var next := drain.(ledger := Some(tb));
    forall t ensures DrainKeptAt(stored, next, t) {
      assert DrainKeptAt(stored, drain, t);
    }
  }

  /** The transactions done after a batch are those before it and its own, which are others. */
  lemma BatchIsNext(order: seq<TransactionId>, done: nat, t: TransactionId)
    requires done < |order| && Distinct(order)
    ensures var batch := BatchAt(order, done);
      && 0 < |batch| && done + |batch| <= |order|
      && (t in order[..done + |batch|] <==> t in order[..done] || t in batch)
      && !(t in order[..done] && t in batch)
  {
    var batch := BatchAt(order, done);
    assert order[..done + |batch|] == order[..done] + batch;
    forall j | 0 <= j < |batch| ensures batch[j] !in order[..done] {
      NotInFirstBatch(order, done, done + j);
    }
  }

  lemma BatchRows(ledger: Tables, overlays: Tables, corrections: Tables, rows: StoredRows, batch: set<TransactionId>,
                  t: TransactionId)
    requires Committed(ledger) && Committed(overlays) && Committed(corrections) && Keyed(rows)
    requires InsertAll(Purge(rows, batch), TornBatch(ledger, overlays, corrections, batch)).Some?
    ensures var out := InsertAll(Purge(rows, batch), TornBatch(ledger, overlays, corrections, batch)).value;
      && Keyed(out)
      && (t in batch ==> FreshFor(TornBatch(ledger, overlays, corrections, {t}), out, t))
      && (t !in batch ==> SameRowsFor(rows, out, t))
  {
    var torn := Torn(ledger, overlays, corrections);
    TornIsLocal(ledger, overlays, corrections);
    TornIsDistinct(ledger, overlays, corrections);
    assert torn(batch) == TornBatch(ledger, overlays, corrections, batch);
    BatchKeyed(torn, rows, batch);
    if t in batch {
      BatchFreshens(torn, rows, batch, t);
    } else {
      BatchLeavesAlone(torn, rows, batch, t);
    }
  }

  lemma WrittenKeptAt(stored: StoredRows, drain: Drain, tb: Tables, t: TransactionId)
    requires DrainKept(stored, drain) && ReadyToWrite(drain) && Committed(tb) && BatchWritten(drain, tb).Draining?
    ensures var next := BatchWritten(drain, tb);
      next.done <= |next.order| && Keyed(next.rows) && DrainKeptAt(stored, next, t)
  {
    var batch := BatchAt(drain.order, drain.done);
    var next := BatchWritten(drain, tb);
    BatchIsNext(drain.order, drain.done, t);
    BatchRows(drain.ledger.value, drain.overlays, tb, drain.rows, Claimed(batch), t);
    assert DrainKeptAt(stored, drain, t);
    if t !in batch {
      if t in drain.order[..drain.done] {
        var read := drain.seen[t];
        TornRowsAreOwn(read.ledger, drain.overlays, read.corrections, t);
        SameRowsFreshen(TornBatch(read.ledger, drain.overlays, read.corrections, {t}), drain.rows, next.rows, t);
      } else {
        SameRowsThrough(stored, drain.rows, next.rows, t);
      }
    }
  }

  lemma WrittenKept(stored: StoredRows, drain: Drain, tb: Tables)
    requires DrainKept(stored, drain) && ReadyToWrite(drain) && Committed(tb)
    ensures DrainKept(stored, BatchWritten(drain, tb))
  {
    var next := BatchWritten(drain, tb);
    if next.Draining? {
      WrittenKeptAt(stored, drain, tb, 0);
      forall t ensures DrainKeptAt(stored, next, t) {
        WrittenKeptAt(stored, drain, tb, t);
      }
    }
  }

  // ---------- when what was read is what is committed ----------

  /** Everything the drain in progress has read of a transaction is what the tables hold of it now. */
  ghost predicate ReadsAreCurrent(drain: Drain, tb: Tables, t: TransactionId) {
    drain.Draining? && t in drain.order ==>
      && WholeOf(drain.overlays, t) == WholeOf(tb, t)
      && (drain.ledger.Some? ==> WholeOf(drain.ledger.value, t) == WholeOf(tb, t))
      && (t in drain.seen ==>
            WholeOf(drain.seen[t].ledger, t) == WholeOf(tb, t) == WholeOf(drain.seen[t].corrections, t))
  }

  lemma CurrentMatches(stored: StoredRows, drain: Drain, tb: Tables, t: TransactionId)
    requires DrainKept(stored, drain) && AllDone(drain) && Committed(tb) && t in drain.order
    requires ReadsAreCurrent(drain, tb, t)
    ensures t in drain.seen && Committed(drain.seen[t].ledger) && Committed(drain.seen[t].corrections)
    ensures TornBatch(drain.seen[t].ledger, drain.overlays, drain.seen[t].corrections, {t}) == ResolveBatch(tb, {t})
  {
    assert drain.order[..|drain.order|] == drain.order;
    assert DrainKeptAt(stored, drain, t);
    var read := drain.seen[t];
    TornReadMatches(read.ledger, drain.overlays, read.corrections, t);
    WholeDetermines(read.ledger, tb, t);
  }

  // ---------- with nothing committed in between ----------

  /** The batch after the first `done` transactions, and then the rest. */
  lemma BatchThenRest(resolve: Resolver, rows: StoredRows, order: seq<TransactionId>, done: nat)
    requires done < |order|
    ensures var batch := BatchAt(order, done);
      && 0 < |batch| && done + |batch| <= |order|
      && var step := RecomputeBatch(resolve, rows, Claimed(batch));
        Recompute(resolve, rows, order[done..])
          == if step.None? then None else Recompute(resolve, step.value, order[done + |batch|..])
  {
    var batch := BatchAt(order, done);
    assert order[done..][|batch|..] == order[done + |batch|..];
  }

  /** A batch that reads everything at one state is a batch of that state's pipeline. */
  lemma WholeBatch(drain: Drain, tb: Tables)
    requires drain.Draining? && drain.done < |drain.order| && Committed(tb) && drain.overlays == tb
    ensures var batch := BatchAt(drain.order, drain.done);
      var step := RecomputeBatch(Projection.Pipeline(tb), drain.rows, Claimed(batch));
      BatchWritten(drain.(ledger := Some(tb)), tb) == if step.None? then Idle
        else Draining(drain.order, tb, drain.done + |batch|, None, step.value,
                      WithReads(drain.seen, batch, Read(tb, tb)))
  {
  }
}
