/**
 * Recomputing stored rows in batches, for any resolution that is coherent: local to a transaction, with ids
 * that are distinct and owned by one transaction each (accounting/repositories/projection.py).
 */
module Recomputing {
  import opened Frame
  import opened Resolution
  import ResolvedIds

  const RECOMPUTE_BATCH_TRANSACTIONS: nat := 5000

  /** The projection table, keyed by resolved posting id. */
  type StoredRows = map<PostingId, DisplayRow>

  /** What a batch of transactions resolves to. */
  type Resolver = set<TransactionId> -> seq<DisplayRow>

  function Purge(stored: StoredRows, ts: set<TransactionId>): StoredRows {
    map id | id in stored && stored[id].row.transaction !in ts :: stored[id]
  }

  /** Insert rows one by one; a key already there is a primary-key violation. */
  function InsertAll(stored: StoredRows, rows: seq<DisplayRow>): Option<StoredRows>
    decreases |rows|
  {
    if rows == [] then Some(stored)
    else if rows[0].row.posting in stored then None
    else InsertAll(stored[rows[0].row.posting := rows[0]], rows[1..])
  }

  function Claimed(ts: seq<TransactionId>): set<TransactionId> {
    set t | t in ts
  }

  /** Replace one batch's rows: delete by transaction, then insert a fresh resolution. */
  function RecomputeBatch(resolve: Resolver, stored: StoredRows, batch: set<TransactionId>): Option<StoredRows> {
    InsertAll(Purge(stored, batch), resolve(batch))
  }

  function BatchLength(claimed: seq<TransactionId>): nat {
    if |claimed| < RECOMPUTE_BATCH_TRANSACTIONS then |claimed| else RECOMPUTE_BATCH_TRANSACTIONS
  }

  /** Every claimed transaction, a batch at a time; `None` if some insert is refused. */
  function Recompute(resolve: Resolver, stored: StoredRows, claimed: seq<TransactionId>): Option<StoredRows>
    decreases |claimed|
  {
    if claimed == [] then Some(stored)
    else
      var n := BatchLength(claimed);
      var step := RecomputeBatch(resolve, stored, Claimed(claimed[..n]));
      if step.None? then None else Recompute(resolve, step.value, claimed[n..])
  }

  /** The batch loop itself. */
  method RecomputeInBatches(resolve: Resolver, stored: StoredRows, claimed: seq<TransactionId>)
    returns (out: Option<StoredRows>)
    ensures out == Recompute(resolve, stored, claimed)
  {
    var rows, start := stored, 0;
    while start < |claimed|
      invariant 0 <= start <= |claimed|
      invariant Recompute(resolve, rows, claimed[start..]) == Recompute(resolve, stored, claimed)
    {
      var rest := claimed[start..];
      var n := BatchLength(rest);
      assert rest[n..] == claimed[start + n..];
      var step := RecomputeBatch(resolve, rows, Claimed(rest[..n]));
      if step.None? {
        return None;
      }
      rows, start := step.value, start + n;
    }
    out := Some(rows);
  }

  // ---------- what a resolution must offer ----------

  /** A batch's rows are the rows of its transactions resolved alone, each row its own transaction's. */
  ghost predicate Local(resolve: Resolver) {
    forall ts, d: DisplayRow :: d in resolve(ts) <==> InBatch(resolve, ts, d)
  }

  ghost predicate InBatch(resolve: Resolver, ts: set<TransactionId>, d: DisplayRow) {
    d.row.transaction in ts && d in resolve({d.row.transaction})
  }

  ghost predicate DistinctRows(resolve: Resolver) {
    forall ts :: ResolvedIds.DistinctDisplayIds(resolve(ts))
  }

  /** One posting id never resolves under two transactions. */
  ghost predicate Owned(resolve: Resolver) {
    forall t, u, d: DisplayRow, e: DisplayRow ::
      d in resolve({t}) && e in resolve({u}) && d.row.posting == e.row.posting ==> t == u
  }

  ghost predicate Coherent(resolve: Resolver) {
    Local(resolve) && DistinctRows(resolve) && Owned(resolve)
  }

  lemma LocalAt(resolve: Resolver, ts: set<TransactionId>, d: DisplayRow)
    requires Local(resolve)
    ensures d in resolve(ts) <==> InBatch(resolve, ts, d)
  {
  }

  lemma AloneIsOwn(resolve: Resolver, t: TransactionId, d: DisplayRow)
    requires Local(resolve) && d in resolve({t})
    ensures d.row.transaction == t
  {
    LocalAt(resolve, {t}, d);
  }

  // ---------- what it means to be fresh ----------

  ghost predicate Keyed(stored: StoredRows) {
    forall id :: id in stored ==> stored[id].row.posting == id
  }

  ghost predicate Holds(stored: StoredRows, d: DisplayRow) {
    d.row.posting in stored && stored[d.row.posting] == d
  }

  /** The stored rows of a transaction are exactly a fresh resolution of it. */
  ghost predicate FreshFor(rows: seq<DisplayRow>, stored: StoredRows, t: TransactionId) {
    && (forall d :: d in rows ==> Holds(stored, d))
    && (forall id :: id in stored && stored[id].row.transaction == t ==> stored[id] in rows)
  }

  ghost predicate SameRowsFor(x: StoredRows, y: StoredRows, t: TransactionId) {
    && (forall id :: id in x && x[id].row.transaction == t ==> id in y && y[id] == x[id])
    && (forall id :: id in y && y[id].row.transaction == t ==> id in x && x[id] == y[id])
  }

  lemma StaysFresh(resolve: Resolver, x: StoredRows, y: StoredRows, t: TransactionId)
    requires Local(resolve) && FreshFor(resolve({t}), x, t) && SameRowsFor(x, y, t)
    ensures FreshFor(resolve({t}), y, t)
  {
    forall d | d in resolve({t}) ensures Holds(y, d) {
      AloneIsOwn(resolve, t, d);
      assert Holds(x, d);
    }
  }

  // ---------- one batch ----------

  lemma {:induction false} InsertAllSpec(stored: StoredRows, rows: seq<DisplayRow>)
    requires ResolvedIds.DistinctDisplayIds(rows)
    ensures InsertAll(stored, rows).None? <==> exists d :: d in rows && d.row.posting in stored
    ensures InsertAll(stored, rows).Some? ==>
      var out := InsertAll(stored, rows).value;
      && (forall d :: d in rows ==> Holds(out, d))
      && (forall id :: id in stored ==> id in out && out[id] == stored[id])
      && (forall id :: id in out && id !in stored ==> out[id] in rows && out[id].row.posting == id)
    decreases |rows|
  {
    if rows != [] {
      var first := rows[0];
      assert first in rows;
      assert rows == [first] + rows[1..];
      if first.row.posting !in stored {
        var next := stored[first.row.posting := first];
        InsertAllSpec(next, rows[1..]);
        forall d | d in rows[1..] ensures d.row.posting in next <==> d.row.posting in stored {
          var j :| 0 <= j < |rows[1..]| && rows[1..][j] == d;
          assert rows[j + 1] == d;
        }
      }
    }
  }

  lemma BatchRefused(resolve: Resolver, stored: StoredRows, batch: set<TransactionId>)
    requires DistinctRows(resolve)
    ensures RecomputeBatch(resolve, stored, batch).None?
      <==> exists d :: d in resolve(batch) && d.row.posting in stored && stored[d.row.posting].row.transaction !in batch
  {
    InsertAllSpec(Purge(stored, batch), resolve(batch));
  }

  lemma BatchFreshens(resolve: Resolver, stored: StoredRows, batch: set<TransactionId>, t: TransactionId)
    requires Local(resolve) && DistinctRows(resolve)
    requires Keyed(stored) && RecomputeBatch(resolve, stored, batch).Some? && t in batch
    ensures FreshFor(resolve({t}), RecomputeBatch(resolve, stored, batch).value, t)
  {
    var out := RecomputeBatch(resolve, stored, batch).value;
    InsertAllSpec(Purge(stored, batch), resolve(batch));
    forall d | d in resolve({t}) ensures Holds(out, d) {
      AloneIsOwn(resolve, t, d);
      LocalAt(resolve, batch, d);
    }
    forall id | id in out && out[id].row.transaction == t ensures out[id] in resolve({t}) {
      assert id !in Purge(stored, batch);
      LocalAt(resolve, batch, out[id]);
    }
  }

  lemma BatchLeavesAlone(resolve: Resolver, stored: StoredRows, batch: set<TransactionId>, t: TransactionId)
    requires Local(resolve) && DistinctRows(resolve)
    requires Keyed(stored) && RecomputeBatch(resolve, stored, batch).Some? && t !in batch
    ensures SameRowsFor(stored, RecomputeBatch(resolve, stored, batch).value, t)
  {
    var out := RecomputeBatch(resolve, stored, batch).value;
    var kept := Purge(stored, batch);
    InsertAllSpec(kept, resolve(batch));
    forall id | id in stored && stored[id].row.transaction == t ensures id in out && out[id] == stored[id] {
      assert id in kept;
    }
    forall id | id in out && out[id].row.transaction == t ensures id in stored && stored[id] == out[id] {
      LocalAt(resolve, batch, out[id]);
    }
  }

  lemma BatchKeyed(resolve: Resolver, stored: StoredRows, batch: set<TransactionId>)
    requires DistinctRows(resolve) && Keyed(stored) && RecomputeBatch(resolve, stored, batch).Some?
    ensures Keyed(RecomputeBatch(resolve, stored, batch).value)
  {
    InsertAllSpec(Purge(stored, batch), resolve(batch));
  }

  // ---------- the whole drain ----------

  lemma ClaimedSplit(claimed: seq<TransactionId>, n: nat, t: TransactionId)
    requires n <= |claimed|
    ensures t in claimed <==> t in Claimed(claimed[..n]) || t in claimed[n..]
  {
    assert claimed == claimed[..n] + claimed[n..];
  }

  /** Whatever was claimed comes out fresh, and nothing else moves. */
  lemma {:induction false} RecomputeFreshens(resolve: Resolver, stored: StoredRows, claimed: seq<TransactionId>,
                                             t: TransactionId)
    requires Local(resolve) && DistinctRows(resolve) && Keyed(stored) && Recompute(resolve, stored, claimed).Some?
    ensures var out := Recompute(resolve, stored, claimed).value;
      && Keyed(out)
      && (t in claimed ==> FreshFor(resolve({t}), out, t))
      && (t !in claimed ==> SameRowsFor(stored, out, t))
    decreases |claimed|
  {
    if claimed != [] {
      var n := BatchLength(claimed);
      var batch, rest := Claimed(claimed[..n]), claimed[n..];
      ClaimedSplit(claimed, n, t);
      var next := RecomputeBatch(resolve, stored, batch).value;
      BatchKeyed(resolve, stored, batch);
      RecomputeFreshens(resolve, next, rest, t);
      if t !in rest {
        if t in batch {
          BatchFreshens(resolve, stored, batch, t);
          StaysFresh(resolve, next, Recompute(resolve, next, rest).value, t);
        } else {
          BatchLeavesAlone(resolve, stored, batch, t);
        }
      }
    }
  }

  ghost predicate Distinct(ts: seq<TransactionId>) {
    forall i, j :: 0 <= i < j < |ts| ==> ts[i] != ts[j]
  }

  /** Some row `t` resolves to now is still stored, under the same posting id, for `u`. */
  ghost predicate Collides(resolve: Resolver, stored: StoredRows, t: TransactionId, u: TransactionId) {
    exists d :: d in resolve({t}) && d.row.posting in stored && stored[d.row.posting].row.transaction == u
  }

  ghost predicate EarlierBatch(i: nat, j: nat) {
    i / RECOMPUTE_BATCH_TRANSACTIONS < j / RECOMPUTE_BATCH_TRANSACTIONS
  }

  /** A posting id that moved between two claimed transactions whose batches are drained in that order. */
  ghost predicate CrossBatchMove(resolve: Resolver, stored: StoredRows, claimed: seq<TransactionId>) {
    exists i: nat, j: nat :: MoveAt(resolve, stored, claimed, i, j)
  }

  ghost predicate FirstBatchMove(resolve: Resolver, stored: StoredRows, claimed: seq<TransactionId>) {
    exists i, j :: 0 <= i < BatchLength(claimed) <= j < |claimed| && Collides(resolve, stored, claimed[i], claimed[j])
  }

  ghost predicate RestFresh(resolve: Resolver, stored: StoredRows, claimed: seq<TransactionId>) {
    forall t :: t !in claimed ==> FreshFor(resolve({t}), stored, t)
  }

  /** An unclaimed transaction's stored row is a fresh one, so its id is nobody else's. */
  lemma UnclaimedOwnsItsIds(resolve: Resolver, stored: StoredRows, claimed: seq<TransactionId>, d: DisplayRow)
    requires Owned(resolve) && Keyed(stored) && RestFresh(resolve, stored, claimed)
    requires d in resolve({d.row.transaction}) && d.row.posting in stored
    ensures stored[d.row.posting].row.transaction in claimed
      || stored[d.row.posting].row.transaction == d.row.transaction
  {
    var u := stored[d.row.posting].row.transaction;
    if u !in claimed {
      assert FreshFor(resolve({u}), stored, u);
      assert stored[d.row.posting] in resolve({u});
    }
  }

  lemma RefusalIsMove(resolve: Resolver, stored: StoredRows, claimed: seq<TransactionId>, d: DisplayRow)
    requires Coherent(resolve) && Keyed(stored) && RestFresh(resolve, stored, claimed)
    requires d in resolve(Claimed(claimed[..BatchLength(claimed)])) && d.row.posting in stored
    requires stored[d.row.posting].row.transaction !in Claimed(claimed[..BatchLength(claimed)])
    ensures FirstBatchMove(resolve, stored, claimed)
  {
    var n := BatchLength(claimed);
    var u := stored[d.row.posting].row.transaction;
    LocalAt(resolve, Claimed(claimed[..n]), d);
    UnclaimedOwnsItsIds(resolve, stored, claimed, d);
    var i :| 0 <= i < n && claimed[..n][i] == d.row.transaction;
    ClaimedSplit(claimed, n, u);
    var k :| 0 <= k < |claimed[n..]| && claimed[n..][k] == u;
    assert claimed[n + k] == u && claimed[i] == d.row.transaction;
    assert Collides(resolve, stored, claimed[i], claimed[n + k]);
  }

  lemma CollisionIsRefused(resolve: Resolver, stored: StoredRows, batch: set<TransactionId>, t: TransactionId,
                           u: TransactionId)
    requires Coherent(resolve) && t in batch && u !in batch && Collides(resolve, stored, t, u)
    ensures RecomputeBatch(resolve, stored, batch).None?
  {
    var d :| d in resolve({t}) && d.row.posting in stored && stored[d.row.posting].row.transaction == u;
    AloneIsOwn(resolve, t, d);
    LocalAt(resolve, batch, d);
    BatchRefused(resolve, stored, batch);
  }

  lemma MoveIsRefused(resolve: Resolver, stored: StoredRows, claimed: seq<TransactionId>)
    requires Coherent(resolve) && Distinct(claimed) && FirstBatchMove(resolve, stored, claimed)
    ensures RecomputeBatch(resolve, stored, Claimed(claimed[..BatchLength(claimed)])).None?
  {
    var n := BatchLength(claimed);
    var i, j :| 0 <= i < n <= j < |claimed| && Collides(resolve, stored, claimed[i], claimed[j]);
    assert claimed[..n][i] in claimed[..n];
    NotInFirstBatch(claimed, n, j);
    CollisionIsRefused(resolve, stored, Claimed(claimed[..n]), claimed[i], claimed[j]);
  }

  lemma FirstBatchRefused(resolve: Resolver, stored: StoredRows, claimed: seq<TransactionId>)
    requires Coherent(resolve) && Keyed(stored) && Distinct(claimed) && RestFresh(resolve, stored, claimed)
    ensures RecomputeBatch(resolve, stored, Claimed(claimed[..BatchLength(claimed)])).None?
      <==> FirstBatchMove(resolve, stored, claimed)
  {
    var batch := Claimed(claimed[..BatchLength(claimed)]);
    if RecomputeBatch(resolve, stored, batch).None? {
      BatchRefused(resolve, stored, batch);
      var d :| d in resolve(batch) && d.row.posting in stored && stored[d.row.posting].row.transaction !in batch;
      RefusalIsMove(resolve, stored, claimed, d);
    }
    if FirstBatchMove(resolve, stored, claimed) {
      MoveIsRefused(resolve, stored, claimed);
    }
  }

  lemma CollidesCarries(resolve: Resolver, x: StoredRows, y: StoredRows, t: TransactionId, u: TransactionId)
    requires SameRowsFor(x, y, u)
    ensures Collides(resolve, x, t, u) <==> Collides(resolve, y, t, u)
  {
    if Collides(resolve, x, t, u) {
      var d :| d in resolve({t}) && d.row.posting in x && x[d.row.posting].row.transaction == u;
      assert d.row.posting in y;
    }
    if Collides(resolve, y, t, u) {
      var d :| d in resolve({t}) && d.row.posting in y && y[d.row.posting].row.transaction == u;
      assert d.row.posting in x;
    }
  }

  lemma BatchIndexShift(i: nat, j: nat)
    ensures EarlierBatch(i + RECOMPUTE_BATCH_TRANSACTIONS, j + RECOMPUTE_BATCH_TRANSACTIONS) <==> EarlierBatch(i, j)
    ensures i < RECOMPUTE_BATCH_TRANSACTIONS <= j ==> EarlierBatch(i, j)
    ensures EarlierBatch(i, j) ==> j >= RECOMPUTE_BATCH_TRANSACTIONS
  {
  }

  ghost predicate MoveAt(resolve: Resolver, stored: StoredRows, claimed: seq<TransactionId>, i: nat, j: nat) {
    i < j < |claimed| && EarlierBatch(i, j) && Collides(resolve, stored, claimed[i], claimed[j])
  }

  lemma NotInFirstBatch(claimed: seq<TransactionId>, n: nat, j: nat)
    requires Distinct(claimed) && n <= j < |claimed|
    ensures claimed[j] !in Claimed(claimed[..n])
  {
    forall i | 0 <= i < n ensures claimed[..n][i] != claimed[j] {
    }
  }

  lemma MoveShifts(resolve: Resolver, stored: StoredRows, next: StoredRows, claimed: seq<TransactionId>, i: nat, j: nat)
    requires Distinct(claimed) && |claimed| >= RECOMPUTE_BATCH_TRANSACTIONS
    requires forall t :: t !in Claimed(claimed[..RECOMPUTE_BATCH_TRANSACTIONS]) ==> SameRowsFor(stored, next, t)
    requires j + RECOMPUTE_BATCH_TRANSACTIONS < |claimed|
    ensures MoveAt(resolve, next, claimed[RECOMPUTE_BATCH_TRANSACTIONS..], i, j)
      <==> MoveAt(resolve, stored, claimed, i + RECOMPUTE_BATCH_TRANSACTIONS, j + RECOMPUTE_BATCH_TRANSACTIONS)
  {
    var n := RECOMPUTE_BATCH_TRANSACTIONS;
    BatchIndexShift(i, j);
    if i < j {
      NotInFirstBatch(claimed, n, j + n);
      CollidesCarries(resolve, stored, next, claimed[i + n], claimed[j + n]);
    }
  }

  /** With no move out of the first batch, the moves left are the moves among the remaining batches. */
  lemma MovesCarry(resolve: Resolver, stored: StoredRows, next: StoredRows, claimed: seq<TransactionId>)
    requires Distinct(claimed) && |claimed| >= RECOMPUTE_BATCH_TRANSACTIONS
    requires forall t :: t !in Claimed(claimed[..RECOMPUTE_BATCH_TRANSACTIONS]) ==> SameRowsFor(stored, next, t)
    requires !FirstBatchMove(resolve, stored, claimed)
    ensures CrossBatchMove(resolve, stored, claimed)
      <==> CrossBatchMove(resolve, next, claimed[RECOMPUTE_BATCH_TRANSACTIONS..])
  {
    var n := RECOMPUTE_BATCH_TRANSACTIONS;
    var rest := claimed[n..];
    if CrossBatchMove(resolve, stored, claimed) {
      var i: nat, j: nat :| MoveAt(resolve, stored, claimed, i, j);
      BatchIndexShift(i, j);
      assert n <= i;
      MoveShifts(resolve, stored, next, claimed, i - n, j - n);
    }
    if CrossBatchMove(resolve, next, rest) {
      var i: nat, j: nat :| MoveAt(resolve, next, rest, i, j);
      MoveShifts(resolve, stored, next, claimed, i, j);
    }
  }

  lemma NextBatchFresh(resolve: Resolver, stored: StoredRows, claimed: seq<TransactionId>)
    requires Local(resolve) && DistinctRows(resolve) && Keyed(stored) && RestFresh(resolve, stored, claimed)
    requires RecomputeBatch(resolve, stored, Claimed(claimed[..BatchLength(claimed)])).Some?
    ensures var n := BatchLength(claimed);
      RestFresh(resolve, RecomputeBatch(resolve, stored, Claimed(claimed[..n])).value, claimed[n..])
  {
    var n := BatchLength(claimed);
    var batch := Claimed(claimed[..n]);
    var next := RecomputeBatch(resolve, stored, batch).value;
    forall t | t !in claimed[n..] ensures FreshFor(resolve({t}), next, t) {
      ClaimedSplit(claimed, n, t);
      if t in batch {
        BatchFreshens(resolve, stored, batch, t);
      } else {
        BatchLeavesAlone(resolve, stored, batch, t);
        StaysFresh(resolve, stored, next, t);
      }
    }
  }

  /** Exactly when a drain is refused: an id moved to a transaction drained in an earlier batch than its old owner. */
  lemma {:induction false} RecomputeRefused(resolve: Resolver, stored: StoredRows, claimed: seq<TransactionId>)
    requires Coherent(resolve) && Keyed(stored) && Distinct(claimed) && RestFresh(resolve, stored, claimed)
    ensures Recompute(resolve, stored, claimed).None? <==> CrossBatchMove(resolve, stored, claimed)
    decreases |claimed|
  {
    if claimed != [] {
      var n := BatchLength(claimed);
      var batch, rest := Claimed(claimed[..n]), claimed[n..];
      FirstBatchRefused(resolve, stored, claimed);
      var step := RecomputeBatch(resolve, stored, batch);
      if step.None? {
        var i, j :| 0 <= i < n <= j < |claimed| && Collides(resolve, stored, claimed[i], claimed[j]);
        BatchIndexShift(i, j);
        assert MoveAt(resolve, stored, claimed, i, j);
      } else {
        BatchKeyed(resolve, stored, batch);
        NextBatchFresh(resolve, stored, claimed);
        RecomputeRefused(resolve, step.value, rest);
        if n == RECOMPUTE_BATCH_TRANSACTIONS {
          forall t | t !in batch ensures SameRowsFor(stored, step.value, t) {
            BatchLeavesAlone(resolve, stored, batch, t);
          }
          MovesCarry(resolve, stored, step.value, claimed);
        } else {
          OneBatchNeverMoves(resolve, stored, claimed);
        }
      }
    }
  }

  lemma OneBatchNeverMoves(resolve: Resolver, stored: StoredRows, claimed: seq<TransactionId>)
    requires |claimed| <= RECOMPUTE_BATCH_TRANSACTIONS
    ensures !CrossBatchMove(resolve, stored, claimed)
  {
    forall i: nat, j: nat ensures !MoveAt(resolve, stored, claimed, i, j) {
      BatchIndexShift(i, j);
    }
  }
}
