/**
 * The cached pipeline: what a recompute of it makes of the stored rows, and what one unit of work leaves as it was
 * (accounting/repositories/projection.py, accounting/db/projection.py).
 */
module Projection {
  import opened Frame
  import opened Categorization
  import opened Linking
  import Agreement
  import opened Resolution
  import opened Tables
  import opened Footprint
  import Locality
  import opened Recomputing
  import Slices
  import ResolvedIds

  // ---------- the pipeline as a resolution ----------

  /** The pipeline over one state of the tables. */
  function Pipeline(tb: Tables): Resolver
    requires Committed(tb)
  {
    (ts: set<TransactionId>) => ResolveBatch(tb, ts)
  }

  lemma {:induction false} RestrictDisplayMembers(rows: seq<DisplayRow>, keep: set<TransactionId>, d: DisplayRow)
    ensures d in Locality.RestrictDisplay(rows, keep) <==> d in rows && d.row.transaction in keep
  {
    if rows != [] {
      RestrictDisplayMembers(rows[1..], keep, d);
      assert rows == [rows[0]] + rows[1..];
    }
  }

  lemma PipelineAt(tb: Tables, ts: set<TransactionId>, d: DisplayRow)
    requires Committed(tb)
    ensures d in ResolveBatch(tb, ts) <==> d.row.transaction in ts && d in ResolveBatch(tb, {d.row.transaction})
  {
    var t := d.row.transaction;
    if t in ts {
      Slices.BatchIsLocal(tb, ts, t);
      RestrictDisplayMembers(ResolveBatch(tb, ts), {t}, d);
    } else if d in ResolveBatch(tb, ts) {
      ResolvedIds.BatchOwners(tb, ts, d);
    }
  }

  lemma PipelineOwned(tb: Tables, t: TransactionId, u: TransactionId, d: DisplayRow, e: DisplayRow)
    requires Committed(tb) && d in ResolveBatch(tb, {t}) && e in ResolveBatch(tb, {u}) && d.row.posting == e.row.posting
    ensures t == u
  {
    ResolvedIds.BatchOwners(tb, {t}, d);
    ResolvedIds.BatchOwners(tb, {u}, e);
  }

  lemma PipelineLocal(tb: Tables)
    requires Committed(tb)
    ensures Local(Pipeline(tb))
  {
    var resolve := Pipeline(tb);
    forall ts, d: DisplayRow ensures d in resolve(ts) <==> InBatch(resolve, ts, d) {
      PipelineAt(tb, ts, d);
    }
  }

  lemma PipelineDistinct(tb: Tables)
    requires Committed(tb)
    ensures DistinctRows(Pipeline(tb))
  {
    forall ts ensures ResolvedIds.DistinctDisplayIds(Pipeline(tb)(ts)) {
      ResolvedIds.BatchIds(tb, ts);
    }
  }

  lemma PipelineOwnsIds(tb: Tables)
    requires Committed(tb)
    ensures Owned(Pipeline(tb))
  {
    forall t, u, d: DisplayRow, e: DisplayRow
      | d in Pipeline(tb)({t}) && e in Pipeline(tb)({u}) && d.row.posting == e.row.posting
      ensures t == u
    {
      PipelineOwned(tb, t, u, d, e);
    }
  }

  /** The pipeline is local, never repeats an id, and never resolves one posting under two transactions. */
  lemma PipelineIsCoherent(tb: Tables)
    requires Committed(tb)
    ensures Coherent(Pipeline(tb))
  {
    PipelineLocal(tb);
    PipelineDistinct(tb);
    PipelineOwnsIds(tb);
  }

  ghost predicate Fresh(tb: Tables, stored: StoredRows, t: TransactionId)
    requires Committed(tb)
  {
    FreshFor(ResolveBatch(tb, {t}), stored, t)
  }

  // ---------- one unit of work ----------

  /** One transaction's slice, as a view of the tables. */
  function SliceOf(t: TransactionId): Tables -> Inputs {
    (tb: Tables) => InputsOf(tb, t)
  }

  /** The engine's foreign-key check, as a value. */
  ghost function KeysHold(): Tables -> bool {
    (tb: Tables) => ForeignKeys(tb)
  }

  /** What one statement's triggers insert into the queue. */
  function Triggers(): (Tables, Tables) -> set<TransactionId> {
    (a: Tables, b: Tables) => Enqueued(a, b)
  }

  /** Everything inserted along a path of states, one step after another. */
  function Along<T>(step: (T, T) -> set<TransactionId>, start: T, path: seq<T>): set<TransactionId>
    decreases |path|
  {
    if path == [] then {} else step(start, path[0]) + Along(step, path[0], path[1..])
  }

  function Previous<T>(start: T, path: seq<T>, i: nat): T
    requires i < |path|
  {
    if i == 0 then start else path[i - 1]
  }

  /** Every marker a unit of work's statements enqueue, one statement after another. */
  function EnqueuedBy(tb: Tables, statements: seq<Tables>): set<TransactionId> {
    Along(Triggers(), tb, statements)
  }

  /** A link that survives a unit of work still pairs the same two transactions. */
  ghost predicate PairsKept(a: Tables, b: Tables) {
    forall l :: l in a.links && l in b.links ==> MembersOf(a, l) == MembersOf(b, l)
  }

  /** Foreign keys hold after every statement, the application's own invariants by the commit. */
  ghost predicate LegalWrite(tb: Tables, statements: seq<Tables>) {
    && statements != []
    && (forall i :: 0 <= i < |statements| ==> KeysHold()(statements[i]))
    && Committed(statements[|statements| - 1])
    && PairsKept(tb, statements[|statements| - 1])
  }

  ghost predicate Enumerates(order: seq<TransactionId>, ts: set<TransactionId>) {
    Distinct(order) && Claimed(order) == ts
  }

  lemma {:induction false} AlongContains<T>(step: (T, T) -> set<TransactionId>, start: T, path: seq<T>, i: nat,
                                            t: TransactionId)
    requires i < |path| && t in step(Previous(start, path, i), path[i])
    ensures t in Along(step, start, path)
    decreases i
  {
    if i > 0 {
      assert path[1..][i - 1] == path[i];
      assert Previous(path[0], path[1..], i - 1) == Previous(start, path, i);
      AlongContains(step, path[0], path[1..], i - 1, t);
    }
  }

  /** A view no silent step changes is the same at both ends of a path that is silent about `t`. */
  lemma {:induction false} SameAlong<T, V>(step: (T, T) -> set<TransactionId>, view: T -> V, start: T, path: seq<T>,
                                           i: nat, t: TransactionId)
    requires i < |path| && t !in Along(step, start, path)
    requires forall k :: 0 <= k < |path| ==>
      t in step(Previous(start, path, k), path[k]) || view(Previous(start, path, k)) == view(path[k])
    ensures view(start) == view(path[i])
    decreases i
  {
    if t in step(Previous(start, path, i), path[i]) {
      AlongContains(step, start, path, i, t);
    } else {
      assert view(Previous(start, path, i)) == view(path[i]);
      if i > 0 {
        SameAlong(step, view, start, path, i - 1, t);
      }
    }
  }

  lemma SilentStatement(a: Tables, b: Tables, t: TransactionId)
    requires KeysHold()(a) && KeysHold()(b) && t !in Triggers()(a, b)
    ensures InputsOf(a, t) == InputsOf(b, t)
  {
    StatementFootprint(a, b, t);
  }

  lemma SilentAt(tb: Tables, statements: seq<Tables>, k: nat, t: TransactionId)
    requires KeysHold()(tb) && forall i :: 0 <= i < |statements| ==> KeysHold()(statements[i])
    requires k < |statements| && t !in Triggers()(Previous(tb, statements, k), statements[k])
    ensures SliceOf(t)(Previous(tb, statements, k)) == SliceOf(t)(statements[k])
  {
    SilentStatement(Previous(tb, statements, k), statements[k], t);
  }

  lemma WriteFootprint(tb: Tables, statements: seq<Tables>, t: TransactionId)
    requires KeysHold()(tb) && forall k :: 0 <= k < |statements| ==> KeysHold()(statements[k])
    requires statements != [] && t !in EnqueuedBy(tb, statements)
    ensures SliceOf(t)(tb) == SliceOf(t)(statements[|statements| - 1])
  {
    var view := SliceOf(t);
    var triggers := Triggers();
    forall k | 0 <= k < |statements| && t !in triggers(Previous(tb, statements, k), statements[k])
      ensures view(Previous(tb, statements, k)) == view(statements[k])
    {
      SilentAt(tb, statements, k, t);
    }
    SameAlong(triggers, view, tb, statements, |statements| - 1, t);
  }

  lemma PartnersKept(a: Tables, b: Tables, t: TransactionId)
    requires Committed(a) && Committed(b) && PairsKept(a, b) && InputsOf(a, t) == InputsOf(b, t)
    ensures Slices.SamePartners(a, b, t)
  {
    forall l | l in LinksOf(a, t) ensures MembersOf(a, l) == MembersOf(b, l) {
      assert (l, t).1 in a.transactions;
      assert l in LinksOf(b, t);
    }
  }

  /** Footprint soundness of a whole unit of work: what it does not enqueue resolves as before. */
  lemma UnenqueuedResolvesAsBefore(tb: Tables, statements: seq<Tables>, t: TransactionId)
    requires Committed(tb) && LegalWrite(tb, statements) && t !in EnqueuedBy(tb, statements)
    ensures ResolveBatch(tb, {t}) == ResolveBatch(statements[|statements| - 1], {t})
  {
    var last := statements[|statements| - 1];
    WriteFootprint(tb, statements, t);
    assert InputsOf(tb, t) == InputsOf(last, t);
    PartnersKept(tb, last, t);
    Slices.SliceDetermines(tb, last, t);
  }

  lemma RowsCarryTheirLink(tb: Tables, t: TransactionId, d: DisplayRow)
    requires Committed(tb) && d in ResolveBatch(tb, {t})
    ensures d.row.link == LinkFor(LoadLinks(tb), t)
  {
    var raw, c, o := LoadLedger(tb, {t}), LoadContext(tb), LoadOverrides(tb, PostingKeys(tb, {t}));
    Agreement.ResolveUnfolds(raw, c, o);
    var r0 := ApplyCategoryRedirects(raw, c.redirects);
    var r1 := ApplyRules(r0, c.rules, c.accounts);
    var r4 := MergeRows(OverrideRows(SplitRows(r1, c.splits), o), c.merges);
    LinkingOnlyMarks(r4, c.links);
    var resolved := Resolve(raw, c, o);
    ResolvedIds.DisplayAllRows(resolved, resolved, raw, c, o);
    ResolvedIds.BatchOwners(tb, {t}, d);
  }

  lemma LinkNamesThePair(tb: Tables, t: TransactionId, l: string)
    requires Committed(tb) && l in LinksOf(tb, t)
    ensures LinkFor(LoadLinks(tb), t).Some?
    ensures MembersOf(tb, l) == {t, LinkFor(LoadLinks(tb), t).value.partner}
  {
    Slices.LinkLoaded(tb, t);
    InSecondsAt(tb.linkMembers, l, t);
    assert IsPair(MembersOf(tb, l));
  }

  /** Rows resolved alike carry the same link. */
  lemma SameRowsSameLink(a: Tables, b: Tables, t: TransactionId)
    requires Committed(a) && Committed(b) && ResolveBatch(a, {t}) == ResolveBatch(b, {t}) && ResolveBatch(a, {t}) != []
    ensures LinkFor(LoadLinks(a), t) == LinkFor(LoadLinks(b), t)
  {
    var d := ResolveBatch(a, {t})[0];
    RowsCarryTheirLink(a, t, d);
    RowsCarryTheirLink(b, t, d);
  }

  /**
   * The exact limit of the footprint: a transaction that is not enqueued goes stale just when some link it is
   * still in was handed another partner, since only the member named in a changed row is enqueued.
   */
  lemma StaleOnlyByMovedPartner(a: Tables, b: Tables, t: TransactionId)
    requires KeysHold()(a) && KeysHold()(b) && Committed(a) && Committed(b) && t !in Triggers()(a, b)
    ensures ResolveBatch(a, {t}) == ResolveBatch(b, {t})
      <==> Slices.SamePartners(a, b, t) || (ResolveBatch(a, {t}) == [] && ResolveBatch(b, {t}) == [])
  {
    SilentStatement(a, b, t);
    SliceLimit(a, b, t);
  }

  lemma SliceLimit(a: Tables, b: Tables, t: TransactionId)
    requires Committed(a) && Committed(b) && InputsOf(a, t) == InputsOf(b, t)
    ensures ResolveBatch(a, {t}) == ResolveBatch(b, {t})
      <==> Slices.SamePartners(a, b, t) || (ResolveBatch(a, {t}) == [] && ResolveBatch(b, {t}) == [])
  {
    if Slices.SamePartners(a, b, t) {
      Slices.SliceDetermines(a, b, t);
    } else if ResolveBatch(a, {t}) == ResolveBatch(b, {t}) && ResolveBatch(a, {t}) != [] {
      SameRowsSameLink(a, b, t);
      SameLinkSamePartners(a, b, t);
    }
  }

  lemma SameLinkSamePartners(a: Tables, b: Tables, t: TransactionId)
    requires Committed(a) && Committed(b) && InputsOf(a, t) == InputsOf(b, t)
    requires LinkFor(LoadLinks(a), t) == LinkFor(LoadLinks(b), t)
    ensures Slices.SamePartners(a, b, t)
  {
    forall l | l in LinksOf(a, t) ensures MembersOf(a, l) == MembersOf(b, l) {
      assert (l, t).1 in a.transactions;
      assert l in LinksOf(b, t);
      LinkNamesThePair(a, t, l);
      LinkNamesThePair(b, t, l);
    }
  }

  lemma AbsentIsFresh(tb: Tables, t: TransactionId)
    requires Committed(tb) && t !in tb.transactions
    ensures Fresh(tb, map[], t)
  {
    Slices.AbsentResolvesToNothing(tb, t);
  }

  /** Rows that were fresh before a recompute of others are fresh after it. */
  lemma RecomputedIsFresh(tb: Tables, stored: StoredRows, claimed: seq<TransactionId>, t: TransactionId)
    requires Committed(tb) && Keyed(stored) && Recompute(Pipeline(tb), stored, claimed).Some?
    requires t !in claimed ==> Fresh(tb, stored, t)
    ensures var out := Recompute(Pipeline(tb), stored, claimed).value; Keyed(out) && Fresh(tb, out, t)
  {
    PipelineIsCoherent(tb);
    RecomputeFreshens(Pipeline(tb), stored, claimed, t);
    if t !in claimed {
      StaysFresh(Pipeline(tb), stored, Recompute(Pipeline(tb), stored, claimed).value, t);
    }
  }

  lemma RebuildRefusesNothing(tb: Tables, order: seq<TransactionId>)
    requires Committed(tb) && Enumerates(order, tb.transactions.Keys)
    ensures Recompute(Pipeline(tb), map[], order).Some?
  {
    forall t | t !in order ensures FreshFor(Pipeline(tb)({t}), map[], t) {
      assert t !in Claimed(order);
      AbsentIsFresh(tb, t);
    }
    PipelineIsCoherent(tb);
    RecomputeRefused(Pipeline(tb), map[], order);
  }

  lemma RebuiltIsKeyed(tb: Tables, order: seq<TransactionId>)
    requires Committed(tb) && Recompute(Pipeline(tb), map[], order).Some?
    ensures Keyed(Recompute(Pipeline(tb), map[], order).value)
  {
    PipelineIsCoherent(tb);
    RecomputeFreshens(Pipeline(tb), map[], order, 0);
  }

  lemma RebuiltIsFresh(tb: Tables, order: seq<TransactionId>, t: TransactionId)
    requires Committed(tb) && Enumerates(order, tb.transactions.Keys)
    requires Recompute(Pipeline(tb), map[], order).Some?
    ensures Fresh(tb, Recompute(Pipeline(tb), map[], order).value, t)
  {
    if t !in order {
      assert t !in Claimed(order);
      AbsentIsFresh(tb, t);
    }
    RecomputedIsFresh(tb, map[], order, t);
  }
}
