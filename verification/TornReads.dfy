/**
 * A batch recomputed from reads of different states: its overlays, its rows and its overrides are loaded by different
 * statements, and each sees what is committed by then (accounting/repositories/projection.py).
 */
module TornReads {
  import opened Frame
  import opened Categorization
  import opened Resolution
  import opened Tables
  import opened Footprint
  import opened Recomputing
  import Agreement
  import Locality
  import Projection
  import ResolvedIds
  import Slices

  /** What a batch resolves to when its overlays, its rows and its overrides are read at three states. */
  function TornBatch(ledger: Tables, overlays: Tables, corrections: Tables, ts: set<TransactionId>): seq<DisplayRow>
    requires Committed(ledger) && Committed(overlays) && Committed(corrections)
  {
    DisplayRows(LoadLedger(ledger, ts), LoadContext(overlays), LoadOverrides(corrections, PostingKeys(ledger, ts)))
  }

  function Torn(ledger: Tables, overlays: Tables, corrections: Tables): Resolver
    requires Committed(ledger) && Committed(overlays) && Committed(corrections)
  {
    (ts: set<TransactionId>) => TornBatch(ledger, overlays, corrections, ts)
  }

  // ---------- still local, with distinct ids ----------

  lemma TornIds(ledger: Tables, overlays: Tables, corrections: Tables, ts: set<TransactionId>)
    requires Committed(ledger) && Committed(overlays) && Committed(corrections)
    ensures ResolvedIds.DistinctDisplayIds(TornBatch(ledger, overlays, corrections, ts))
  {
    var raw, c := LoadLedger(ledger, ts), LoadContext(overlays);
    var o := LoadOverrides(corrections, PostingKeys(ledger, ts));
    ResolvedIds.LedgerIds(ledger, ts);
    ResolvedIds.ResolveIds(raw, c, o);
    var resolved := Resolve(raw, c, o);
    ResolvedIds.DisplayAllRows(resolved, resolved, raw, c, o);
  }

  lemma AgreesWithSelf(ledger: Tables, ts: set<TransactionId>, c: Context, o: Overrides)
    requires Committed(ledger)
    ensures Agreement.Agree(LoadLedger(ledger, ts), ts, c, o, c, o)
  {
    var raw := LoadLedger(ledger, ts);
    forall row | row in raw ensures Agreement.RowAgrees(row, ts, c, o, c, o) {
      Slices.LedgerMembers(ledger, ts, row);
    }
    Slices.AgreesWithItself(raw, ts, c, o, o);
  }

  /** Rows come out only for the transactions asked for. */
  lemma TornOwners(ledger: Tables, overlays: Tables, corrections: Tables, ts: set<TransactionId>, d: DisplayRow)
    requires Committed(ledger) && Committed(overlays) && Committed(corrections)
    requires d in TornBatch(ledger, overlays, corrections, ts)
    ensures d.row.transaction in ts
  {
    var raw, c := LoadLedger(ledger, ts), LoadContext(overlays);
    var o := LoadOverrides(corrections, PostingKeys(ledger, ts));
    AgreesWithSelf(ledger, ts, c, o);
    Agreement.ResolveAgrees(raw, ts, c, o, c, o);
    var resolved := Resolve(raw, c, o);
    ResolvedIds.DisplayAllRows(resolved, resolved, raw, c, o);
    var i :| 0 <= i < |resolved| && TornBatch(ledger, overlays, corrections, ts)[i] == d;
    assert Agreement.Traces(resolved[i], raw);
    var row :| row in raw && d.row.transaction == row.transaction && Base(d.row.posting) == Base(row.posting);
    Slices.LedgerMembers(ledger, ts, row);
  }

  lemma AskedRowAgrees(ledger: Tables, corrections: Tables, asked: set<string>, t: TransactionId, c: Context, row: Row)
    requires Committed(ledger) && PostingKeys(ledger, {t}) <= asked && row in LoadLedger(ledger, {t})
    ensures Agreement.RowAgrees(row, {t}, c, LoadOverrides(corrections, asked),
                                c, LoadOverrides(corrections, PostingKeys(ledger, {t})))
  {
    Slices.LedgerMembers(ledger, {t}, row);
    forall id | Base(id) == Base(row.posting)
      ensures Agreement.SameEntry(LoadOverrides(corrections, asked),
                                  LoadOverrides(corrections, PostingKeys(ledger, {t})), id)
    {
      Slices.SameOverrideEntry(corrections, corrections, asked, PostingKeys(ledger, {t}), Base(id), id);
    }
  }

  lemma AskingMoreIsSame(ledger: Tables, overlays: Tables, corrections: Tables, asked: set<string>, t: TransactionId)
    requires Committed(ledger) && Committed(overlays) && Committed(corrections) && PostingKeys(ledger, {t}) <= asked
    ensures DisplayRows(LoadLedger(ledger, {t}), LoadContext(overlays), LoadOverrides(corrections, asked))
      == TornBatch(ledger, overlays, corrections, {t})
  {
    var raw, c := LoadLedger(ledger, {t}), LoadContext(overlays);
    var o, p := LoadOverrides(corrections, asked), LoadOverrides(corrections, PostingKeys(ledger, {t}));
    forall row | row in raw ensures Agreement.RowAgrees(row, {t}, c, o, c, p) {
      AskedRowAgrees(ledger, corrections, asked, t, c, row);
    }
    Slices.AgreesWithItself(raw, {t}, c, o, p);
    Agreement.DisplayRowsAgree(raw, {t}, c, o, c, p);
  }

  /** A torn batch agrees, transaction by transaction, with the same reads of each alone. */
  lemma TornBatchIsLocal(ledger: Tables, overlays: Tables, corrections: Tables, ts: set<TransactionId>,
                         t: TransactionId)
    requires Committed(ledger) && Committed(overlays) && Committed(corrections) && t in ts
    ensures Locality.RestrictDisplay(TornBatch(ledger, overlays, corrections, ts), {t})
      == TornBatch(ledger, overlays, corrections, {t})
  {
    var o := LoadOverrides(corrections, PostingKeys(ledger, ts));
    Locality.DisplayRowsLocal(LoadLedger(ledger, ts), LoadContext(overlays), o, {t});
    Slices.LoadIsRestriction(ledger, {t}, ts);
    AskingMoreIsSame(ledger, overlays, corrections, PostingKeys(ledger, ts), t);
  }

  lemma TornAt(ledger: Tables, overlays: Tables, corrections: Tables, ts: set<TransactionId>, d: DisplayRow)
    requires Committed(ledger) && Committed(overlays) && Committed(corrections)
    ensures d in TornBatch(ledger, overlays, corrections, ts)
      <==> d.row.transaction in ts && d in TornBatch(ledger, overlays, corrections, {d.row.transaction})
  {
    var t := d.row.transaction;
    if t in ts {
      TornBatchIsLocal(ledger, overlays, corrections, ts, t);
      Projection.RestrictDisplayMembers(TornBatch(ledger, overlays, corrections, ts), {t}, d);
    } else if d in TornBatch(ledger, overlays, corrections, ts) {
      TornOwners(ledger, overlays, corrections, ts, d);
    }
  }

  lemma TornIsLocal(ledger: Tables, overlays: Tables, corrections: Tables)
    requires Committed(ledger) && Committed(overlays) && Committed(corrections)
    ensures Local(Torn(ledger, overlays, corrections))
  {
    var resolve := Torn(ledger, overlays, corrections);
    forall ts, d: DisplayRow ensures d in resolve(ts) <==> InBatch(resolve, ts, d) {
      TornAt(ledger, overlays, corrections, ts, d);
    }
  }

  lemma TornIsDistinct(ledger: Tables, overlays: Tables, corrections: Tables)
    requires Committed(ledger) && Committed(overlays) && Committed(corrections)
    ensures DistinctRows(Torn(ledger, overlays, corrections))
  {
    forall ts ensures ResolvedIds.DistinctDisplayIds(Torn(ledger, overlays, corrections)(ts)) {
      TornIds(ledger, overlays, corrections, ts);
    }
  }

  // ---------- and the same while the slice is ----------

  /** All that one transaction's resolution reads: its slice of the tables, and the members of its links. */
  datatype Whole = Whole(inputs: Inputs, members: map<string, set<TransactionId>>)

  function WholeOf(tb: Tables, t: TransactionId): Whole {
    Whole(InputsOf(tb, t), map l | l in LinksOf(tb, t) :: MembersOf(tb, l))
  }

  lemma SameWhole(a: Tables, b: Tables, t: TransactionId)
    requires WholeOf(a, t) == WholeOf(b, t)
    ensures InputsOf(a, t) == InputsOf(b, t) && Slices.SamePartners(a, b, t)
  {
    var x, y := WholeOf(a, t).members, WholeOf(b, t).members;
    forall l | l in LinksOf(a, t) ensures MembersOf(a, l) == MembersOf(b, l) {
      assert l in x && x[l] == MembersOf(a, l);
      assert l in y && y[l] == MembersOf(b, l);
    }
  }

  /** What reads alike resolves alike. */
  lemma WholeDetermines(a: Tables, b: Tables, t: TransactionId)
    requires Committed(a) && Committed(b) && WholeOf(a, t) == WholeOf(b, t)
    ensures ResolveBatch(a, {t}) == ResolveBatch(b, {t})
  {
    SameWhole(a, b, t);
    Slices.SliceDetermines(a, b, t);
  }

  lemma TornRowAgrees(ledger: Tables, overlays: Tables, corrections: Tables, t: TransactionId, row: Row)
    requires Committed(ledger) && Committed(overlays) && Committed(corrections) && row in LoadLedger(ledger, {t})
    requires InputsOf(overlays, t) == InputsOf(ledger, t) == InputsOf(corrections, t)
    ensures Agreement.RowAgrees(row, {t}, LoadContext(overlays), LoadOverrides(corrections, PostingKeys(ledger, {t})),
                                LoadContext(ledger), LoadOverrides(ledger, PostingKeys(ledger, {t})))
  {
    var asked := PostingKeys(ledger, {t});
    Slices.SamePostingViews(ledger, overlays, t, row);
    Slices.LedgerMembers(ledger, {t}, row);
    Slices.SamePosting(ledger, corrections, t, row.posting.key);
    forall id | Base(id) == Base(row.posting)
      ensures Agreement.SameEntry(LoadOverrides(corrections, asked), LoadOverrides(ledger, asked), id)
    {
      Slices.SameOverrideEntry(corrections, ledger, asked, asked, Base(id), id);
    }
  }

  lemma TornContextsAgree(ledger: Tables, overlays: Tables, corrections: Tables, t: TransactionId)
    requires Committed(ledger) && Committed(overlays) && Committed(corrections) && t in ledger.transactions
    requires InputsOf(overlays, t) == InputsOf(ledger, t) == InputsOf(corrections, t)
    requires Slices.SamePartners(overlays, ledger, t)
    ensures Agreement.Agree(LoadLedger(ledger, {t}), {t},
                            LoadContext(overlays), LoadOverrides(corrections, PostingKeys(ledger, {t})),
                            LoadContext(ledger), LoadOverrides(ledger, PostingKeys(ledger, {t})))
  {
    var asked := PostingKeys(ledger, {t});
    forall row | row in LoadLedger(ledger, {t})
      ensures Agreement.RowAgrees(row, {t}, LoadContext(overlays), LoadOverrides(corrections, asked),
                                  LoadContext(ledger), LoadOverrides(ledger, asked))
    {
      TornRowAgrees(ledger, overlays, corrections, t, row);
    }
    Slices.TransactionViews(overlays, ledger, t);
  }

  /** A torn read shows a transaction as one read does, if its slice and its partners were the same at all three. */
  lemma TornReadMatches(ledger: Tables, overlays: Tables, corrections: Tables, t: TransactionId)
    requires Committed(ledger) && Committed(overlays) && Committed(corrections)
    requires WholeOf(overlays, t) == WholeOf(ledger, t) == WholeOf(corrections, t)
    ensures TornBatch(ledger, overlays, corrections, {t}) == ResolveBatch(ledger, {t})
  {
    SameWhole(overlays, ledger, t);
    if t in ledger.transactions {
      TornContextsAgree(ledger, overlays, corrections, t);
      var asked := PostingKeys(ledger, {t});
      Agreement.DisplayRowsAgree(LoadLedger(ledger, {t}), {t},
                                 LoadContext(overlays), LoadOverrides(corrections, asked),
                                 LoadContext(ledger), LoadOverrides(ledger, asked));
    } else {
      assert PostingKeys(ledger, {t}) == {};
      Slices.NothingResolvesToNothing(LoadContext(overlays), LoadOverrides(corrections, {}));
      Slices.AbsentResolvesToNothing(ledger, t);
    }
  }
}
