/**
 * Why an override never reaches a split posting's legs (accounting/repositories/interpretation.py, categorization.py).
 */
module SplitOverrides {
  import opened Frame
  import opened Categorization
  import opened Linking
  import opened Resolution
  import opened Tables
  import opened Footprint
  import Agreement
  import Locality
  import ResolvedIds
  import Slices

  /** Two sets of overrides that differ at most on one posting. */
  ghost predicate DifferAt(o: Overrides, p: Overrides, key: string) {
    forall id :: id != Stored(key) ==> Agreement.SameEntry(o, p, id)
  }

  lemma SplitLeavesNoOriginal(rows: seq<Row>, splits: Splits, key: string, out: Row)
    requires key in splits && out in SplitRows(rows, splits)
    ensures out.posting != Stored(key)
  {
    SortMembers(Expand(SplitStage(splits), rows), out);
    ExpandMembers(SplitStage(splits), rows, out);
    var row :| row in rows && out in SplitStage(splits)(row);
    if row.posting.Stored? && row.posting.key in splits {
      Locality.LegRowsKeepTransaction(row, splits[row.posting.key], 0, out);
    }
  }

  lemma SplitRowsAreNormal(rows: seq<Row>, splits: Splits)
    requires splits != map[]
    ensures Sorted(SplitRows(rows, splits)) && Agreement.Unlinked(SplitRows(rows, splits))
  {
    var f := SplitStage(splits);
    SortSorted(Expand(f, rows));
    forall out | out in SplitRows(rows, splits) ensures out.link.None? {
      SortMembers(Expand(f, rows), out);
      ExpandMembers(f, rows, out);
      var row :| row in rows && out in f(row);
      if row.posting.Stored? && row.posting.key in splits {
        Locality.LegRowsKeepTransaction(row, splits[row.posting.key], 0, out);
      }
    }
  }

  lemma OverridesMiss(rows: seq<Row>, o: Overrides, p: Overrides, key: string)
    requires Sorted(rows) && Agreement.Unlinked(rows) && DifferAt(o, p, key)
    requires forall row :: row in rows ==> row.posting != Stored(key)
    ensures OverrideRows(rows, o) == OverrideRows(rows, p)
  {
    Agreement.OverridesNormal(rows, o);
    Agreement.OverridesNormal(rows, p);
    forall row | row in rows ensures OverrideStage(o)(row) == OverrideStage(p)(row) {
      assert Agreement.SameEntry(o, p, row.posting);
    }
    ExpandAgrees(OverrideStage(o), OverrideStage(p), rows);
  }

  /**
   * Once a posting is split, whatever its override says is lost: the resolved ledger is the same with any other
   * override of it, or none. Overrides run after splits, and no leg carries the posting's own id.
   */
  lemma SplitPostingIgnoresItsOverride(raw: seq<Row>, context: Context, o: Overrides, p: Overrides, key: string)
    requires key in context.splits && DifferAt(o, p, key)
    ensures Resolve(raw, context, o) == Resolve(raw, context, p)
  {
    Agreement.ResolveUnfolds(raw, context, o);
    Agreement.ResolveUnfolds(raw, context, p);
    var r1 := ApplyRules(ApplyCategoryRedirects(raw, context.redirects), context.rules, context.accounts);
    var r2 := SplitRows(r1, context.splits);
    SplitRowsAreNormal(r1, context.splits);
    forall row | row in r2 ensures row.posting != Stored(key) {
      SplitLeavesNoOriginal(r1, context.splits, key, row);
    }
    OverridesMiss(r2, o, p, key);
  }

  // ---------- nor in what is shown ----------

  ghost predicate Without(rows: seq<Row>, id: PostingId) {
    forall row :: row in rows ==> row.posting != id
  }

  lemma StageKeepsIds(f: Row -> seq<Row>, rows: seq<Row>, id: PostingId)
    requires ResolvedIds.KeepsId(f) && Without(rows, id)
    ensures Without(Expand(f, rows), id) && Without(Sort(Expand(f, rows)), id)
  {
    forall out | out in Expand(f, rows) ensures out.posting != id {
      ResolvedIds.ExpandOrigin(f, rows, out);
    }
    forall out | out in Sort(Expand(f, rows)) ensures out.posting != id {
      SortMembers(Expand(f, rows), out);
    }
  }

  lemma OverridesWithout(rows: seq<Row>, o: Overrides, id: PostingId)
    requires Without(rows, id)
    ensures Without(OverrideRows(rows, o), id)
  {
    StageKeepsIds(OverrideStage(o), rows, id);
  }

  lemma MergesWithout(rows: seq<Row>, merges: seq<Merge>, id: PostingId)
    requires Without(rows, id)
    ensures Without(MergeRows(rows, merges), id)
  {
    StageKeepsIds(MergeStage(Dropped(merges), Descriptions(merges)), rows, id);
  }

  lemma LinksWithout(rows: seq<Row>, links: seq<TransferLink>, id: PostingId)
    requires Without(rows, id)
    ensures Without(ApplyTransferLinks(rows, links), id)
  {
    StageKeepsIds(LinkStage(links), rows, id);
  }

  lemma SplitsWithout(rows: seq<Row>, splits: Splits, key: string)
    requires key in splits
    ensures Without(SplitRows(rows, splits), Stored(key))
  {
    forall out | out in SplitRows(rows, splits) ensures out.posting != Stored(key) {
      SplitLeavesNoOriginal(rows, splits, key, out);
    }
  }

  /** A split posting's own id is on no resolved row. */
  lemma ResolvedWithout(raw: seq<Row>, context: Context, o: Overrides, key: string)
    requires key in context.splits
    ensures Without(Resolve(raw, context, o), Stored(key))
  {
    Agreement.ResolveUnfolds(raw, context, o);
    var r1 := ApplyRules(ApplyCategoryRedirects(raw, context.redirects), context.rules, context.accounts);
    SplitsWithout(r1, context.splits, key);
    var r2 := SplitRows(r1, context.splits);
    OverridesWithout(r2, o, Stored(key));
    var r3 := OverrideRows(r2, o);
    MergesWithout(r3, context.merges, Stored(key));
    LinksWithout(MergeRows(r3, context.merges), context.links, Stored(key));
  }

  lemma DisplayOfIgnores(row: Row, resolved: seq<Row>, raw: seq<Row>, context: Context, o: Overrides, p: Overrides,
                         key: string)
    requires DifferAt(o, p, key) && Without(resolved, Stored(key))
    requires row in resolved
    ensures DisplayOf(row, resolved, raw, context, o) == DisplayOf(row, resolved, raw, context, p)
  {
    var legs := Restrict(resolved, {row.transaction});
    forall leg | leg in legs ensures Agreement.SameEntry(o, p, leg.posting) {
      RestrictMembers(resolved, {row.transaction}, leg);
    }
    Agreement.ManualOverrideAgrees(legs, o, p);
    assert Agreement.SameEntry(o, p, row.posting);
  }

  lemma {:induction false} DisplayAllIgnores(rows: seq<Row>, resolved: seq<Row>, raw: seq<Row>, context: Context,
                                             o: Overrides, p: Overrides, key: string)
    requires DifferAt(o, p, key) && Without(resolved, Stored(key))
    requires forall row :: row in rows ==> row in resolved
    ensures DisplayAll(rows, resolved, raw, context, o) == DisplayAll(rows, resolved, raw, context, p)
  {
    if rows != [] {
      assert rows[0] in rows;
      DisplayOfIgnores(rows[0], resolved, raw, context, o, p, key);
      DisplayAllIgnores(rows[1..], resolved, raw, context, o, p, key);
    }
  }

  lemma DisplayRowsIgnore(raw: seq<Row>, context: Context, o: Overrides, p: Overrides, key: string)
    requires key in context.splits && DifferAt(o, p, key)
    ensures DisplayRows(raw, context, o) == DisplayRows(raw, context, p)
  {
    SplitPostingIgnoresItsOverride(raw, context, o, p, key);
    var resolved := Resolve(raw, context, o);
    ResolvedWithout(raw, context, o, key);
    DisplayAllIgnores(resolved, resolved, raw, context, o, p, key);
  }

  // ---------- out of the tables ----------

  /** Two states that differ at most in what one posting's correction, its tags and its suggestions say. */
  ghost predicate OnlyOverrideOf(a: Tables, b: Tables, key: string) {
    && b == a.(overrides := b.overrides, overrideTags := b.overrideTags, suggestions := b.suggestions)
    && forall q :: q != key ==> SameCorrection(a, b, q)
  }

  ghost predicate SameCorrection(a: Tables, b: Tables, q: string) {
    && Lookup(a.overrides, q) == Lookup(b.overrides, q)
    && OverrideTagsOf(a, q) == OverrideTagsOf(b, q)
    && PendingTable(a, q) == PendingTable(b, q)
  }

  /** Overrides are loaded for stored postings only, so those of the two states differ at that posting's own id. */
  lemma LoadedDifferAt(a: Tables, b: Tables, asked: set<string>, key: string)
    requires OnlyOverrideOf(a, b, key)
    ensures DifferAt(LoadOverrides(a, asked), LoadOverrides(b, asked), key)
  {
    forall id | id != Stored(key) ensures Agreement.SameEntry(LoadOverrides(a, asked), LoadOverrides(b, asked), id) {
      if id.Stored? && id.key in asked {
        assert SameCorrection(a, b, id.key);
        Slices.SameOverrideEntry(a, b, asked, asked, id.key, id);
      }
    }
  }

  lemma SameRaw(a: Tables, b: Tables, t: TransactionId, key: string)
    requires Committed(a) && Committed(b) && OnlyOverrideOf(a, b, key)
    ensures PostingKeys(a, {t}) == PostingKeys(b, {t}) && LoadLedger(a, {t}) == LoadLedger(b, {t})
  {
    SortedPostingKeysKnown(a, {t});
    assert PostingKeys(a, {t}) == PostingKeys(b, {t});
    var keys := SortedKeys(PostingKeys(a, {t}));
    forall k | k in keys ensures k in a.postings && TagsOf(a, k) == TagsOf(b, k) {
    }
    Slices.SameRowsAt(a, b, keys);
  }

  lemma SameRedirects(a: Tables, b: Tables)
    requires a.categories == b.categories
    ensures LoadRedirects(a) == LoadRedirects(b)
  {
  }

  lemma ContextsSay(a: Tables, b: Tables, t: TransactionId, key: string)
    requires Committed(a) && Committed(b) && OnlyOverrideOf(a, b, key)
    ensures Agreement.TransactionAgrees(t, LoadContext(a), LoadContext(b))
    ensures Agreement.RulesAgree(LoadRules(a), LoadRules(b), {t}) && LoadAccounts(a) == LoadAccounts(b)
  {
    Slices.SameRules(a, b, t);
    Slices.SameMergeViews(a, b, t);
    assert LinksOf(a, t) == LinksOf(b, t) && Slices.SamePartners(a, b, t);
    Slices.SameLink(a, b, t);
  }

  lemma RowSays(a: Tables, b: Tables, t: TransactionId, key: string, o: Overrides, row: Row)
    requires Committed(a) && Committed(b) && OnlyOverrideOf(a, b, key) && row in LoadLedger(a, {t})
    ensures Agreement.RowAgrees(row, {t}, LoadContext(a), o, LoadContext(b), o)
  {
    Slices.LedgerMembers(a, {t}, row);
    SameRedirects(a, b);
    Slices.SameSplitEntry(a, b, row.posting.key);
  }

  lemma ContextsShow(a: Tables, b: Tables, t: TransactionId, key: string, o: Overrides)
    requires Committed(a) && Committed(b) && OnlyOverrideOf(a, b, key)
    ensures DisplayRows(LoadLedger(a, {t}), LoadContext(a), o) == DisplayRows(LoadLedger(a, {t}), LoadContext(b), o)
  {
    var raw := LoadLedger(a, {t});
    forall row | row in raw ensures Agreement.RowAgrees(row, {t}, LoadContext(a), o, LoadContext(b), o) {
      RowSays(a, b, t, key, o, row);
    }
    ContextsSay(a, b, t, key);
    Agreement.DisplayRowsAgree(raw, {t}, LoadContext(a), o, LoadContext(b), o);
  }

  /**
   * Correcting, un-correcting or suggesting a category for a split posting changes nothing any transaction shows,
   * derived flags included.
   */
  lemma SplitOverrideChangesNothing(a: Tables, b: Tables, t: TransactionId, key: string)
    requires Committed(a) && Committed(b) && OnlyOverrideOf(a, b, key) && key in a.splits && LegTable(a, key) != map[]
    ensures ResolveBatch(a, {t}) == ResolveBatch(b, {t})
  {
    var asked := PostingKeys(a, {t});
    SameRaw(a, b, t, key);
    ContextsShow(a, b, t, key, LoadOverrides(a, asked));
    LoadedDifferAt(a, b, asked, key);
    assert key in LoadSplits(b) by {
      assert LegTable(b, key) == LegTable(a, key);
    }
    DisplayRowsIgnore(LoadLedger(a, {t}), LoadContext(b), LoadOverrides(a, asked), LoadOverrides(b, asked), key);
  }
}
