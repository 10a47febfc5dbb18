/** What renaming a category enqueues, and what it changes (accounting/db/projection.py, accounting/taxonomy.py). */
module CategoryWrites {
  import opened Frame
  import opened Tables
  import opened Footprint
  import Agreement
  import QuietWrites
  import Slices

  /** The tables with one category's name changed, as a rename that merges nothing leaves them. */
  function WithName(tb: Tables, c: string, name: string): Tables
    requires c in tb.categories
  {
    tb.(categories := tb.categories[c := tb.categories[c].(name := name)])
  }

  /** The transactions with a posting filed under a category or subcategory. */
  function FiledUnder(tb: Tables, c: string): set<TransactionId> {
    set p | p in tb.postings && (tb.postings[p].category == Some(c) || tb.postings[p].subcategory == Some(c))
      :: tb.postings[p].transaction
  }

  // ---------- what is enqueued ----------

  lemma OneChanged<K, V>(m: map<K, V>, k: K, v: V)
    requires k !in m || m[k] != v
    ensures Changed(m, m[k := v]) == {k}
  {
  }

  lemma FiledExactly(a: Tables, b: Tables, c: string)
    requires b.postings == a.postings && Changed(a.categories, b.categories) == {c}
    ensures FromCategories(a, b) == FiledUnder(a, c)
  {
    forall t ensures t in FromCategories(a, b) <==> t in FiledUnder(a, c) {
      FiledIsEnqueued(a, b, c, t);
    }
  }

  /** A statement that changes one category enqueues exactly the transactions filed under it. */
  lemma OneCategoryEnqueues(a: Tables, b: Tables, c: string)
    requires b == a.(categories := b.categories) && Changed(a.categories, b.categories) == {c}
    ensures Enqueued(a, b) == FiledUnder(a, c)
  {
    QuietWrites.CategoriesEnqueue(a, b);
    FiledExactly(a, b, c);
  }

  /** A rename to a new name enqueues exactly the transactions filed under the category. */
  lemma RenameEnqueues(tb: Tables, c: string, name: string)
    requires c in tb.categories && tb.categories[c].name != name
    ensures Enqueued(tb, WithName(tb, c, name)) == FiledUnder(tb, c)
  {
    OneChanged(tb.categories, c, tb.categories[c].(name := name));
    OneCategoryEnqueues(tb, WithName(tb, c, name), c);
  }

  lemma FiledIsEnqueued(a: Tables, b: Tables, c: string, t: TransactionId)
    requires b.postings == a.postings && Changed(a.categories, b.categories) == {c}
    ensures t in FromCategories(a, b) <==> t in FiledUnder(a, c)
  {
    if t in FiledUnder(a, c) {
      var p :| p in a.postings && (a.postings[p].category == Some(c) || a.postings[p].subcategory == Some(c))
        && a.postings[p].transaction == t;
      assert p in b.postings && c in Changed(a.categories, b.categories);
    }
    if t in FromCategories(a, b) {
      var changed := Changed(a.categories, b.categories);
      var p :| p in b.postings
        && ((b.postings[p].category.Some? && b.postings[p].category.value in changed)
            || (b.postings[p].subcategory.Some? && b.postings[p].subcategory.value in changed))
        && b.postings[p].transaction == t;
      assert p in a.postings;
    }
  }

  // ---------- what is resolved ----------

  lemma KnownIfSame<V>(key: Option<string>, a: map<string, V>, b: map<string, V>)
    requires a.Keys == b.Keys
    ensures KnownIf(key, a) <==> KnownIf(key, b)
  {
  }

  lemma RenamedKeys(tb: Tables, c: string, name: string)
    requires ForeignKeys(tb) && c in tb.categories
    ensures ForeignKeys(WithName(tb, c, name))
  {
    var b := WithName(tb, c, name);
    assert b.categories.Keys == tb.categories.Keys;
    forall key: Option<string> ensures KnownIf(key, tb.categories) <==> KnownIf(key, b.categories) {
      KnownIfSame(key, tb.categories, b.categories);
    }
  }

  lemma RenamedIsCommitted(tb: Tables, c: string, name: string)
    requires Committed(tb) && c in tb.categories
    ensures Committed(WithName(tb, c, name))
  {
    RenamedKeys(tb, c, name);
    var b := WithName(tb, c, name);
    forall l | l in b.links ensures IsPair(MembersOf(b, l)) {
      assert MembersOf(b, l) == MembersOf(tb, l);
    }
  }

  lemma RenamedRedirects(tb: Tables, c: string, name: string)
    requires c in tb.categories
    ensures LoadRedirects(WithName(tb, c, name)) == LoadRedirects(tb)
  {
  }

  lemma {:induction false} RenamedRows(tb: Tables, b: Tables, t: TransactionId)
    requires Committed(tb) && Committed(b) && b == tb.(categories := b.categories)
    ensures LoadLedger(tb, {t}) == LoadLedger(b, {t})
  {
    SortedPostingKeysKnown(tb, {t});
    assert PostingKeys(tb, {t}) == PostingKeys(b, {t});
    var keys := SortedKeys(PostingKeys(tb, {t}));
    forall k | k in keys ensures k in tb.postings && TagsOf(tb, k) == TagsOf(b, k) {
    }
    Slices.SameRowsAt(tb, b, keys);
  }

  lemma RenamedRow(tb: Tables, b: Tables, t: TransactionId, row: Row)
    requires Committed(tb) && Committed(b) && b == tb.(categories := b.categories) && row in LoadLedger(tb, {t})
    requires LoadRedirects(b) == LoadRedirects(tb)
    ensures Agreement.RowAgrees(row, {t}, LoadContext(tb), LoadOverrides(tb, PostingKeys(tb, {t})),
                                LoadContext(b), LoadOverrides(b, PostingKeys(b, {t})))
  {
    Slices.LedgerMembers(tb, {t}, row);
    var p := row.posting.key;
    Slices.SameSplitEntry(tb, b, p);
    forall id | Base(id) == p
      ensures Agreement.SameEntry(LoadOverrides(tb, PostingKeys(tb, {t})), LoadOverrides(b, PostingKeys(b, {t})), id)
    {
      Slices.SameOverrideEntry(tb, b, PostingKeys(tb, {t}), PostingKeys(b, {t}), p, id);
    }
  }

  lemma RenamedTransaction(tb: Tables, b: Tables, t: TransactionId)
    requires Committed(tb) && Committed(b) && b == tb.(categories := b.categories)
    ensures Agreement.TransactionAgrees(t, LoadContext(tb), LoadContext(b))
    ensures Agreement.RulesAgree(LoadRules(tb), LoadRules(b), {t}) && LoadAccounts(tb) == LoadAccounts(b)
  {
    Slices.SameRules(tb, b, t);
    Slices.SameMergeViews(tb, b, t);
    assert LinksOf(tb, t) == LinksOf(b, t) && Slices.SamePartners(tb, b, t);
    Slices.SameLink(tb, b, t);
  }

  lemma SameRedirectsResolveAlike(tb: Tables, b: Tables, t: TransactionId)
    requires Committed(tb) && Committed(b) && b == tb.(categories := b.categories)
      && LoadRedirects(b) == LoadRedirects(tb)
    ensures ResolveBatch(tb, {t}) == ResolveBatch(b, {t})
  {
    var raw := LoadLedger(tb, {t});
    RenamedRows(tb, b, t);
    forall row | row in raw
      ensures Agreement.RowAgrees(row, {t}, LoadContext(tb), LoadOverrides(tb, PostingKeys(tb, {t})),
                                  LoadContext(b), LoadOverrides(b, PostingKeys(b, {t})))
    {
      RenamedRow(tb, b, t, row);
    }
    RenamedTransaction(tb, b, t);
    Agreement.DisplayRowsAgree(raw, {t}, LoadContext(tb), LoadOverrides(tb, PostingKeys(tb, {t})),
                               LoadContext(b), LoadOverrides(b, PostingKeys(b, {t})));
  }

  /** No resolution changes, so everything a rename enqueues it enqueues for nothing. */
  lemma RenameChangesNothing(tb: Tables, c: string, name: string, t: TransactionId)
    requires Committed(tb) && c in tb.categories
    ensures Committed(WithName(tb, c, name)) && ResolveBatch(tb, {t}) == ResolveBatch(WithName(tb, c, name), {t})
  {
    RenamedIsCommitted(tb, c, name);
    RenamedRedirects(tb, c, name);
    SameRedirectsResolveAlike(tb, WithName(tb, c, name), t);
  }

  /** Creating a category enqueues nothing: no posting can be filed under it yet. */
  lemma CreatingEnqueuesNothing(tb: Tables, c: string, rec: CategoryRec)
    requires ForeignKeys(tb) && c !in tb.categories
    ensures Enqueued(tb, tb.(categories := tb.categories[c := rec])) == {}
  {
    OneChanged(tb.categories, c, rec);
    OneCategoryEnqueues(tb, tb.(categories := tb.categories[c := rec]), c);
    forall t ensures t !in FiledUnder(tb, c) {
      NotFiledYet(tb, c, t);
    }
  }

  lemma NotFiledYet(tb: Tables, c: string, t: TransactionId)
    requires ForeignKeys(tb) && c !in tb.categories
    ensures t !in FiledUnder(tb, c)
  {
  }
}
