/** Two sets of overlays that agree on what they say about some rows resolve those rows alike. */
module Agreement {
  import opened Frame
  import opened Categorization
  import opened Linking
  import opened Resolution
  import Locality

  // ---------- which rows a stage can produce ----------

  /** Every row traces back to a raw row of the same transaction and the same stored posting. */
  ghost predicate From(rows: seq<Row>, raw: seq<Row>) {
    forall out :: out in rows ==> Traces(out, raw)
  }

  ghost predicate Traces(out: Row, raw: seq<Row>) {
    exists row :: row in raw && out.transaction == row.transaction && Base(out.posting) == Base(row.posting)
  }

  ghost predicate KeepsOrigin(f: Row -> seq<Row>) {
    forall row, out :: out in f(row) ==> out.transaction == row.transaction && Base(out.posting) == Base(row.posting)
  }

  lemma ExpandFrom(f: Row -> seq<Row>, rows: seq<Row>, raw: seq<Row>)
    requires From(rows, raw) && KeepsOrigin(f)
    ensures From(Expand(f, rows), raw)
  {
    forall out | out in Expand(f, rows) ensures Traces(out, raw) {
      ExpandMembers(f, rows, out);
      var row :| row in rows && out in f(row);
      assert Traces(row, raw);
    }
  }

  lemma SortFrom(rows: seq<Row>, raw: seq<Row>)
    requires From(rows, raw)
    ensures From(Sort(rows), raw)
  {
    forall out | out in Sort(rows) ensures Traces(out, raw) {
      SortMembers(rows, out);
    }
  }

  lemma SplitKeepsOrigin(splits: Splits)
    ensures KeepsOrigin(SplitStage(splits))
  {
    forall row: Row, out | out in SplitStage(splits)(row)
      ensures out.transaction == row.transaction && Base(out.posting) == Base(row.posting)
    {
      if row.posting.Stored? && row.posting.key in splits {
        Locality.LegRowsKeepTransaction(row, splits[row.posting.key], 0, out);
      }
    }
  }

  // ---------- every stage as "expand, then sort" ----------

  ghost predicate Unlinked(rows: seq<Row>) {
    forall row :: row in rows ==> row.link.None?
  }

  lemma {:induction false} ExpandIdentity(f: Row -> seq<Row>, rows: seq<Row>)
    requires forall row :: row in rows ==> f(row) == [row]
    ensures Expand(f, rows) == rows
  {
    if rows != [] {
      assert rows[0] in rows;
      ExpandIdentity(f, rows[1..]);
    }
  }

  /** `f` keeps or drops a row without touching what the frame is sorted by. */
  ghost predicate KeepsKeys(f: Row -> seq<Row>) {
    forall row :: |f(row)| <= 1 &&
      (forall out :: out in f(row) ==> out.postedAt == row.postedAt && out.posting == row.posting)
  }

  lemma SortedAfter(head: seq<Row>, tail: seq<Row>)
    requires |head| <= 1 && Sorted(tail)
    requires forall j :: 0 <= j < |tail| && head != [] ==> RowLe(head[0], tail[j])
    ensures Sorted(head + tail)
  {
  }

  lemma {:induction false} ExpandSorted(f: Row -> seq<Row>, rows: seq<Row>)
    requires Sorted(rows) && KeepsKeys(f)
    ensures Sorted(Expand(f, rows))
  {
    if rows != [] {
      ExpandSorted(f, rows[1..]);
      var head, tail := f(rows[0]), Expand(f, rows[1..]);
      forall j | 0 <= j < |tail| && head != [] ensures RowLe(head[0], tail[j]) {
        assert head[0] in head;
        ExpandMembers(f, rows[1..], tail[j]);
        var row :| row in rows[1..] && tail[j] in f(row);
        var k :| 0 <= k < |rows[1..]| && rows[1..][k] == row;
        assert RowLe(rows[0], rows[k + 1]);
      }
      SortedAfter(head, tail);
    }
  }

  lemma RedirectsNormal(rows: seq<Row>, redirects: Redirects)
    ensures ApplyCategoryRedirects(rows, redirects) == Expand(RedirectStage(redirects), rows)
  {
    if redirects == map[] {
      ExpandIdentity(RedirectStage(redirects), rows);
    }
  }

  lemma SplitsNormal(rows: seq<Row>, splits: Splits)
    requires Sorted(rows) && Unlinked(rows)
    ensures SplitRows(rows, splits) == Sort(Expand(SplitStage(splits), rows))
  {
    if splits == map[] {
      ExpandIdentity(SplitStage(splits), rows);
      SortOfSorted(rows);
    }
  }

  lemma OverridesNormal(rows: seq<Row>, overrides: Overrides)
    requires Sorted(rows) && Unlinked(rows)
    ensures OverrideRows(rows, overrides) == Sort(Expand(OverrideStage(overrides), rows))
  {
    if overrides == map[] {
      ExpandIdentity(OverrideStage(overrides), rows);
      SortOfSorted(rows);
    }
  }

  lemma MergesNormal(rows: seq<Row>, merges: seq<Merge>)
    requires Sorted(rows)
    ensures MergeRows(rows, merges)
            == Sort(Expand(MergeStage(Dropped(merges), Descriptions(merges)), rows))
  {
    var f := MergeStage(Dropped(merges), Descriptions(merges));
    ExpandSorted(f, rows);
    SortOfSorted(Expand(f, rows));
    if merges == [] {
      ExpandIdentity(f, rows);
    }
  }

  /** The five stages in declared order, written out. */
  lemma ResolveUnfolds(raw: seq<Row>, context: Context, overrides: Overrides)
    ensures var r0 := ApplyCategoryRedirects(raw, context.redirects);
      var r1 := ApplyRules(r0, context.rules, context.accounts);
      var r2 := SplitRows(r1, context.splits);
      var r3 := OverrideRows(r2, overrides);
      var r4 := MergeRows(r3, context.merges);
      Resolve(raw, context, overrides) == ApplyTransferLinks(r4, context.links)
  {
    DeclaredOrder(OVERLAY_PRECEDENCE, ApplyCategoryRedirects(raw, context.redirects), context, overrides);
  }

  lemma DeclaredOrder(stages: seq<Stage>, r0: seq<Row>, context: Context, overrides: Overrides)
    requires |stages| == 5
    requires stages[0] == Counterparty && stages[1] == Split && stages[2] == ManualEdit
    requires stages[3] == DuplicateMerge && stages[4] == TransferMark
    ensures var r1 := ApplyRules(r0, context.rules, context.accounts);
      var r2 := SplitRows(r1, context.splits);
      var r3 := OverrideRows(r2, overrides);
      RunStages(stages, r0, context, overrides) == ApplyTransferLinks(MergeRows(r3, context.merges), context.links)
  {
    var r1 := ApplyRules(r0, context.rules, context.accounts);
    var r2 := SplitRows(r1, context.splits);
    var r3 := OverrideRows(r2, overrides);
    var r4 := MergeRows(r3, context.merges);
    OneMoreStage(stages, 0, r0, context, overrides, r0);
    OneMoreStage(stages, 1, r0, context, overrides, r1);
    OneMoreStage(stages, 2, r0, context, overrides, r2);
    OneMoreStage(stages, 3, r0, context, overrides, r3);
    OneMoreStage(stages, 4, r0, context, overrides, r4);
    assert stages[..5] == stages;
  }

  lemma OneMoreStage(stages: seq<Stage>, k: nat, rows: seq<Row>, context: Context, overrides: Overrides,
                     before: seq<Row>)
    requires k < |stages|
    requires k == 0 ==> before == rows
    requires k > 0 ==> RunStages(stages[..k], rows, context, overrides) == before
    ensures RunStages(stages[..k + 1], rows, context, overrides) == RunStage(stages[k], before, context, overrides)
  {
    assert stages[..k + 1][..k] == stages[..k];
  }

  /** What a stage that rebuilds the frame guarantees about its output. */
  lemma RebuiltFrame(f: Row -> seq<Row>, rows: seq<Row>, raw: seq<Row>)
    requires From(rows, raw) && KeepsOrigin(f)
    requires forall row, out :: row in rows && out in f(row) ==> out.link.None?
    ensures var built := Sort(Expand(f, rows)); Sorted(built) && Unlinked(built) && From(built, raw)
  {
    SortSorted(Expand(f, rows));
    ExpandFrom(f, rows, raw);
    SortFrom(Expand(f, rows), raw);
    forall out | out in Sort(Expand(f, rows)) ensures out.link.None? {
      SortMembers(Expand(f, rows), out);
      ExpandMembers(f, rows, out);
    }
  }

  // ---------- agreement ----------

  predicate SameRule(a: TransferRule, b: TransferRule) {
    a.(excluded := {}) == b.(excluded := {})
  }

  /** Same rules in the same order, opting the same ones of `transactions` out. */
  ghost predicate RulesAgree(a: seq<TransferRule>, b: seq<TransferRule>, transactions: set<TransactionId>) {
    && |a| == |b|
    && (forall i :: 0 <= i < |a| ==> SameRule(a[i], b[i]))
    && (forall i, t :: 0 <= i < |a| && t in transactions ==> (t in a[i].excluded <==> t in b[i].excluded))
  }

  ghost predicate SameEntry<K, V>(a: map<K, V>, b: map<K, V>, key: K) {
    (key in a <==> key in b) && (key in a ==> a[key] == b[key])
  }

  /** What two sets of overlays say about one raw row. */
  ghost predicate RowAgrees(row: Row, transactions: set<TransactionId>, c: Context, o: Overrides, d: Context,
                            p: Overrides)
  {
    && row.transaction in transactions && row.posting.Stored?
    && Redirected(row.category, c.redirects) == Redirected(row.category, d.redirects)
    && Redirected(row.subcategory, c.redirects) == Redirected(row.subcategory, d.redirects)
    && SameEntry(c.splits, d.splits, Base(row.posting))
    && (forall id :: Base(id) == Base(row.posting) ==> SameEntry(o, p, id))
  }

  /** What they say about one transaction. */
  ghost predicate TransactionAgrees(t: TransactionId, c: Context, d: Context) {
    && (t in Dropped(c.merges) <==> t in Dropped(d.merges))
    && SameEntry(Descriptions(c.merges), Descriptions(d.merges), t)
    && LinkFor(c.links, t) == LinkFor(d.links, t)
  }

  /** Two contexts say the same about everything resolving `raw` can ask them. */
  ghost predicate Agree(raw: seq<Row>, transactions: set<TransactionId>, c: Context, o: Overrides, d: Context,
                        p: Overrides)
  {
    && RulesAgree(c.rules, d.rules, transactions)
    && c.accounts == d.accounts
    && (forall row :: row in raw ==> RowAgrees(row, transactions, c, o, d, p))
    && (forall t :: t in transactions ==> TransactionAgrees(t, c, d))
  }

  lemma {:induction false} BestRuleAgrees(a: seq<TransferRule>, b: seq<TransferRule>, leg: Row)
    requires RulesAgree(a, b, {leg.transaction})
    ensures BestRule(a, leg).Some? <==> BestRule(b, leg).Some?
    ensures BestRule(a, leg).Some? ==> SameRule(BestRule(a, leg).value, BestRule(b, leg).value)
  {
    if a != [] {
      BestRuleAgrees(a[1..], b[1..], leg);
      assert SameRule(a[0], b[0]);
      assert leg.transaction in a[0].excluded <==> leg.transaction in b[0].excluded;
    }
  }

  lemma RealLegTransaction(rows: seq<Row>, t: TransactionId)
    ensures RealLeg(rows, t).Some? ==> RealLeg(rows, t).value in rows && RealLeg(rows, t).value.transaction == t
  {
    var legs := Restrict(rows, {t});
    if RealLeg(rows, t).Some? {
      RestrictMembers(rows, {t}, RealLeg(rows, t).value);
    }
  }

  lemma SafeRuleAgrees(rows: seq<Row>, transactions: set<TransactionId>, c: Context, d: Context, t: TransactionId)
    requires t in transactions && RulesAgree(c.rules, d.rules, transactions) && c.accounts == d.accounts
    ensures var x := SafeRule(rows, c.rules, c.accounts, t);
      var y := SafeRule(rows, d.rules, d.accounts, t);
      (x.Some? <==> y.Some?) && (x.Some? ==> SameRule(x.value, y.value))
  {
    RealLegTransaction(rows, t);
    var leg := RealLeg(rows, t);
    if leg.Some? {
      BestRuleAgrees(c.rules, d.rules, leg.value);
    }
  }

  lemma RedirectsAgree(raw: seq<Row>, a: Redirects, b: Redirects)
    requires forall row :: row in raw ==>
      && Redirected(row.category, a) == Redirected(row.category, b)
      && Redirected(row.subcategory, a) == Redirected(row.subcategory, b)
    ensures ApplyCategoryRedirects(raw, a) == ApplyCategoryRedirects(raw, b)
    ensures From(ApplyCategoryRedirects(raw, a), raw)
  {
    RedirectsNormal(raw, a);
    RedirectsNormal(raw, b);
    ExpandAgrees(RedirectStage(a), RedirectStage(b), raw);
    assert From(raw, raw);
    ExpandFrom(RedirectStage(a), raw, raw);
  }

  lemma CounterpartyUnlinks(rows: seq<Row>, f: Row -> seq<Row>, rules: seq<TransferRule>,
                            accounts: map<string, AccountKind>)
    requires f == CounterpartyStage(rows, rules, accounts)
    ensures KeepsOrigin(f)
    ensures forall row, out :: row in rows && out in f(row) ==> out.link.None?
  {
  }

  lemma RulesStageAgrees(raw: seq<Row>, rows: seq<Row>, transactions: set<TransactionId>, c: Context, d: Context)
    requires From(rows, raw) && forall row :: row in raw ==> row.transaction in transactions
    requires RulesAgree(c.rules, d.rules, transactions) && c.accounts == d.accounts
    ensures ApplyRules(rows, c.rules, c.accounts) == ApplyRules(rows, d.rules, d.accounts)
    ensures var out := ApplyRules(rows, c.rules, c.accounts); Sorted(out) && Unlinked(out) && From(out, raw)
  {
    var f := CounterpartyStage(rows, c.rules, c.accounts);
    var g := CounterpartyStage(rows, d.rules, d.accounts);
    forall row | row in rows ensures f(row) == g(row) {
      CounterpartyAgrees(raw, rows, transactions, c, d, row);
    }
    ExpandAgrees(f, g, rows);
    CounterpartyUnlinks(rows, f, c.rules, c.accounts);
    RebuiltFrame(f, rows, raw);
  }

  lemma CounterpartyAgrees(raw: seq<Row>, rows: seq<Row>, transactions: set<TransactionId>, c: Context, d: Context,
                           row: Row)
    requires From(rows, raw) && forall row :: row in raw ==> row.transaction in transactions
    requires RulesAgree(c.rules, d.rules, transactions) && c.accounts == d.accounts && row in rows
    ensures CounterpartyStage(rows, c.rules, c.accounts)(row) == CounterpartyStage(rows, d.rules, d.accounts)(row)
  {
    assert Traces(row, raw);
    SafeRuleAgrees(rows, transactions, c, d, row.transaction);
  }

  lemma SplitStageAgrees(raw: seq<Row>, rows: seq<Row>, a: Splits, b: Splits)
    requires From(rows, raw) && Sorted(rows) && Unlinked(rows)
    requires forall row :: row in raw ==> SameEntry(a, b, Base(row.posting))
    ensures SplitRows(rows, a) == SplitRows(rows, b)
    ensures var out := SplitRows(rows, a); Sorted(out) && Unlinked(out) && From(out, raw)
  {
    SplitsNormal(rows, a);
    SplitsNormal(rows, b);
    var f, g := SplitStage(a), SplitStage(b);
    forall row | row in rows ensures f(row) == g(row) {
      assert Traces(row, raw);
    }
    ExpandAgrees(f, g, rows);
    SplitKeepsOrigin(a);
    forall row, out | row in rows && out in f(row) ensures out.link.None? {
      if row.posting.Stored? && row.posting.key in a {
        Locality.LegRowsKeepTransaction(row, a[row.posting.key], 0, out);
      }
    }
    RebuiltFrame(f, rows, raw);
  }

  lemma OverrideStageAgrees(raw: seq<Row>, rows: seq<Row>, a: Overrides, b: Overrides)
    requires From(rows, raw) && Sorted(rows) && Unlinked(rows)
    requires forall row, id :: row in raw && Base(id) == Base(row.posting) ==> SameEntry(a, b, id)
    ensures OverrideRows(rows, a) == OverrideRows(rows, b)
    ensures var out := OverrideRows(rows, a); Sorted(out) && Unlinked(out) && From(out, raw)
  {
    OverridesNormal(rows, a);
    OverridesNormal(rows, b);
    var f, g := OverrideStage(a), OverrideStage(b);
    forall row | row in rows ensures OverrideRow(row, a) == OverrideRow(row, b) {
      assert Traces(row, raw);
      var source :| source in raw && Base(row.posting) == Base(source.posting);
      assert SameEntry(a, b, row.posting);
    }
    ExpandAgrees(f, g, rows);
    RebuiltFrame(f, rows, raw);
  }

  lemma MergeStageAgrees(raw: seq<Row>, rows: seq<Row>, transactions: set<TransactionId>, a: seq<Merge>, b: seq<Merge>)
    requires From(rows, raw) && Sorted(rows) && Unlinked(rows)
    requires forall row :: row in raw ==> row.transaction in transactions
    requires forall t :: t in transactions ==>
      (t in Dropped(a) <==> t in Dropped(b)) && SameEntry(Descriptions(a), Descriptions(b), t)
    ensures MergeRows(rows, a) == MergeRows(rows, b)
    ensures From(MergeRows(rows, a), raw)
  {
    MergesNormal(rows, a);
    MergesNormal(rows, b);
    var f, g := MergeStage(Dropped(a), Descriptions(a)), MergeStage(Dropped(b), Descriptions(b));
    forall row | row in rows ensures f(row) == g(row) {
      MergedAgrees(raw, rows, transactions, a, b, row);
    }
    ExpandAgrees(f, g, rows);
    RebuiltFrame(f, rows, raw);
  }

  lemma MergedAgrees(raw: seq<Row>, rows: seq<Row>, transactions: set<TransactionId>, a: seq<Merge>, b: seq<Merge>,
                     row: Row)
    requires From(rows, raw) && row in rows && forall x :: x in raw ==> x.transaction in transactions
    requires forall t :: t in transactions ==>
      (t in Dropped(a) <==> t in Dropped(b)) && SameEntry(Descriptions(a), Descriptions(b), t)
    ensures MergeStage(Dropped(a), Descriptions(a))(row) == MergeStage(Dropped(b), Descriptions(b))(row)
  {
    assert Traces(row, raw);
    assert row.transaction in transactions;
    assert SameEntry(Descriptions(a), Descriptions(b), row.transaction);
  }

  /** The frame as it reaches the split stage, and as it reaches the link stage. */
  function BeforeSplits(raw: seq<Row>, c: Context): seq<Row> {
    ApplyRules(ApplyCategoryRedirects(raw, c.redirects), c.rules, c.accounts)
  }

  function BeforeLinks(raw: seq<Row>, c: Context, o: Overrides): seq<Row> {
    MergeRows(OverrideRows(SplitRows(BeforeSplits(raw, c), c.splits), o), c.merges)
  }

  lemma BeforeSplitsAgree(raw: seq<Row>, transactions: set<TransactionId>, c: Context, o: Overrides, d: Context,
                          p: Overrides)
    requires Agree(raw, transactions, c, o, d, p)
    ensures BeforeSplits(raw, c) == BeforeSplits(raw, d)
    ensures var rows := BeforeSplits(raw, c); Sorted(rows) && Unlinked(rows) && From(rows, raw)
  {
    RedirectsAgree(raw, c.redirects, d.redirects);
    RulesStageAgrees(raw, ApplyCategoryRedirects(raw, c.redirects), transactions, c, d);
  }

  lemma BeforeLinksAgree(raw: seq<Row>, transactions: set<TransactionId>, c: Context, o: Overrides, d: Context,
                         p: Overrides)
    requires Agree(raw, transactions, c, o, d, p)
    ensures BeforeLinks(raw, c, o) == BeforeLinks(raw, d, p)
    ensures From(BeforeLinks(raw, c, o), raw)
  {
    BeforeSplitsAgree(raw, transactions, c, o, d, p);
    var r1 := BeforeSplits(raw, c);
    SplitStageAgrees(raw, r1, c.splits, d.splits);
    var r2 := SplitRows(r1, c.splits);
    OverrideStageAgrees(raw, r2, o, p);
    forall t | t in transactions
      ensures t in Dropped(c.merges) <==> t in Dropped(d.merges)
      ensures SameEntry(Descriptions(c.merges), Descriptions(d.merges), t)
    {
      assert TransactionAgrees(t, c, d);
    }
    MergeStageAgrees(raw, OverrideRows(r2, o), transactions, c.merges, d.merges);
  }

  lemma LinkStageAgrees(raw: seq<Row>, rows: seq<Row>, transactions: set<TransactionId>, a: seq<TransferLink>,
                        b: seq<TransferLink>)
    requires From(rows, raw) && forall row :: row in raw ==> row.transaction in transactions
    requires forall t :: t in transactions ==> LinkFor(a, t) == LinkFor(b, t)
    ensures ApplyTransferLinks(rows, a) == ApplyTransferLinks(rows, b)
    ensures From(ApplyTransferLinks(rows, a), raw)
  {
    var f, g := LinkStage(a), LinkStage(b);
    forall row | row in rows ensures f(row) == g(row) {
      assert Traces(row, raw);
      assert row.transaction in transactions;
    }
    ExpandAgrees(f, g, rows);
    ExpandFrom(f, rows, raw);
  }

  /** Contexts that agree on `raw` resolve it alike. */
  lemma ResolveAgrees(raw: seq<Row>, transactions: set<TransactionId>, c: Context, o: Overrides, d: Context,
                      p: Overrides)
    requires Agree(raw, transactions, c, o, d, p)
    ensures Resolve(raw, c, o) == Resolve(raw, d, p)
    ensures From(Resolve(raw, c, o), raw)
  {
    ResolveUnfolds(raw, c, o);
    ResolveUnfolds(raw, d, p);
    BeforeLinksAgree(raw, transactions, c, o, d, p);
    forall t | t in transactions ensures LinkFor(c.links, t) == LinkFor(d.links, t) {
      assert TransactionAgrees(t, c, d);
    }
    LinkStageAgrees(raw, BeforeLinks(raw, c, o), transactions, c.links, d.links);
  }

  lemma {:induction false} ManualOverrideAgrees(legs: seq<Row>, a: Overrides, b: Overrides)
    requires forall row :: row in legs ==> SameEntry(a, b, row.posting)
    ensures ManualOverridePosting(legs, a) == ManualOverridePosting(legs, b)
    ensures var id := ManualOverridePosting(legs, a); id.Some? ==> exists row :: row in legs && row.posting == id.value
  {
    if legs != [] {
      ManualOverrideAgrees(legs[1..], a, b);
      assert SameEntry(a, b, legs[0].posting);
      var rest := ManualOverridePosting(legs[1..], a);
      if rest.Some? {
        var row :| row in legs[1..] && row.posting == rest.value;
        assert row in legs && SameEntry(a, b, row.posting);
      }
      assert legs[0] in legs;
    }
  }

  lemma DisplayOfAgrees(row: Row, resolved: seq<Row>, raw: seq<Row>, transactions: set<TransactionId>,
                        c: Context, o: Overrides, d: Context, p: Overrides)
    requires Agree(raw, transactions, c, o, d, p) && From(resolved, raw) && row in resolved
    ensures DisplayOf(row, resolved, raw, c, o) == DisplayOf(row, resolved, raw, d, p)
  {
    assert Traces(row, raw);
    var t := row.transaction;
    assert t in transactions;
    var legs := Restrict(resolved, {t});
    forall leg | leg in legs ensures SameEntry(o, p, leg.posting) {
      RestrictMembers(resolved, {t}, leg);
      assert Traces(leg, raw);
    }
    ManualOverrideAgrees(legs, o, p);
    SafeRuleAgrees(raw, transactions, c, d, t);
    assert ExcludedFromSomeRule(c.rules, t) == ExcludedFromSomeRule(d.rules, t);
    assert SameEntry(o, p, row.posting);
  }

  lemma {:induction false} DisplayAllAgrees(rows: seq<Row>, resolved: seq<Row>, raw: seq<Row>,
                                            transactions: set<TransactionId>, c: Context, o: Overrides, d: Context,
                                            p: Overrides)
    requires Agree(raw, transactions, c, o, d, p) && From(resolved, raw)
    requires forall row :: row in rows ==> row in resolved
    ensures DisplayAll(rows, resolved, raw, c, o) == DisplayAll(rows, resolved, raw, d, p)
  {
    if rows != [] {
      assert rows[0] in rows;
      DisplayOfAgrees(rows[0], resolved, raw, transactions, c, o, d, p);
      DisplayAllAgrees(rows[1..], resolved, raw, transactions, c, o, d, p);
    }
  }

  /** Contexts that agree on `raw` render it alike, derived flags included. */
  lemma DisplayRowsAgree(raw: seq<Row>, transactions: set<TransactionId>, c: Context, o: Overrides, d: Context,
                         p: Overrides)
    requires Agree(raw, transactions, c, o, d, p)
    ensures DisplayRows(raw, c, o) == DisplayRows(raw, d, p)
  {
    ResolveAgrees(raw, transactions, c, o, d, p);
    var resolved := Resolve(raw, c, o);
    DisplayAllAgrees(resolved, resolved, raw, transactions, c, o, d, p);
  }
}
