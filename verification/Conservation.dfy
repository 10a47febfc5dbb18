/** What the pipeline keeps: each surviving transaction's money, and every importable account's balance. */
module Conservation {
  import opened Frame
  import opened Categorization
  import opened Linking
  import opened Resolution
  import Locality
  import Agreement

  function Sum(weight: Row -> int, rows: seq<Row>): int {
    if rows == [] then 0 else weight(rows[0]) + Sum(weight, rows[1..])
  }

  /** A transaction's amount in one currency. */
  function InTransaction(t: TransactionId, currency: string): Row -> int {
    (row: Row) => if row.transaction == t && row.currency == currency then row.amount else 0
  }

  function OnAccount(account: string): Row -> int {
    (row: Row) => if row.account == account then row.amount else 0
  }

  function Total(rows: seq<Row>, t: TransactionId, currency: string): int {
    Sum(InTransaction(t, currency), rows)
  }

  function Balance(rows: seq<Row>, account: string): int {
    Sum(OnAccount(account), rows)
  }

  function LegSum(legs: seq<Leg>): int {
    if legs == [] then 0 else legs[0].amount + LegSum(legs[1..])
  }

  /** How much a row's split misses its posting by. */
  function Missing(splits: Splits, t: TransactionId, currency: string): Row -> int {
    (row: Row) =>
      if row.transaction == t && row.currency == currency && row.posting.Stored? && row.posting.key in splits
      then LegSum(splits[row.posting.key]) - row.amount else 0
  }

  /** The transaction's whole split drift in one currency; zero when its splits add up. */
  function Drift(rows: seq<Row>, splits: Splits, t: TransactionId, currency: string): int {
    Sum(Missing(splits, t, currency), rows)
  }

  // ---------- sums over frames ----------

  lemma {:induction false} SumConcat(weight: Row -> int, a: seq<Row>, b: seq<Row>)
    ensures Sum(weight, a + b) == Sum(weight, a) + Sum(weight, b)
  {
    if a == [] {
      assert a + b == b;
    } else {
      SumConcat(weight, a[1..], b);
      assert (a + b)[1..] == a[1..] + b;
    }
  }

  lemma {:induction false} SumInsert(weight: Row -> int, row: Row, rows: seq<Row>)
    ensures Sum(weight, Insert(row, rows)) == weight(row) + Sum(weight, rows)
  {
    if rows == [] {
    } else if RowLe(row, rows[0]) {
      assert ([row] + rows)[1..] == rows;
    } else {
      SumInsert(weight, row, rows[1..]);
      assert ([rows[0]] + Insert(row, rows[1..]))[1..] == Insert(row, rows[1..]);
    }
  }

  lemma {:induction false} SumSort(weight: Row -> int, rows: seq<Row>)
    ensures Sum(weight, Sort(rows)) == Sum(weight, rows)
  {
    if rows != [] {
      SumSort(weight, rows[1..]);
      SumInsert(weight, rows[0], Sort(rows[1..]));
    }
  }

  /** If each row becomes rows of weight `before(row)`, the frame's weights agree. */
  lemma {:induction false} SumExpand(after: Row -> int, before: Row -> int, f: Row -> seq<Row>, rows: seq<Row>)
    requires forall row :: row in rows ==> Sum(after, f(row)) == before(row)
    ensures Sum(after, Expand(f, rows)) == Sum(before, rows)
  {
    if rows != [] {
      assert rows[0] in rows;
      SumExpand(after, before, f, rows[1..]);
      SumConcat(after, f(rows[0]), Expand(f, rows[1..]));
    }
  }

  lemma {:induction false} SumAdds(x: Row -> int, y: Row -> int, z: Row -> int, rows: seq<Row>)
    requires forall row :: row in rows ==> x(row) == y(row) + z(row)
    ensures Sum(x, rows) == Sum(y, rows) + Sum(z, rows)
  {
    if rows != [] {
      assert rows[0] in rows;
      SumAdds(x, y, z, rows[1..]);
    }
  }

  lemma {:induction false} SumZero(weight: Row -> int, rows: seq<Row>)
    requires forall row :: row in rows ==> weight(row) == 0
    ensures Sum(weight, rows) == 0
  {
    if rows != [] {
      assert rows[0] in rows;
      SumZero(weight, rows[1..]);
    }
  }

  // ---------- one stage at a time ----------

  /** A stage that maps rows one to one, leaving id, transaction, amount and currency alone. */
  ghost predicate KeepsMoney(f: Row -> seq<Row>) {
    forall row :: |f(row)| == 1 && SameMoney(row, f(row)[0])
  }

  ghost predicate SameMoney(a: Row, b: Row) {
    a.posting == b.posting && a.transaction == b.transaction && a.amount == b.amount && a.currency == b.currency
  }

  /** A weight that depends on nothing but id, transaction, amount and currency. */
  ghost predicate OnlyMoney(weight: Row -> int) {
    forall a, b :: SameMoney(a, b) ==> weight(a) == weight(b)
  }

  lemma MoneyKept(weight: Row -> int, f: Row -> seq<Row>, rows: seq<Row>)
    requires KeepsMoney(f) && OnlyMoney(weight)
    ensures Sum(weight, Expand(f, rows)) == Sum(weight, rows)
  {
    forall row | row in rows ensures Sum(weight, f(row)) == weight(row) {
      assert f(row) == [f(row)[0]];
      assert SameMoney(row, f(row)[0]);
    }
    SumExpand(weight, weight, f, rows);
  }

  lemma {:induction false} LegRowsSum(row: Row, legs: seq<Leg>, from: nat, t: TransactionId, currency: string)
    requires from <= |legs|
    ensures Sum(InTransaction(t, currency), LegRows(row, legs, from))
            == if row.transaction == t && row.currency == currency then LegSum(legs[from..]) else 0
    decreases |legs| - from
  {
    if from < |legs| {
      LegRowsSum(row, legs, from + 1, t, currency);
      assert LegRows(row, legs, from)[1..] == LegRows(row, legs, from + 1);
      assert legs[from..][1..] == legs[from + 1..];
    }
  }

  lemma SplitTotals(rows: seq<Row>, splits: Splits, t: TransactionId, currency: string)
    ensures Total(SplitRows(rows, splits), t, currency) == Total(rows, t, currency) + Drift(rows, splits, t, currency)
  {
    var w := InTransaction(t, currency);
    var gap := Missing(splits, t, currency);
    if splits == map[] {
      SumZero(gap, rows);
    } else {
      var f := SplitStage(splits);
      var both := (row: Row) => w(row) + gap(row);
      forall row | row in rows ensures Sum(w, f(row)) == both(row) {
        if row.posting.Stored? && row.posting.key in splits {
          var legs := splits[row.posting.key];
          LegRowsSum(row, legs, 0, t, currency);
          assert legs[0..] == legs;
        } else {
          assert f(row) == [row.(link := None)];
        }
      }
      SumExpand(w, both, f, rows);
      SumAdds(both, w, gap, rows);
      SumSort(w, Expand(f, rows));
    }
  }

  lemma MergeTotals(rows: seq<Row>, merges: seq<Merge>, t: TransactionId, currency: string)
    ensures Total(MergeRows(rows, merges), t, currency)
            == if t in Dropped(merges) then 0 else Total(rows, t, currency)
  {
    var w := InTransaction(t, currency);
    var f := MergeStage(Dropped(merges), Descriptions(merges));
    var before := (row: Row) => if row.transaction in Dropped(merges) then 0 else w(row);
    forall row | row in rows ensures Sum(w, f(row)) == before(row) {
      if row.transaction !in Dropped(merges) {
        assert |f(row)| == 1 && f(row) == [f(row)[0]];
      }
    }
    SumExpand(w, before, f, rows);
    SumSort(w, Expand(f, rows));
    if t in Dropped(merges) {
      SumZero(before, rows);
    } else {
      SumAdds(w, before, _ => 0, rows);
      SumZero(_ => 0, rows);
    }
  }

  /** Weights on money survive every stage up to the split. */
  lemma BeforeTheSplit(raw: seq<Row>, context: Context, weight: Row -> int)
    requires OnlyMoney(weight)
    ensures Sum(weight, ApplyRules(ApplyCategoryRedirects(raw, context.redirects), context.rules, context.accounts))
            == Sum(weight, raw)
  {
    Agreement.RedirectsNormal(raw, context.redirects);
    MoneyKept(weight, RedirectStage(context.redirects), raw);
    var r0 := ApplyCategoryRedirects(raw, context.redirects);
    var f := CounterpartyStage(r0, context.rules, context.accounts);
    MoneyKept(weight, f, r0);
    SumSort(weight, Expand(f, r0));
  }

  lemma AfterTheSplit(rows: seq<Row>, context: Context, overrides: Overrides, t: TransactionId, currency: string)
    ensures Total(ApplyTransferLinks(MergeRows(OverrideRows(rows, overrides), context.merges), context.links), t,
                  currency)
            == if t in Dropped(context.merges) then 0 else Total(rows, t, currency)
  {
    var w := InTransaction(t, currency);
    MoneyKept(w, OverrideStage(overrides), rows);
    SumSort(w, Expand(OverrideStage(overrides), rows));
    var edited := OverrideRows(rows, overrides);
    MergeTotals(edited, context.merges, t, currency);
    MoneyKept(w, LinkStage(context.links), MergeRows(edited, context.merges));
  }

  /**
   * What resolving does to a transaction's money, for any overlays: a merged-away duplicate disappears,
   * and a surviving transaction moves by exactly what its splits fail to add up to.
   */
  lemma ResolvedTotal(raw: seq<Row>, context: Context, overrides: Overrides, t: TransactionId, currency: string)
    ensures Total(Resolve(raw, context, overrides), t, currency)
            == if t in Dropped(context.merges) then 0
               else Total(raw, t, currency) + Drift(raw, context.splits, t, currency)
  {
    Agreement.ResolveUnfolds(raw, context, overrides);
    var w, gap := InTransaction(t, currency), Missing(context.splits, t, currency);
    BeforeTheSplit(raw, context, w);
    BeforeTheSplit(raw, context, gap);
    var r1 := ApplyRules(ApplyCategoryRedirects(raw, context.redirects), context.rules, context.accounts);
    SplitTotals(r1, context.splits, t, currency);
    AfterTheSplit(SplitRows(r1, context.splits), context, overrides, t, currency);
  }

  /** The write-time rule: a split's legs add up to the posting they replace. */
  ghost predicate SplitsAddUp(raw: seq<Row>, splits: Splits) {
    forall row :: row in raw && row.posting.Stored? && row.posting.key in splits
      ==> LegSum(splits[row.posting.key]) == row.amount
  }

  /** With splits that add up, a ledger balanced per transaction and currency resolves to a balanced one. */
  lemma ResolvingKeepsTheLedgerBalanced(raw: seq<Row>, context: Context, overrides: Overrides)
    requires SplitsAddUp(raw, context.splits)
    requires forall t, currency :: Total(raw, t, currency) == 0
    ensures forall t, currency :: Total(Resolve(raw, context, overrides), t, currency) == 0
  {
    forall t, currency ensures Total(Resolve(raw, context, overrides), t, currency) == 0 {
      ResolvedTotal(raw, context, overrides, t, currency);
      SumZero(Missing(context.splits, t, currency), raw);
      assert Total(raw, t, currency) == 0;
    }
  }

  // ---------- which transactions survive ----------

  lemma {:induction false} DroppedIsUnion(merges: seq<Merge>, t: TransactionId)
    ensures t in Dropped(merges) <==> exists i :: 0 <= i < |merges| && t in merges[i].duplicates
  {
    if merges != [] {
      var front := merges[..|merges| - 1];
      DroppedIsUnion(front, t);
      if exists i :: 0 <= i < |front| && t in front[i].duplicates {
        var i :| 0 <= i < |front| && t in front[i].duplicates;
        assert t in merges[i].duplicates;
      }
      if t in Dropped(merges) && t !in Dropped(front) {
        assert t in merges[|merges| - 1].duplicates;
      }
      if exists i :: 0 <= i < |merges| && t in merges[i].duplicates {
        var i :| 0 <= i < |merges| && t in merges[i].duplicates;
        if i < |front| { assert t in front[i].duplicates; }
      }
    }
  }

  /** A stage yielding at least one row per row of `t`. */
  lemma KeepsRowsOf(f: Row -> seq<Row>, rows: seq<Row>, t: TransactionId)
    requires KeepsTransaction(f) && forall row :: row in rows && row.transaction == t ==> f(row) != []
    ensures HasRow(rows, t) <==> HasRow(Expand(f, rows), t)
  {
    if HasRow(rows, t) {
      var row :| row in rows && row.transaction == t;
      var out := f(row)[0];
      assert out in f(row);
      ExpandMembers(f, rows, out);
    }
    if HasRow(Expand(f, rows), t) {
      var out :| out in Expand(f, rows) && out.transaction == t;
      ExpandMembers(f, rows, out);
    }
  }

  ghost predicate HasRow(rows: seq<Row>, t: TransactionId) {
    exists row :: row in rows && row.transaction == t
  }

  lemma SortHasRow(rows: seq<Row>, t: TransactionId)
    ensures HasRow(Sort(rows), t) <==> HasRow(rows, t)
  {
    forall row ensures row in Sort(rows) <==> row in rows {
      SortMembers(rows, row);
    }
  }

  lemma RulesHasRow(rows: seq<Row>, context: Context, t: TransactionId)
    ensures HasRow(ApplyRules(rows, context.rules, context.accounts), t) <==> HasRow(rows, t)
  {
    var f := CounterpartyStage(rows, context.rules, context.accounts);
    KeepsRowsOf(f, rows, t);
    SortHasRow(Expand(f, rows), t);
  }

  lemma RedirectsHasRow(rows: seq<Row>, redirects: Redirects, t: TransactionId)
    ensures HasRow(ApplyCategoryRedirects(rows, redirects), t) <==> HasRow(rows, t)
  {
    Agreement.RedirectsNormal(rows, redirects);
    KeepsRowsOf(RedirectStage(redirects), rows, t);
  }

  lemma RowsAfterTheSplit(rows: seq<Row>, context: Context, overrides: Overrides, t: TransactionId)
    ensures HasRow(ApplyTransferLinks(MergeRows(OverrideRows(rows, overrides), context.merges), context.links), t)
            == (HasRow(rows, t) && t !in Dropped(context.merges))
  {
    KeepsRowsOf(OverrideStage(overrides), rows, t);
    SortHasRow(Expand(OverrideStage(overrides), rows), t);
    var edited := OverrideRows(rows, overrides);
    MergeHasRow(edited, context.merges, t);
    KeepsRowsOf(LinkStage(context.links), MergeRows(edited, context.merges), t);
  }

  /** Whole duplicates go, nothing else does, and no transaction is invented. */
  lemma OnlyDuplicatesDisappear(raw: seq<Row>, context: Context, overrides: Overrides, t: TransactionId)
    requires forall key :: key in context.splits ==> context.splits[key] != []
    ensures HasRow(Resolve(raw, context, overrides), t)
            <==> HasRow(raw, t) && !exists i :: 0 <= i < |context.merges| && t in context.merges[i].duplicates
  {
    Agreement.ResolveUnfolds(raw, context, overrides);
    DroppedIsUnion(context.merges, t);
    RedirectsHasRow(raw, context.redirects, t);
    var r0 := ApplyCategoryRedirects(raw, context.redirects);
    RulesHasRow(r0, context, t);
    var r1 := ApplyRules(r0, context.rules, context.accounts);
    SplitHasRow(r1, context.splits, t);
    RowsAfterTheSplit(SplitRows(r1, context.splits), context, overrides, t);
  }

  lemma SplitHasRow(rows: seq<Row>, splits: Splits, t: TransactionId)
    requires forall key :: key in splits ==> splits[key] != []
    ensures HasRow(SplitRows(rows, splits), t) <==> HasRow(rows, t)
  {
    Locality.SplitKeepsTransaction(splits);
    KeepsRowsOf(SplitStage(splits), rows, t);
    SortHasRow(Expand(SplitStage(splits), rows), t);
  }

  lemma MergeHasRow(rows: seq<Row>, merges: seq<Merge>, t: TransactionId)
    ensures HasRow(MergeRows(rows, merges), t) <==> HasRow(rows, t) && t !in Dropped(merges)
  {
    var f := MergeStage(Dropped(merges), Descriptions(merges));
    SortHasRow(Expand(f, rows), t);
    if t in Dropped(merges) {
      DroppedHasNoRow(rows, merges, t);
    } else {
      KeepsRowsOf(f, rows, t);
    }
  }

  lemma DroppedHasNoRow(rows: seq<Row>, merges: seq<Merge>, t: TransactionId)
    requires t in Dropped(merges)
    ensures !HasRow(Expand(MergeStage(Dropped(merges), Descriptions(merges)), rows), t)
  {
    var f := MergeStage(Dropped(merges), Descriptions(merges));
    forall out | out in Expand(f, rows) ensures out.transaction != t {
      ExpandMembers(f, rows, out);
    }
  }

  // ---------- the rule stage ----------

  /** Repointing never moves money onto or off an importable account. */
  lemma RulesKeepImportableBalances(rows: seq<Row>, rules: seq<TransferRule>, accounts: map<string, AccountKind>,
                                    account: string)
    requires account in accounts && Importable(accounts[account]) && !Placeholder(account)
    ensures Balance(ApplyRules(rows, rules, accounts), account) == Balance(rows, account)
  {
    var w, f := OnAccount(account), CounterpartyStage(rows, rules, accounts);
    forall row | row in rows ensures Sum(w, f(row)) == w(row) {
      assert f(row) == [CounterpartyRow(row, SafeRule(rows, rules, accounts, row.transaction))];
    }
    SumExpand(w, w, f, rows);
    SumSort(w, Expand(f, rows));
  }

  lemma SortPair(x: Row, y: Row)
    ensures Sort([x, y]) == if RowLe(x, y) then [x, y] else [y, x]
  {
    assert [x, y][1..] == [y] && [y][1..] == [];
    assert Sort([y]) == Insert(y, []) == [y];
    assert Insert(x, []) == [x];
    assert Sort([x, y]) == Insert(x, [y]);
  }

  lemma {:induction false} BestRuleIgnoresLinks(rules: seq<TransferRule>, leg: Row)
    ensures BestRule(rules, leg.(link := None)) == BestRule(rules, leg)
  {
    if rules != [] {
      BestRuleIgnoresLinks(rules[1..], leg);
    }
  }

  lemma SortLength(rows: seq<Row>)
    ensures |Sort(rows)| == |rows|
  {
    SortContents(rows);
    assert |Sort(rows)| == |multiset(Sort(rows))| && |rows| == |multiset(rows)|;
  }

  lemma ExpandPair(f: Row -> seq<Row>, x: Row, y: Row, x': Row, y': Row)
    requires f(x) == [x'] && f(y) == [y']
    ensures Expand(f, [x, y]) == [x', y']
  {
    assert [x, y][1..] == [y] && [y][1..] == [];
    assert Expand(f, []) == [];
    assert Expand(f, [y]) == [y'];
  }

  lemma LegsOf(rows: seq<Row>, rules: seq<TransferRule>, accounts: map<string, AccountKind>, t: TransactionId)
    ensures Restrict(ApplyRules(rows, rules, accounts), {t})
            == Sort(Expand(CounterpartyStage(rows, rules, accounts), Restrict(rows, {t})))
  {
    var f := CounterpartyStage(rows, rules, accounts);
    RestrictSort(Expand(f, rows), {t});
    RestrictExpand(f, rows, {t});
  }

  lemma {:induction false} ExpandLength(f: Row -> seq<Row>, rows: seq<Row>)
    requires forall row :: |f(row)| == 1
    ensures |Expand(f, rows)| == |rows|
  {
    if rows != [] {
      ExpandLength(f, rows[1..]);
    }
  }

  lemma LegCountAfterRules(rows: seq<Row>, rules: seq<TransferRule>, accounts: map<string, AccountKind>,
                           t: TransactionId)
    ensures |Restrict(ApplyRules(rows, rules, accounts), {t})| == |Restrict(rows, {t})|
  {
    var f := CounterpartyStage(rows, rules, accounts);
    LegsOf(rows, rules, accounts, t);
    ExpandLength(f, Restrict(rows, {t}));
    SortLength(Expand(f, Restrict(rows, {t})));
  }

  /** The two legs of an eligible transaction after the rule stage. */
  lemma PairAfterRules(rows: seq<Row>, rules: seq<TransferRule>, accounts: map<string, AccountKind>, t: TransactionId,
                       x: Row, y: Row)
    requires Restrict(rows, {t}) == [x, y]
    ensures var rule := SafeRule(rows, rules, accounts, t);
      var x', y' := CounterpartyRow(x, rule), CounterpartyRow(y, rule);
      var out := Restrict(ApplyRules(rows, rules, accounts), {t});
      out == [x', y'] || out == [y', x']
  {
    RestrictMembers(rows, {t}, x);
    RestrictMembers(rows, {t}, y);
    assert x in [x, y] && y in [x, y];
    LegsOf(rows, rules, accounts, t);
    var rule := SafeRule(rows, rules, accounts, t);
    var x', y' := CounterpartyRow(x, rule), CounterpartyRow(y, rule);
    ExpandPair(CounterpartyStage(rows, rules, accounts), x, y, x', y');
    SortPair(x', y');
  }

  lemma RuleOutputs(rows: seq<Row>, rules: seq<TransferRule>, accounts: map<string, AccountKind>, row: Row)
    requires row in ApplyRules(rows, rules, accounts)
    ensures row.link.None?
    ensures exists source :: source in rows && source.transaction == row.transaction
              && row == CounterpartyRow(source, SafeRule(rows, rules, accounts, row.transaction))
  {
    var f := CounterpartyStage(rows, rules, accounts);
    SortMembers(Expand(f, rows), row);
    ExpandMembers(f, rows, row);
  }

  lemma NoRuleWithoutPair(out: seq<Row>, rules: seq<TransferRule>, accounts: map<string, AccountKind>, row: Row)
    requires row.link.None? && |Restrict(out, {row.transaction})| != 2
    ensures CounterpartyRow(row, SafeRule(out, rules, accounts, row.transaction)) == row
  {
  }

  /** The pair once repointed: either the placeholder is gone, or the rule that applied had nothing to repoint it to. */
  lemma PairIsSettled(rows: seq<Row>, out: seq<Row>, rules: seq<TransferRule>, accounts: map<string, AccountKind>,
                      t: TransactionId, x: Row, y: Row, row: Row)
    requires Restrict(rows, {t}) == [x, y]
    requires var rule := SafeRule(rows, rules, accounts, t);
      var x', y' := CounterpartyRow(x, rule), CounterpartyRow(y, rule);
      && (Restrict(out, {t}) == [x', y'] || Restrict(out, {t}) == [y', x'])
      && (row == x' || row == y')
    requires row.transaction == t
    ensures CounterpartyRow(row, SafeRule(out, rules, accounts, t)) == row
  {
    BestRuleIgnoresLinks(rules, x);
    BestRuleIgnoresLinks(rules, y);
  }

  /** After the rule stage, no transaction has anything left for a second pass to repoint. */
  lemma NothingLeftToRepoint(rows: seq<Row>, rules: seq<TransferRule>, accounts: map<string, AccountKind>, row: Row)
    requires row in ApplyRules(rows, rules, accounts)
    ensures CounterpartyRow(row, SafeRule(ApplyRules(rows, rules, accounts), rules, accounts, row.transaction)) == row
  {
    var t, out := row.transaction, ApplyRules(rows, rules, accounts);
    RuleOutputs(rows, rules, accounts, row);
    LegCountAfterRules(rows, rules, accounts, t);
    RestrictMembers(out, {t}, row);
    var legs := Restrict(rows, {t});
    if |legs| == 2 {
      assert legs == [legs[0], legs[1]];
      PairAfterRules(rows, rules, accounts, t, legs[0], legs[1]);
      PairIsSettled(rows, out, rules, accounts, t, legs[0], legs[1], row);
    } else {
      NoRuleWithoutPair(out, rules, accounts, row);
    }
  }

  /** Running the rules over their own output changes nothing. */
  lemma RulesAreIdempotent(rows: seq<Row>, rules: seq<TransferRule>, accounts: map<string, AccountKind>)
    ensures ApplyRules(ApplyRules(rows, rules, accounts), rules, accounts) == ApplyRules(rows, rules, accounts)
  {
    var out := ApplyRules(rows, rules, accounts);
    var g := CounterpartyStage(out, rules, accounts);
    forall row | row in out ensures g(row) == [row] {
      NothingLeftToRepoint(rows, rules, accounts, row);
    }
    Agreement.ExpandIdentity(g, out);
    SortSorted(Expand(CounterpartyStage(rows, rules, accounts), rows));
    SortOfSorted(out);
  }
}
