/** The overlay stages: what each does to the frame (accounting/ledger/categorization.py). */
module Categorization {
  import opened Frame

  // ---------- accounts ----------

  datatype AccountKind =
    | Checking | Savings | CreditCard | Vault | Cash | Loan
    | IncomeSource | ExpensePayee | ExternalInvestment | OtherAsset

  /** Kinds a statement can be imported for; a rule never repoints onto one. */
  predicate Importable(kind: AccountKind) {
    kind.Checking? || kind.Savings? || kind.CreditCard? || kind.Vault?
  }

  /** Counterparty kinds money never actually sits in. */
  predicate Virtual(kind: AccountKind) {
    kind.IncomeSource? || kind.ExpensePayee?
  }

  const UNCATEGORIZED_EXPENSE := "uncategorized:expense"
  const UNCATEGORIZED_INCOME := "uncategorized:income"

  predicate Placeholder(account: string) {
    account == UNCATEGORIZED_EXPENSE || account == UNCATEGORIZED_INCOME
  }

  // ---------- taxonomy redirects ----------

  type Redirects = map<string, Option<string>>

  function Redirected(category: Option<string>, redirects: Redirects): Option<string> {
    match category
    case None => None
    case Some(key) => if key in redirects then redirects[key] else category
  }

  function RedirectRow(row: Row, redirects: Redirects): Row {
    row.(category := Redirected(row.category, redirects), subcategory := Redirected(row.subcategory, redirects))
  }

  function RedirectStage(redirects: Redirects): Row -> seq<Row> {
    (row: Row) => [RedirectRow(row, redirects)]
  }

  function ApplyCategoryRedirects(rows: seq<Row>, redirects: Redirects): seq<Row> {
    if redirects == map[] || rows == [] then rows else Expand(RedirectStage(redirects), rows)
  }

  // ---------- counterparty rules ----------

  datatype TransferRule = TransferRule(
    id: string,
    contains: string,
    account: Option<string>,
    counterparty: Option<string>,
    priority: int,
    active: bool,
    excluded: set<TransactionId>)

  function LowerChar(c: char): char {
    if 'A' <= c <= 'Z' then c - 'A' + 'a' else c
  }

  function Lower(text: string): string {
    if text == [] then [] else [LowerChar(text[0])] + Lower(text[1..])
  }

  predicate Contains(text: string, part: string) {
    part <= text || (text != [] && Contains(text[1..], part))
  }

  predicate RuleMatches(rule: TransferRule, leg: Row) {
    && rule.active
    && Contains(Lower(leg.description), Lower(rule.contains))
    && (rule.account.None? || rule.account.value == leg.account)
    && leg.transaction !in rule.excluded
  }

  /** Lowest priority number wins; equal priorities fall back to the rule id. */
  predicate RuleBefore(a: TransferRule, b: TransferRule) {
    a.priority < b.priority || (a.priority == b.priority && TextLe(a.id, b.id))
  }

  /** The first matching rule in `(priority, id)` order. */
  function BestRule(rules: seq<TransferRule>, leg: Row): Option<TransferRule> {
    if rules == [] then None
    else
      var rest := BestRule(rules[1..], leg);
      if RuleMatches(rules[0], leg) && (rest.None? || RuleBefore(rules[0], rest.value))
      then Some(rules[0]) else rest
  }

  /** The real leg of a two-leg transaction with exactly one placeholder leg. */
  function RealLeg(rows: seq<Row>, transaction: TransactionId): Option<Row> {
    var legs := Restrict(rows, {transaction});
    if |legs| != 2 then None
    else if Placeholder(legs[0].account) && !Placeholder(legs[1].account) then Some(legs[1])
    else if Placeholder(legs[1].account) && !Placeholder(legs[0].account) then Some(legs[0])
    else None
  }

  /** The rule a transaction is resolved by, whatever its counterparty. */
  function RuleMatch(rows: seq<Row>, rules: seq<TransferRule>, transaction: TransactionId): Option<TransferRule> {
    var leg := RealLeg(rows, transaction);
    if leg.None? then None else BestRule(rules, leg.value)
  }

  predicate SafeCounterparty(rule: TransferRule, accounts: map<string, AccountKind>) {
    rule.counterparty.Some? && rule.counterparty.value in accounts && !Importable(accounts[rule.counterparty.value])
  }

  /** The winning rule, dropped unless its counterparty is an existing account nothing is imported into. */
  function SafeRule(rows: seq<Row>, rules: seq<TransferRule>, accounts: map<string, AccountKind>,
                    transaction: TransactionId): Option<TransferRule> {
    var rule := RuleMatch(rows, rules, transaction);
    if rule.Some? && SafeCounterparty(rule.value, accounts) then rule else None
  }

  function CounterpartyRow(row: Row, rule: Option<TransferRule>): Row {
    var schemaRow := row.(link := None);
    if Placeholder(row.account) && rule.Some? && rule.value.counterparty.Some?
    then schemaRow.(account := rule.value.counterparty.value) else schemaRow
  }

  function CounterpartyStage(rows: seq<Row>, rules: seq<TransferRule>, accounts: map<string, AccountKind>)
    : Row -> seq<Row>
  {
    (row: Row) => [CounterpartyRow(row, SafeRule(rows, rules, accounts, row.transaction))]
  }

  function ApplyRules(rows: seq<Row>, rules: seq<TransferRule>, accounts: map<string, AccountKind>): seq<Row> {
    Sort(Expand(CounterpartyStage(rows, rules, accounts), rows))
  }

  // ---------- splits ----------

  datatype Leg = Leg(amount: int, category: Option<string>, subcategory: Option<string>, description: string)

  type Splits = map<string, seq<Leg>>

  function LegRow(row: Row, leg: Leg, index: nat): Row {
    row.(
      posting := SplitLeg(Base(row.posting), index),
      amount := leg.amount,
      category := leg.category,
      subcategory := leg.subcategory,
      description := if leg.description != "" then leg.description else row.description,
      link := None)
  }

  function LegRows(row: Row, legs: seq<Leg>, from: nat): seq<Row>
    decreases |legs| - from
  {
    if from >= |legs| then [] else [LegRow(row, legs[from], from)] + LegRows(row, legs, from + 1)
  }

  function SplitStage(splits: Splits): Row -> seq<Row> {
    (row: Row) =>
      if row.posting.Stored? && row.posting.key in splits
      then LegRows(row, splits[row.posting.key], 0)
      else [row.(link := None)]
  }

  function SplitRows(rows: seq<Row>, splits: Splits): seq<Row> {
    if splits == map[] then rows else Sort(Expand(SplitStage(splits), rows))
  }

  lemma {:induction false} LegRowsAt(row: Row, legs: seq<Leg>, from: nat, index: nat)
    requires from <= index < |legs|
    ensures |LegRows(row, legs, from)| == |legs| - from
    ensures LegRows(row, legs, from)[index - from] == LegRow(row, legs[index], index)
    decreases |legs| - from
  {
    if from < index {
      LegRowsAt(row, legs, from + 1, index);
    } else if from + 1 < |legs| {
      LegRowsAt(row, legs, from + 1, from + 1);
    }
  }

  lemma {:induction false} LegRowsSnoc(row: Row, legs: seq<Leg>, from: nat, last: nat)
    requires from <= last < |legs|
    ensures LegRows(row, legs[..last + 1], from) == LegRows(row, legs[..last], from) + [LegRow(row, legs[last], last)]
    decreases last - from
  {
    if from < last {
      LegRowsSnoc(row, legs, from + 1, last);
    } else {
      assert LegRows(row, legs[..last + 1], last + 1) == [];
      assert LegRows(row, legs[..last], from) == [];
    }
  }

  lemma {:induction false} ExpandSnoc(f: Row -> seq<Row>, rows: seq<Row>, n: nat)
    requires n < |rows|
    ensures Expand(f, rows[..n + 1]) == Expand(f, rows[..n]) + f(rows[n])
  {
    if n == 0 {
      assert rows[..1][1..] == [] && rows[..0] == [];
      assert rows[..1][0] == rows[0];
      assert Expand(f, rows[..1]) == f(rows[0]) + [];
    } else {
      ExpandSnoc(f, rows[1..], n - 1);
      assert rows[..n + 1][1..] == rows[1..][..n];
      assert rows[..n][1..] == rows[1..][..n - 1];
      assert rows[..n + 1][0] == rows[..n][0] == rows[0];
    }
  }

  /** Replace each split posting by its legs, row by row, then rebuild the frame in order. */
  method ApplyPostingSplits(rows: seq<Row>, splits: Splits) returns (result: seq<Row>)
    ensures result == SplitRows(rows, splits)
  {
    if splits == map[] {
      return rows;
    }
    var built: seq<Row> := [];
    for i := 0 to |rows|
      invariant built == Expand(SplitStage(splits), rows[..i])
    {
      var row := rows[i];
      ExpandSnoc(SplitStage(splits), rows, i);
      if row.posting.Stored? && row.posting.key in splits {
        var legs := splits[row.posting.key];
        ghost var before := built;
        for n := 0 to |legs|
          invariant built == before + LegRows(row, legs[..n], 0)
        {
          LegRowsSnoc(row, legs, 0, n);
          built := built + [LegRow(row, legs[n], n)];
        }
        assert legs[..|legs|] == legs;
      } else {
        built := built + [row.(link := None)];
      }
    }
    assert rows[..|rows|] == rows;
    result := Sort(built);
  }

  // ---------- manual overrides ----------

  datatype Override = Override(
    account: Option<string>,
    category: Option<string>,
    subcategory: Option<string>,
    tags: Option<set<string>>,
    pendingSource: Option<string>,
    pendingSelected: bool,
    loadOrder: nat)

  type Overrides = map<PostingId, Override>

  function OverrideRow(row: Row, overrides: Overrides): Row {
    var schemaRow := row.(link := None);
    if row.posting !in overrides then schemaRow
    else
      var edit := overrides[row.posting];
      schemaRow.(
        account := if edit.account.Some? then edit.account.value else row.account,
        category := if edit.category.Some? then edit.category else row.category,
        subcategory := if edit.subcategory.Some? then edit.subcategory else row.subcategory,
        tags := if edit.tags.Some? then edit.tags.value else row.tags)
  }

  function OverrideStage(overrides: Overrides): Row -> seq<Row> {
    (row: Row) => [OverrideRow(row, overrides)]
  }

  function OverrideRows(rows: seq<Row>, overrides: Overrides): seq<Row> {
    if overrides == map[] then rows else Sort(Expand(OverrideStage(overrides), rows))
  }

  lemma {:induction false} ExpandSingletons(f: Row -> seq<Row>, rows: seq<Row>, n: nat)
    requires forall row :: |f(row)| == 1
    requires n < |rows|
    ensures |Expand(f, rows)| == |rows| && Expand(f, rows)[n] == f(rows[n])[0]
  {
    if n > 0 {
      ExpandSingletons(f, rows[1..], n - 1);
    } else if |rows| > 1 {
      ExpandSingletons(f, rows[1..], 0);
    }
  }

  /** Overwrite each overridden row's set fields in place, then rebuild the frame in order. */
  method ApplyManualOverrides(rows: seq<Row>, overrides: Overrides) returns (result: seq<Row>)
    ensures result == OverrideRows(rows, overrides)
  {
    if overrides == map[] {
      return rows;
    }
    var edited := new Row[|rows|](i requires 0 <= i < |rows| => rows[i]);
    for i := 0 to |rows|
      invariant forall k :: 0 <= k < i ==> edited[k] == OverrideRow(rows[k], overrides)
      invariant forall k :: i <= k < |rows| ==> edited[k] == rows[k]
    {
      edited[i] := edited[i].(link := None);
      if edited[i].posting in overrides {
        var edit := overrides[edited[i].posting];
        if edit.account.Some? { edited[i] := edited[i].(account := edit.account.value); }
        if edit.category.Some? { edited[i] := edited[i].(category := edit.category); }
        if edit.subcategory.Some? { edited[i] := edited[i].(subcategory := edit.subcategory); }
        if edit.tags.Some? { edited[i] := edited[i].(tags := edit.tags.value); }
      }
    }
    forall n | 0 <= n < |rows|
      ensures |Expand(OverrideStage(overrides), rows)| == |rows|
      ensures edited[..][n] == Expand(OverrideStage(overrides), rows)[n]
    {
      ExpandSingletons(OverrideStage(overrides), rows, n);
    }
    assert |rows| == 0 ==> Expand(OverrideStage(overrides), rows) == [];
    assert edited[..] == Expand(OverrideStage(overrides), rows);
    result := Sort(edited[..]);
  }

  // ---------- merges ----------

  datatype Merge = Merge(kept: TransactionId, duplicates: set<TransactionId>, description: Option<string>)

  function Dropped(merges: seq<Merge>): set<TransactionId> {
    if merges == [] then {} else Dropped(merges[..|merges| - 1]) + merges[|merges| - 1].duplicates
  }

  /** Later merges win over earlier ones that keep the same transaction. */
  function Descriptions(merges: seq<Merge>): map<TransactionId, string> {
    if merges == [] then map[]
    else
      var last := merges[|merges| - 1];
      var earlier := Descriptions(merges[..|merges| - 1]);
      if last.description.Some? then earlier[last.kept := last.description.value] else earlier
  }

  function MergeStage(dropped: set<TransactionId>, descriptions: map<TransactionId, string>): Row -> seq<Row> {
    (row: Row) =>
      if row.transaction in dropped then []
      else if row.transaction in descriptions then [row.(description := descriptions[row.transaction])]
      else [row]
  }

  function MergeRows(rows: seq<Row>, merges: seq<Merge>): seq<Row> {
    if merges == [] then rows
    else
      var kept := Expand(MergeStage(Dropped(merges), Descriptions(merges)), rows);
      if Descriptions(merges) == map[] then kept else Sort(kept)
  }

  /** Collect what every merge drops and renames, then filter the frame once. */
  method ApplyPostingMerges(rows: seq<Row>, merges: seq<Merge>) returns (result: seq<Row>)
    ensures result == MergeRows(rows, merges)
  {
    if merges == [] {
      return rows;
    }
    var dropped: set<TransactionId> := {};
    var descriptions: map<TransactionId, string> := map[];
    for i := 0 to |merges|
      invariant dropped == Dropped(merges[..i])
      invariant descriptions == Descriptions(merges[..i])
    {
      assert merges[..i + 1][..i] == merges[..i];
      dropped := dropped + merges[i].duplicates;
      if merges[i].description.Some? {
        descriptions := descriptions[merges[i].kept := merges[i].description.value];
      }
    }
    assert merges[..|merges|] == merges;
    result := Expand(MergeStage(dropped, descriptions), rows);
    if descriptions != map[] {
      result := Sort(result);
    }
  }
}
