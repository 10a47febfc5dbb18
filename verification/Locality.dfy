/** Resolving some whole transactions gives exactly what resolving everything gives for them. */
module Locality {
  import opened Frame
  import opened Categorization
  import opened Linking
  import opened Resolution

  lemma SafeRuleLocal(rows: seq<Row>, rules: seq<TransferRule>, accounts: map<string, AccountKind>,
                      keep: set<TransactionId>, t: TransactionId)
    requires t in keep
    ensures SafeRule(Restrict(rows, keep), rules, accounts, t) == SafeRule(rows, rules, accounts, t)
  {
    RestrictTwice(rows, keep, {t});
  }

  lemma LegRowsKeepTransaction(row: Row, legs: seq<Leg>, from: nat, out: Row)
    requires out in LegRows(row, legs, from)
    ensures out.transaction == row.transaction
    ensures exists n :: from <= n < |legs| && out == LegRow(row, legs[n], n)
    decreases |legs| - from
  {
    if from < |legs| && out != LegRow(row, legs[from], from) {
      LegRowsKeepTransaction(row, legs, from + 1, out);
    }
  }

  lemma SplitKeepsTransaction(splits: Splits)
    ensures KeepsTransaction(SplitStage(splits))
  {
    forall row: Row, out | out in SplitStage(splits)(row) ensures out.transaction == row.transaction {
      if row.posting.Stored? && row.posting.key in splits {
        LegRowsKeepTransaction(row, splits[row.posting.key], 0, out);
      }
    }
  }

  lemma RulesLocal(rows: seq<Row>, rules: seq<TransferRule>, accounts: map<string, AccountKind>,
                   keep: set<TransactionId>)
    ensures Restrict(ApplyRules(rows, rules, accounts), keep) == ApplyRules(Restrict(rows, keep), rules, accounts)
  {
    var f := CounterpartyStage(rows, rules, accounts);
    var g := CounterpartyStage(Restrict(rows, keep), rules, accounts);
    RestrictSort(Expand(f, rows), keep);
    RestrictExpand(f, rows, keep);
    forall row | row in Restrict(rows, keep) ensures f(row) == g(row) {
      RestrictMembers(rows, keep, row);
      SafeRuleLocal(rows, rules, accounts, keep, row.transaction);
    }
    ExpandAgrees(f, g, Restrict(rows, keep));
  }

  /** Rebuilding a frame row by row is local, whatever each row becomes. */
  lemma RebuildLocal(f: Row -> seq<Row>, rows: seq<Row>, keep: set<TransactionId>)
    requires KeepsTransaction(f)
    ensures Restrict(Expand(f, rows), keep) == Expand(f, Restrict(rows, keep))
    ensures Restrict(Sort(Expand(f, rows)), keep) == Sort(Expand(f, Restrict(rows, keep)))
  {
    RestrictSort(Expand(f, rows), keep);
    RestrictExpand(f, rows, keep);
  }

  /** Each stage alone is local to a transaction. */
  lemma StageLocal(stage: Stage, rows: seq<Row>, context: Context, overrides: Overrides, keep: set<TransactionId>)
    ensures Restrict(RunStage(stage, rows, context, overrides), keep)
            == RunStage(stage, Restrict(rows, keep), context, overrides)
  {
    match stage {
      case Counterparty => RulesLocal(rows, context.rules, context.accounts, keep);
      case Split =>
        SplitKeepsTransaction(context.splits);
        RebuildLocal(SplitStage(context.splits), rows, keep);
      case ManualEdit => RebuildLocal(OverrideStage(overrides), rows, keep);
      case DuplicateMerge => RebuildLocal(MergeStage(Dropped(context.merges), Descriptions(context.merges)), rows,
                                          keep);
      case TransferMark => RebuildLocal(LinkStage(context.links), rows, keep);
    }
  }

  lemma {:induction false} StagesLocal(stages: seq<Stage>, rows: seq<Row>, context: Context, overrides: Overrides,
                                       keep: set<TransactionId>)
    ensures Restrict(RunStages(stages, rows, context, overrides), keep)
            == RunStages(stages, Restrict(rows, keep), context, overrides)
  {
    if stages != [] {
      var front := stages[..|stages| - 1];
      StagesLocal(front, rows, context, overrides, keep);
      StageLocal(stages[|stages| - 1], RunStages(front, rows, context, overrides), context, overrides, keep);
    }
  }

  lemma RedirectsLocal(rows: seq<Row>, redirects: Redirects, keep: set<TransactionId>)
    ensures Restrict(ApplyCategoryRedirects(rows, redirects), keep)
            == ApplyCategoryRedirects(Restrict(rows, keep), redirects)
  {
    RestrictExpand(RedirectStage(redirects), rows, keep);
  }

  /** The composed pipeline is local: order and contents, for any set of whole transactions. */
  lemma ResolveLocal(raw: seq<Row>, context: Context, overrides: Overrides, keep: set<TransactionId>)
    ensures Restrict(Resolve(raw, context, overrides), keep) == Resolve(Restrict(raw, keep), context, overrides)
  {
    RedirectsLocal(raw, context.redirects, keep);
    StagesLocal(OVERLAY_PRECEDENCE, ApplyCategoryRedirects(raw, context.redirects), context, overrides, keep);
  }

  function RestrictDisplay(rows: seq<DisplayRow>, keep: set<TransactionId>): seq<DisplayRow> {
    if rows == [] then []
    else if rows[0].row.transaction in keep then [rows[0]] + RestrictDisplay(rows[1..], keep)
    else RestrictDisplay(rows[1..], keep)
  }

  lemma DisplayOfLocal(row: Row, resolved: seq<Row>, raw: seq<Row>, context: Context, overrides: Overrides,
                       keep: set<TransactionId>)
    requires row.transaction in keep
    ensures DisplayOf(row, resolved, raw, context, overrides)
            == DisplayOf(row, Restrict(resolved, keep), Restrict(raw, keep), context, overrides)
  {
    RestrictTwice(resolved, keep, {row.transaction});
    SafeRuleLocal(raw, context.rules, context.accounts, keep, row.transaction);
  }

  lemma {:induction false} DisplayAllLocal(rows: seq<Row>, resolved: seq<Row>, raw: seq<Row>, context: Context,
                                           overrides: Overrides, keep: set<TransactionId>)
    ensures RestrictDisplay(DisplayAll(rows, resolved, raw, context, overrides), keep)
            == DisplayAll(Restrict(rows, keep), Restrict(resolved, keep), Restrict(raw, keep), context, overrides)
  {
    if rows != [] {
      DisplayAllLocal(rows[1..], resolved, raw, context, overrides, keep);
      var all := DisplayAll(rows, resolved, raw, context, overrides);
      assert all[1..] == DisplayAll(rows[1..], resolved, raw, context, overrides);
      if rows[0].transaction in keep {
        DisplayOfLocal(rows[0], resolved, raw, context, overrides, keep);
        assert Restrict(rows, keep)[1..] == Restrict(rows[1..], keep);
      }
    }
  }

  /** The rendered rows, every derived flag included, are local too. */
  lemma DisplayRowsLocal(raw: seq<Row>, context: Context, overrides: Overrides, keep: set<TransactionId>)
    ensures RestrictDisplay(DisplayRows(raw, context, overrides), keep)
            == DisplayRows(Restrict(raw, keep), context, overrides)
  {
    ResolveLocal(raw, context, overrides, keep);
    var resolved := Resolve(raw, context, overrides);
    DisplayAllLocal(resolved, resolved, raw, context, overrides, keep);
  }
}
