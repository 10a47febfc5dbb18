/** The overlay pipeline and the display rows built from it (accounting/ledger/resolution.py, precedence.py). */
module Resolution {
  import opened Frame
  import opened Categorization
  import opened Linking

  datatype Stage = Counterparty | Split | ManualEdit | DuplicateMerge | TransferMark

  /** The declared order the stages run in. */
  const OVERLAY_PRECEDENCE := [Counterparty, Split, ManualEdit, DuplicateMerge, TransferMark]

  datatype Context = Context(
    rules: seq<TransferRule>,
    accounts: map<string, AccountKind>,
    redirects: Redirects,
    splits: Splits,
    merges: seq<Merge>,
    links: seq<TransferLink>)

  function RunStage(stage: Stage, rows: seq<Row>, context: Context, overrides: Overrides): seq<Row> {
    match stage
    case Counterparty => ApplyRules(rows, context.rules, context.accounts)
    case Split => SplitRows(rows, context.splits)
    case ManualEdit => OverrideRows(rows, overrides)
    case DuplicateMerge => MergeRows(rows, context.merges)
    case TransferMark => ApplyTransferLinks(rows, context.links)
  }

  function RunStages(stages: seq<Stage>, rows: seq<Row>, context: Context, overrides: Overrides): seq<Row> {
    if stages == [] then rows
    else RunStage(stages[|stages| - 1], RunStages(stages[..|stages| - 1], rows, context, overrides), context, overrides)
  }

  function Resolve(raw: seq<Row>, context: Context, overrides: Overrides): seq<Row> {
    RunStages(OVERLAY_PRECEDENCE, ApplyCategoryRedirects(raw, context.redirects), context, overrides)
  }

  /** The taxonomy lookup, then every stage in declared order. */
  method ApplyOverlays(raw: seq<Row>, context: Context, overrides: Overrides) returns (resolved: seq<Row>)
    ensures resolved == Resolve(raw, context, overrides)
  {
    ghost var start := ApplyCategoryRedirects(raw, context.redirects);
    resolved := ApplyCategoryRedirects(raw, context.redirects);
    for i := 0 to |OVERLAY_PRECEDENCE|
      invariant resolved == RunStages(OVERLAY_PRECEDENCE[..i], start, context, overrides)
    {
      assert OVERLAY_PRECEDENCE[..i + 1][..i] == OVERLAY_PRECEDENCE[..i];
      match OVERLAY_PRECEDENCE[i] {
        case Counterparty => resolved := ApplyRules(resolved, context.rules, context.accounts);
        case Split => resolved := ApplyPostingSplits(resolved, context.splits);
        case ManualEdit => resolved := ApplyManualOverrides(resolved, overrides);
        case DuplicateMerge => resolved := ApplyPostingMerges(resolved, context.merges);
        case TransferMark => resolved := ApplyTransferLinks(resolved, context.links);
      }
    }
    assert OVERLAY_PRECEDENCE[..|OVERLAY_PRECEDENCE|] == OVERLAY_PRECEDENCE;
  }

  // ---------- display rows ----------

  datatype DisplayRow = DisplayRow(
    row: Row,
    pendingSource: Option<string>,
    pendingSelected: bool,
    manualOverridePosting: Option<PostingId>,
    resolvedByRule: Option<string>,
    isRealIncomeExpense: bool,
    isExcludedFromRule: bool)

  /** A posting with an account override, which suppresses the rule shown for its transaction. */
  predicate MovesAccount(id: PostingId, overrides: Overrides) {
    id in overrides && overrides[id].account.Some?
  }

  /** Among a transaction's resolved legs, the account override loaded last. */
  function ManualOverridePosting(legs: seq<Row>, overrides: Overrides): (id: Option<PostingId>)
    ensures id.Some? ==> MovesAccount(id.value, overrides)
  {
    if legs == [] then None
    else
      var rest := ManualOverridePosting(legs[1..], overrides);
      var here := legs[0].posting;
      if MovesAccount(here, overrides)
         && (rest.None? || overrides[rest.value].loadOrder < overrides[here].loadOrder)
      then Some(here) else rest
  }

  predicate OnVirtualAccount(row: Row, accounts: map<string, AccountKind>) {
    row.account in accounts && Virtual(accounts[row.account])
  }

  predicate HasVirtualLeg(legs: seq<Row>, accounts: map<string, AccountKind>) {
    exists i :: 0 <= i < |legs| && OnVirtualAccount(legs[i], accounts)
  }

  predicate ExcludedFromSomeRule(rules: seq<TransferRule>, transaction: TransactionId) {
    exists i :: 0 <= i < |rules| && transaction in rules[i].excluded
  }

  function DisplayOf(row: Row, resolved: seq<Row>, raw: seq<Row>, context: Context, overrides: Overrides): DisplayRow {
    var legs := Restrict(resolved, {row.transaction});
    var manual := ManualOverridePosting(legs, overrides);
    var rule := SafeRule(raw, context.rules, context.accounts, row.transaction);
    DisplayRow(
      row,
      if row.posting in overrides then overrides[row.posting].pendingSource else None,
      if row.posting in overrides then overrides[row.posting].pendingSelected else true,
      manual,
      if manual.Some? || rule.None? then None else Some(rule.value.id),
      !OnVirtualAccount(row, context.accounts) && HasVirtualLeg(legs, context.accounts) && row.link.None?,
      ExcludedFromSomeRule(context.rules, row.transaction))
  }

  function DisplayAll(rows: seq<Row>, resolved: seq<Row>, raw: seq<Row>, context: Context, overrides: Overrides)
    : (out: seq<DisplayRow>)
    ensures |out| == |rows|
  {
    if rows == [] then []
    else [DisplayOf(rows[0], resolved, raw, context, overrides)]
         + DisplayAll(rows[1..], resolved, raw, context, overrides)
  }

  /** Resolve, then render every resolved row. */
  function DisplayRows(raw: seq<Row>, context: Context, overrides: Overrides): seq<DisplayRow> {
    var resolved := Resolve(raw, context, overrides);
    DisplayAll(resolved, resolved, raw, context, overrides)
  }
}
