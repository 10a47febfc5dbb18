/** The one filter every income and expense figure goes through (accounting/dashboard/income_statement.py). */
module IncomeStatement {
  import opened Frame
  import opened Categorization
  import opened Resolution
  import Display

  /** The transactions with a leg on a payee or income source. */
  function VirtualSiblings(rows: seq<Row>, accounts: map<string, AccountKind>): set<TransactionId> {
    set i | 0 <= i < |rows| && OnVirtualAccount(rows[i], accounts) :: rows[i].transaction
  }

  /** The legs on a real account of a transaction that reaches a virtual one and is no confirmed transfer. */
  function RealIncomeExpenseLegs(rows: seq<Row>, accounts: map<string, AccountKind>): seq<Row> {
    Kept(rows, VirtualSiblings(rows, accounts), accounts)
  }

  function Kept(rows: seq<Row>, siblings: set<TransactionId>, accounts: map<string, AccountKind>): seq<Row> {
    if rows == [] then []
    else (if rows[0].transaction in siblings && !OnVirtualAccount(rows[0], accounts) && rows[0].link.None?
          then [rows[0]] else [])
         + Kept(rows[1..], siblings, accounts)
  }

  /** The resolved rows shown flagged as real income or expense. */
  function Flagged(shown: seq<DisplayRow>): seq<Row> {
    if shown == [] then []
    else (if shown[0].isRealIncomeExpense then [shown[0].row] else []) + Flagged(shown[1..])
  }

  lemma SiblingIffLeg(rows: seq<Row>, accounts: map<string, AccountKind>, t: TransactionId)
    ensures t in VirtualSiblings(rows, accounts) <==> HasVirtualLeg(Restrict(rows, {t}), accounts)
  {
    Display.VirtualLegs(rows, accounts, t);
  }

  lemma {:induction false} FlaggedAreKept(rows: seq<Row>, resolved: seq<Row>, raw: seq<Row>, context: Context,
                                          overrides: Overrides)
    ensures Flagged(DisplayAll(rows, resolved, raw, context, overrides))
         == Kept(rows, VirtualSiblings(resolved, context.accounts), context.accounts)
  {
    if rows != [] {
      FlaggedAreKept(rows[1..], resolved, raw, context, overrides);
      SiblingIffLeg(resolved, context.accounts, rows[0].transaction);
      var shown := DisplayAll(rows, resolved, raw, context, overrides);
      assert shown[1..] == DisplayAll(rows[1..], resolved, raw, context, overrides);
    }
  }

  /** The flag stored with each resolved posting selects exactly the legs the income statement sums. */
  lemma DisplayMirrorsIncomeStatement(raw: seq<Row>, context: Context, overrides: Overrides)
    ensures Flagged(DisplayRows(raw, context, overrides))
         == RealIncomeExpenseLegs(Resolve(raw, context, overrides), context.accounts)
  {
    var resolved := Resolve(raw, context, overrides);
    FlaggedAreKept(resolved, resolved, raw, context, overrides);
  }

  /** An account money is earned from or spent at. */
  ghost predicate PayeeOrSource(row: Row, accounts: map<string, AccountKind>) {
    row.account in accounts && (accounts[row.account] == IncomeSource || accounts[row.account] == ExpensePayee)
  }

  /**
   * A posting is real income or expense exactly if it is on no such account itself, another leg of its transaction is,
   * and it is no confirmed transfer.
   */
  lemma FlagExactly(row: Row, resolved: seq<Row>, raw: seq<Row>, context: Context, overrides: Overrides)
    ensures DisplayOf(row, resolved, raw, context, overrides).isRealIncomeExpense
      <==> (!PayeeOrSource(row, context.accounts) && row.link.None?
            && exists k :: 0 <= k < |resolved| && resolved[k].transaction == row.transaction
                 && PayeeOrSource(resolved[k], context.accounts))
  {
    Display.VirtualLegs(resolved, context.accounts, row.transaction);
  }
}
