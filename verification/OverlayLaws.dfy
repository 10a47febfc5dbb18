/**
 * What the overlay stages make of a posting, told from the outside: which rule wins and where it points the placeholder
 * leg, and what splits, overrides, merges and links leave in each column (accounting/ledger/categorization.py,
 * transfers.py).
 */
module OverlayLaws {
  import opened Frame
  import opened Categorization
  import opened Resolution

  // ---------- text ----------

  ghost predicate SmallerAt(a: string, b: string, k: int) {
    0 <= k < |a| && k < |b| && a[..k] == b[..k] && a[k] < b[k]
  }

  /** Text order: one is a prefix of the other, or smaller at the first place they differ. */
  lemma {:induction false} TextOrder(a: string, b: string)
    ensures TextLe(a, b) <==> a <= b || exists k :: SmallerAt(a, b, k)
  {
    if a != [] && b != [] {
      TextOrder(a[1..], b[1..]);
      assert a == [a[0]] + a[1..] && b == [b[0]] + b[1..];
      if a[0] < b[0] {
        assert SmallerAt(a, b, 0);
      }
      if k :| SmallerAt(a[1..], b[1..], k) && a[0] == b[0] {
        assert a[..k + 1] == [a[0]] + a[1..][..k] && b[..k + 1] == [b[0]] + b[1..][..k];
        assert SmallerAt(a, b, k + 1);
      }
      if k :| SmallerAt(a, b, k) && k > 0 {
        assert a[1..][..k - 1] == a[..k][1..] && b[1..][..k - 1] == b[..k][1..];
        assert a[0] == a[..k][0] == b[..k][0] == b[0];
        assert SmallerAt(a[1..], b[1..], k - 1);
      }
    }
  }

  ghost predicate OccursAt(text: string, part: string, k: int) {
    0 <= k <= k + |part| <= |text| && text[k..k + |part|] == part
  }

  lemma OccursShift(text: string, part: string, k: nat)
    requires text != []
    ensures OccursAt(text[1..], part, k) <==> OccursAt(text, part, k + 1)
  {
    if k + |part| < |text| {
      assert text[1..][k..k + |part|] == text[k + 1..k + 1 + |part|];
    }
  }

  lemma {:induction false} ContainsIsSubstring(text: string, part: string)
    ensures Contains(text, part) <==> exists k :: OccursAt(text, part, k)
  {
    if part <= text {
      assert OccursAt(text, part, 0);
    } else if text != [] {
      ContainsIsSubstring(text[1..], part);
      if k :| OccursAt(text[1..], part, k) {
        OccursShift(text, part, k);
      }
      if k :| OccursAt(text, part, k) {
        assert k > 0;
        OccursShift(text, part, k - 1);
      }
    }
  }

  lemma {:induction false} LowerAt(text: string)
    ensures |Lower(text)| == |text|
    ensures forall i :: 0 <= i < |text| ==> Lower(text)[i] == LowerChar(text[i])
  {
    if text != [] {
      LowerAt(text[1..]);
    }
  }

  /** `part` is found in `text` from position `k` on, capitals and small letters alike. */
  ghost predicate ReadsAt(text: string, part: string, k: int) {
    0 <= k <= k + |part| <= |text| && forall i :: 0 <= i < |part| ==> LowerChar(text[k + i]) == LowerChar(part[i])
  }

  lemma ReadsIsOccurs(text: string, part: string, k: int)
    ensures OccursAt(Lower(text), Lower(part), k) <==> ReadsAt(text, part, k)
  {
    LowerAt(text);
    LowerAt(part);
    if ReadsAt(text, part, k) {
      assert Lower(text)[k..k + |part|] == Lower(part);
    }
    if OccursAt(Lower(text), Lower(part), k) {
      forall i | 0 <= i < |part| ensures LowerChar(text[k + i]) == LowerChar(part[i]) {
        assert Lower(text)[k..k + |part|][i] == Lower(part)[i];
      }
    }
  }

  // ---------- which rule wins ----------

  /** An active rule whose text is somewhere in the description, for this account or any, not excluded here. */
  lemma RuleMatchesExactly(rule: TransferRule, leg: Row)
    ensures RuleMatches(rule, leg)
      <==> (rule.active
            && (exists k :: ReadsAt(leg.description, rule.contains, k))
            && (rule.account == None || rule.account == Some(leg.account))
            && leg.transaction !in rule.excluded)
  {
    ContainsIsSubstring(Lower(leg.description), Lower(rule.contains));
    if k :| OccursAt(Lower(leg.description), Lower(rule.contains), k) {
      ReadsIsOccurs(leg.description, rule.contains, k);
    }
    if k :| ReadsAt(leg.description, rule.contains, k) {
      ReadsIsOccurs(leg.description, rule.contains, k);
    }
  }

  /** It matches, and every other rule that does has a larger priority number, or the same one and a later id. */
  ghost predicate Wins(rules: seq<TransferRule>, leg: Row, best: TransferRule) {
    && best in rules && RuleMatches(best, leg)
    && forall r :: r in rules && RuleMatches(r, leg) ==>
         best.priority < r.priority || (best.priority == r.priority && TextLe(best.id, r.id))
  }

  /** A leg has a winning rule exactly if some rule matches it. */
  lemma {:induction false} BestRuleWins(rules: seq<TransferRule>, leg: Row)
    ensures BestRule(rules, leg).Some? <==> exists r :: r in rules && RuleMatches(r, leg)
    ensures BestRule(rules, leg).Some? ==> Wins(rules, leg, BestRule(rules, leg).value)
  {
    if rules != [] {
      var first, rest := rules[0], BestRule(rules[1..], leg);
      BestRuleWins(rules[1..], leg);
      assert rules == [first] + rules[1..];
      assert first in rules;
      TextLeTotal(first.id, first.id);
      if rest.Some? {
        TextLeTotal(first.id, rest.value.id);
        assert rest.value in rules;
        forall r | r in rules && RuleMatches(r, leg) && TextLe(first.id, rest.value.id) && TextLe(rest.value.id, r.id)
          ensures TextLe(first.id, r.id)
        {
          TextLeTransitive(first.id, rest.value.id, r.id);
        }
      }
    }
  }

  ghost predicate DistinctRules(rules: seq<TransferRule>) {
    forall a, b :: a in rules && b in rules && a.id == b.id ==> a == b
  }

  lemma OneWinner(rules: seq<TransferRule>, leg: Row, best: TransferRule)
    requires DistinctRules(rules) && Wins(rules, leg, best)
    ensures BestRule(rules, leg) == Some(best)
  {
    BestRuleWins(rules, leg);
    var found := BestRule(rules, leg).value;
    assert found in rules;
    TextLeAntisymmetricIf(found.id, best.id);
  }

  lemma TextLeAntisymmetricIf(a: string, b: string)
    ensures TextLe(a, b) && TextLe(b, a) ==> a == b
  {
    if TextLe(a, b) && TextLe(b, a) {
      TextLeAntisymmetric(a, b);
    }
  }

  // ---------- where it points the placeholder leg ----------

  /** Still on the account a statement row's other side starts on. */
  ghost predicate Unfiled(row: Row) {
    row.account == "uncategorized:expense" || row.account == "uncategorized:income"
  }

  /** The rows at `i` and `j` are the only ones of their transaction. */
  ghost predicate OnlyLegs(rows: seq<Row>, i: nat, j: nat) {
    && i < |rows| && j < |rows| && i != j && rows[i].transaction == rows[j].transaction
    && forall k :: 0 <= k < |rows| && k != i && k != j ==> rows[k].transaction != rows[i].transaction
  }

  lemma TwoLegs(rows: seq<Row>, i: nat, j: nat)
    requires OnlyLegs(rows, i, j) && i < j
    ensures Restrict(rows, {rows[i].transaction}) == [rows[i], rows[j]]
  {
    var keep := {rows[i].transaction};
    var before, between, after := rows[..i], rows[i + 1..j], rows[j + 1..];
    assert rows == before + ([rows[i]] + (between + ([rows[j]] + after)));
    RestrictConcat(before, [rows[i]] + (between + ([rows[j]] + after)), keep);
    RestrictConcat([rows[i]], between + ([rows[j]] + after), keep);
    RestrictConcat(between, [rows[j]] + after, keep);
    RestrictConcat([rows[j]], after, keep);
    RestrictNone(before, keep);
    RestrictNone(between, keep);
    RestrictNone(after, keep);
  }

  lemma RealLegIsTheOther(rows: seq<Row>, p: nat, q: nat)
    requires OnlyLegs(rows, p, q) && Unfiled(rows[p]) && !Unfiled(rows[q])
    ensures RealLeg(rows, rows[p].transaction) == Some(rows[q])
  {
    if p < q {
      TwoLegs(rows, p, q);
    } else {
      TwoLegs(rows, q, p);
    }
  }

  /** The first row of a transaction, and the rest after it. */
  lemma {:induction false} FirstRow(rows: seq<Row>, t: TransactionId) returns (k: nat)
    requires Restrict(rows, {t}) != []
    ensures k < |rows| && rows[k].transaction == t && forall j :: 0 <= j < k ==> rows[j].transaction != t
    ensures Restrict(rows, {t}) == [rows[k]] + Restrict(rows[k + 1..], {t})
  {
    if rows[0].transaction == t {
      k := 0;
    } else {
      var later := FirstRow(rows[1..], t);
      k := later + 1;
      assert rows[1..][later + 1..] == rows[k + 1..];
      forall j | 0 <= j < k ensures rows[j].transaction != t {
        if j > 0 {
          assert rows[1..][j - 1] == rows[j];
        }
      }
    }
  }

  lemma BothRows(rows: seq<Row>, t: TransactionId) returns (i: nat, j: nat)
    requires |Restrict(rows, {t})| == 2
    ensures OnlyLegs(rows, i, j) && rows[i].transaction == t && Restrict(rows, {t}) == [rows[i], rows[j]]
  {
    i := FirstRow(rows, t);
    var rest := rows[i + 1..];
    var later := FirstRow(rest, t);
    j := i + 1 + later;
    forall k | 0 <= k < |rows| && k != i && k != j ensures rows[k].transaction != t {
      if i < k < j {
        assert rest[k - i - 1] == rows[k];
      } else if k > j {
        assert rest[later + 1..][k - j - 1] == rows[k];
        RestrictMembers(rest[later + 1..], {t}, rows[k]);
      }
    }
  }

  /** A transaction with a real leg has just two, the other on a placeholder. */
  lemma RealLegHasAPlaceholder(rows: seq<Row>, t: TransactionId) returns (p: nat, q: nat)
    requires RealLeg(rows, t).Some?
    ensures OnlyLegs(rows, p, q) && rows[p].transaction == t
    ensures Unfiled(rows[p]) && !Unfiled(rows[q]) && RealLeg(rows, t) == Some(rows[q])
  {
    p, q := BothRows(rows, t);
    if !Unfiled(rows[p]) {
      p, q := q, p;
    }
  }

  /** An account statements are imported for. */
  ghost predicate HasStatements(kind: AccountKind) {
    kind == Checking || kind == Savings || kind == CreditCard || kind == Vault
  }

  /** The winning rule's counterparty, where that is an account no statement is imported for. */
  ghost predicate RepointsTo(rules: seq<TransferRule>, accounts: map<string, AccountKind>, leg: Row, best: TransferRule,
                             to: string)
  {
    Wins(rules, leg, best) && best.counterparty == Some(to) && to in accounts && !HasStatements(accounts[to])
  }

  lemma SafeRuleRepoints(rows: seq<Row>, rules: seq<TransferRule>, accounts: map<string, AccountKind>, p: nat, q: nat)
    requires OnlyLegs(rows, p, q) && Unfiled(rows[p]) && !Unfiled(rows[q])
    requires DistinctRules(rules)
    ensures var rule := SafeRule(rows, rules, accounts, rows[p].transaction);
      && (rule.Some? ==>
            && rule.value.counterparty.Some?
            && RepointsTo(rules, accounts, rows[q], rule.value, rule.value.counterparty.value))
      && (forall best, to :: RepointsTo(rules, accounts, rows[q], best, to) ==> rule == Some(best))
  {
    RealLegIsTheOther(rows, p, q);
    BestRuleWins(rules, rows[q]);
    forall best, to | RepointsTo(rules, accounts, rows[q], best, to)
      ensures SafeRule(rows, rules, accounts, rows[p].transaction) == Some(best)
    {
      OneWinner(rules, rows[q], best);
    }
  }

  lemma RulesMember(rows: seq<Row>, rules: seq<TransferRule>, accounts: map<string, AccountKind>, out: Row)
    ensures out in ApplyRules(rows, rules, accounts)
      <==> exists row :: row in rows && out == CounterpartyRow(row, SafeRule(rows, rules, accounts, row.transaction))
  {
    var f := CounterpartyStage(rows, rules, accounts);
    SortMembers(Expand(f, rows), out);
    ExpandMembers(f, rows, out);
    if row :| row in rows && out in f(row) {
      assert out == CounterpartyRow(row, SafeRule(rows, rules, accounts, row.transaction));
    }
    if row :| row in rows && out == CounterpartyRow(row, SafeRule(rows, rules, accounts, row.transaction)) {
      assert out in f(row);
    }
  }

  /** The two legs of a transaction with one placeholder come out of the rule stage so, and as nothing else. */
  ghost predicate CameOut(out: seq<Row>, leg: Row, placeholder: Row) {
    forall row :: row in out && row.transaction == leg.transaction <==> row == leg || row == placeholder
  }

  /**
   * The placeholder leg is moved to the counterparty of the rule that wins for the other leg, if that is an account no
   * statement is imported for, and is otherwise left where it was; nothing else of the two rows changes.
   */
  lemma PlaceholderFollowsTheWinner(rows: seq<Row>, rules: seq<TransferRule>, accounts: map<string, AccountKind>,
                                    p: nat, q: nat)
    requires OnlyLegs(rows, p, q) && Unfiled(rows[p]) && !Unfiled(rows[q])
    requires DistinctRules(rules)
    ensures forall best, to :: RepointsTo(rules, accounts, rows[q], best, to) ==>
      CameOut(ApplyRules(rows, rules, accounts), rows[q].(link := None), rows[p].(account := to, link := None))
    ensures (forall best, to :: !RepointsTo(rules, accounts, rows[q], best, to)) ==>
      CameOut(ApplyRules(rows, rules, accounts), rows[q].(link := None), rows[p].(link := None))
  {
    var out, rule := ApplyRules(rows, rules, accounts), SafeRule(rows, rules, accounts, rows[p].transaction);
    SafeRuleRepoints(rows, rules, accounts, p, q);
    var moved := CounterpartyRow(rows[p], rule);
    forall row ensures row in out && row.transaction == rows[q].transaction
      <==> row == rows[q].(link := None) || row == moved
    {
      RulesMember(rows, rules, accounts, row);
      assert rows[p] in rows && rows[q] in rows;
      if was :| was in rows && row == CounterpartyRow(was, SafeRule(rows, rules, accounts, was.transaction)) {
        var k :| 0 <= k < |rows| && rows[k] == was;
      }
    }
    assert CameOut(out, rows[q].(link := None), moved);
  }

  /** A leg that is not on a placeholder, or whose transaction is not of two such legs, is left alone. */
  lemma RulesLeaveOthersAlone(rows: seq<Row>, rules: seq<TransferRule>, accounts: map<string, AccountKind>, row: Row)
    requires row in rows
    requires !Unfiled(row)
      || forall p: nat, q: nat :: OnlyLegs(rows, p, q) && rows[p].transaction == row.transaction ==>
           (Unfiled(rows[p]) <==> Unfiled(rows[q]))
    ensures row.(link := None) in ApplyRules(rows, rules, accounts)
  {
    RulesMember(rows, rules, accounts, row.(link := None));
    if RealLeg(rows, row.transaction).Some? {
      var p, q := RealLegHasAPlaceholder(rows, row.transaction);
    }
    assert row.(link := None) == CounterpartyRow(row, SafeRule(rows, rules, accounts, row.transaction));
  }

  /** The rule shown for a transaction is the one that repointed it, unless a manual override moved an account. */
  lemma ShownRuleWins(row: Row, resolved: seq<Row>, raw: seq<Row>, context: Context, overrides: Overrides, p: nat,
                      q: nat, best: TransferRule, to: string)
    requires OnlyLegs(raw, p, q) && Unfiled(raw[p]) && !Unfiled(raw[q])
    requires DistinctRules(context.rules) && row.transaction == raw[p].transaction
    requires RepointsTo(context.rules, context.accounts, raw[q], best, to)
    ensures var shown := DisplayOf(row, resolved, raw, context, overrides);
      shown.resolvedByRule == if shown.manualOverridePosting.Some? then None else Some(best.id)
  {
    SafeRuleRepoints(raw, context.rules, context.accounts, p, q);
  }
}
