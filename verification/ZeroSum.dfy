/**
 * Quantized money, balanced pairs, and the two zero-sum checks (db/money.py, importers/common.py, db/triggers.py,
 * ledger/replay.py).
 */
module ZeroSum {
  import opened Balances

  // ---------- rounding ----------

  /** Ten-thousandths. */
  const MONEY_UNITS := 10000.0

  function Half(x: real): (units: int)
    requires x >= 0.0
  {
    (x * MONEY_UNITS + 0.5).Floor
  }

  /** Half away from zero, to four places, in ten-thousandths. */
  function Quantized(x: real): int {
    if x >= 0.0 then Half(x) else -Half(-x)
  }

  /** The rounded amount is the nearest one, and a tie goes away from zero. */
  lemma QuantizedIsNearest(x: real, other: int)
    ensures var mine := Quantized(x) as real - x * MONEY_UNITS;
      var theirs := other as real - x * MONEY_UNITS;
      && -0.5 <= mine <= 0.5
      && (other != Quantized(x) ==>
            (if mine < 0.0 then -mine else mine) <= (if theirs < 0.0 then -theirs else theirs))
      && (mine == 0.5 ==> x > 0.0) && (mine == -0.5 ==> x < 0.0)
  {
    if x >= 0.0 {
      FloorBounds(x * MONEY_UNITS + 0.5);
    } else {
      FloorBounds(-x * MONEY_UNITS + 0.5);
    }
  }

  lemma FloorBounds(x: real)
    ensures x.Floor as real <= x < x.Floor as real + 1.0
  {
  }

  /** Rounding is odd: a balanced pair stays balanced. */
  lemma QuantizedIsOdd(x: real)
    ensures Quantized(-x) == -Quantized(x)
  {
    if x == 0.0 {
      assert -x == 0.0;
    }
  }

  // ---------- what is written, and the commit check ----------

  /** A posting as stored: its amount in ten-thousandths. */
  datatype StoredPosting = StoredPosting(transaction: string, amount: int, currency: string)

  function Store(p: Posting): StoredPosting {
    StoredPosting(p.transaction, Quantized(p.amount), p.currency)
  }

  /** Stored postings by their own key. */
  type Table = map<string, StoredPosting>

  function Group(table: Table, t: string): Table {
    map k | k in table && table[k].transaction == t :: table[k]
  }

  ghost function Pick(keys: set<string>): (k: string)
    requires keys != {}
    ensures k in keys
  {
    var k :| k in keys;
    k
  }

  ghost function SumAmounts(group: Table): int
    decreases |group|
  {
    if group == map[] then 0
    else
      var k := Pick(group.Keys);
      assert |group - {k}| < |group| by { FewerKeys(group, k); }
      group[k].amount + SumAmounts(group - {k})
  }

  lemma FewerKeys(group: Table, k: string)
    requires k in group
    ensures |group - {k}| < |group|
  {
    assert (group - {k}).Keys == group.Keys - {k};
    assert |group.Keys| == |group.Keys - {k}| + 1;
    assert |group| == |group.Keys| && |group - {k}| == |(group - {k}).Keys|;
  }

  predicate MixedCurrencies(group: Table) {
    exists j, k :: j in group && k in group && group[j].currency != group[k].currency
  }

  /** One run of the trigger function on a transaction. */
  ghost predicate Passes(table: Table, t: string) {
    MixedCurrencies(Group(table, t)) || SumAmounts(Group(table, t)) == 0
  }

  /** Removing any posting at all takes its amount off the sum. */
  lemma {:induction false} SumWithout(group: Table, k: string)
    requires k in group
    ensures SumAmounts(group) == group[k].amount + SumAmounts(group - {k})
    decreases |group|
  {
    var first := Pick(group.Keys);
    if first != k {
      FewerKeys(group, first);
      FewerKeys(group, k);
      SumWithout(group - {first}, k);
      SumWithout(group - {k}, first);
      assert group - {first} - {k} == group - {k} - {first};
    }
  }

  lemma SumWith(group: Table, k: string, row: StoredPosting)
    requires k !in group
    ensures SumAmounts(group[k := row]) == SumAmounts(group) + row.amount
  {
    SumWithout(group[k := row], k);
    assert group[k := row] - {k} == group;
  }

  // ---------- a frame and the table it is written to ----------

  ghost predicate DistinctKeys(keys: seq<string>) {
    forall i, j :: 0 <= i < j < |keys| ==> keys[i] != keys[j]
  }

  /** The postings of a frame, written each under its own key. */
  function Written(ps: seq<Posting>, keys: seq<string>): Table
    requires |ps| == |keys|
  {
    if ps == [] then map[]
    else Written(ps[..|ps| - 1], keys[..|keys| - 1])[keys[|keys| - 1] := Store(ps[|ps| - 1])]
  }

  /** The sum of the rounded amounts of some postings. */
  function WrittenSum(ps: seq<Posting>, keep: Posting -> bool): int {
    if ps == [] then 0
    else WrittenSum(ps[..|ps| - 1], keep) + if keep(ps[|ps| - 1]) then Quantized(ps[|ps| - 1].amount) else 0
  }

  lemma {:induction false} WrittenRows(ps: seq<Posting>, keys: seq<string>)
    requires |ps| == |keys| && DistinctKeys(keys)
    ensures forall k :: k in Written(ps, keys) <==> k in keys
    ensures forall i :: 0 <= i < |ps| ==> keys[i] in Written(ps, keys) && Written(ps, keys)[keys[i]] == Store(ps[i])
  {
    if ps != [] {
      var n := |ps| - 1;
      WrittenRows(ps[..n], keys[..n]);
      assert keys == keys[..n] + [keys[n]];
      forall i | 0 <= i < n ensures keys[i] in Written(ps, keys) && Written(ps, keys)[keys[i]] == Store(ps[i]) {
        assert keys[..n][i] == keys[i] && ps[..n][i] == ps[i];
      }
    }
  }

  /** A transaction's stored sum is the sum of its rounded legs. */
  lemma {:induction false} GroupSum(ps: seq<Posting>, keys: seq<string>, t: string)
    requires |ps| == |keys| && DistinctKeys(keys)
    ensures SumAmounts(Group(Written(ps, keys), t)) == WrittenSum(ps, OfTransaction(t))
  {
    if ps == [] {
      assert Group(Written(ps, keys), t) == map[];
    } else {
      var n := |ps| - 1;
      var front := Written(ps[..n], keys[..n]);
      GroupSum(ps[..n], keys[..n], t);
      WrittenRows(ps[..n], keys[..n]);
      assert keys[n] !in front;
      GroupWith(front, keys[n], Store(ps[n]), t);
      if ps[n].transaction == t {
        SumWith(Group(front, t), keys[n], Store(ps[n]));
      }
    }
  }

  lemma GroupWith(table: Table, k: string, row: StoredPosting, t: string)
    requires k !in table
    ensures Group(table[k := row], t) == if row.transaction == t then Group(table, t)[k := row] else Group(table, t)
  {
  }

  /** One currency throughout a transaction. */
  ghost predicate SingleCurrency(ps: seq<Posting>, t: string) {
    forall x, y :: x in ps && y in ps && x.transaction == t && y.transaction == t ==> x.currency == y.currency
  }

  lemma MixedIsWritten(ps: seq<Posting>, keys: seq<string>, t: string)
    requires |ps| == |keys| && DistinctKeys(keys)
    ensures MixedCurrencies(Group(Written(ps, keys), t)) <==> !SingleCurrency(ps, t)
  {
    var group := Group(Written(ps, keys), t);
    WrittenRows(ps, keys);
    if MixedCurrencies(group) {
      var j, k :| j in group && k in group && group[j].currency != group[k].currency;
      var x :| 0 <= x < |keys| && keys[x] == j;
      var y :| 0 <= y < |keys| && keys[y] == k;
      assert ps[x] in ps && ps[y] in ps;
    }
    if !SingleCurrency(ps, t) {
      var x, y :| x in ps && y in ps && x.transaction == t && y.transaction == t && x.currency != y.currency;
      var i :| 0 <= i < |ps| && ps[i] == x;
      var j :| 0 <= j < |ps| && ps[j] == y;
      assert keys[i] in group && keys[j] in group;
    }
  }

  /** The commit check on a written frame: it rejects a one-currency transaction whose rounded legs do not cancel. */
  lemma PassesIff(ps: seq<Posting>, keys: seq<string>, t: string)
    requires |ps| == |keys| && DistinctKeys(keys)
    ensures Passes(Written(ps, keys), t) <==> !SingleCurrency(ps, t) || WrittenSum(ps, OfTransaction(t)) == 0
  {
    GroupSum(ps, keys, t);
    MixedIsWritten(ps, keys, t);
  }

  // ---------- ledgers of pairs ----------

  /** The two legs of one imported row. */
  function PostingPair(transaction: string, account: string, counterparty: string, day: int, amount: real,
                       currency: string)
    : seq<Posting>
  {
    [Posting(transaction, account, day, amount, currency), Posting(transaction, counterparty, day, -amount, currency)]
  }

  datatype RawRow = RawRow(transaction: string, account: string, counterparty: string, day: int, amount: real,
                           currency: string)

  /** A ledger built from pairs, as every importer builds one. */
  function Pairs(rows: seq<RawRow>): seq<Posting> {
    if rows == [] then []
    else
      var row := rows[|rows| - 1];
      Pairs(rows[..|rows| - 1])
      + PostingPair(row.transaction, row.account, row.counterparty, row.day, row.amount, row.currency)
  }

  lemma WrittenSumTwo(ps: seq<Posting>, a: Posting, b: Posting, keep: Posting -> bool)
    ensures WrittenSum(ps + [a, b], keep)
         == WrittenSum(ps, keep) + (if keep(a) then Quantized(a.amount) else 0)
           + (if keep(b) then Quantized(b.amount) else 0)
  {
    var one := ps + [a];
    assert ps + [a, b] == one + [b] && (one + [b])[..|one|] == one && one[..|ps|] == ps;
  }

  /** Every transaction of a ledger of pairs is written summing to exactly zero, however its amounts round. */
  lemma {:induction false} PairsAreWrittenBalanced(rows: seq<RawRow>, t: string)
    ensures WrittenSum(Pairs(rows), OfTransaction(t)) == 0
  {
    if rows != [] {
      var front, row := rows[..|rows| - 1], rows[|rows| - 1];
      PairsAreWrittenBalanced(front, t);
      var pair := PostingPair(row.transaction, row.account, row.counterparty, row.day, row.amount, row.currency);
      WrittenSumTwo(Pairs(front), pair[0], pair[1], OfTransaction(t));
      QuantizedIsOdd(row.amount);
    }
  }

  /** So the commit check never fires on a written ledger of pairs, whatever its keys, amounts and currencies. */
  lemma PairsPassTheCommit(rows: seq<RawRow>, keys: seq<string>)
    requires |keys| == |Pairs(rows)| && DistinctKeys(keys)
    ensures forall t :: Passes(Written(Pairs(rows), keys), t)
  {
    forall t ensures Passes(Written(Pairs(rows), keys), t) {
      PairsAreWrittenBalanced(rows, t);
      PassesIff(Pairs(rows), keys, t);
    }
  }

  // ---------- the check before the write ----------

  const ZERO_SUM_TOLERANCE := 0.000001

  function OfGroup(t: string, currency: string): Posting -> bool {
    (x: Posting) => x.transaction == t && x.currency == currency
  }

  /** A (transaction, currency) group whose postings do not cancel to within the tolerance. */
  predicate Unbalanced(ps: seq<Posting>, t: string, currency: string) {
    var total := SumIf(ps, OfGroup(t, currency));
    total > ZERO_SUM_TOLERANCE || -total > ZERO_SUM_TOLERANCE
  }

  /** The earlier check names the transaction. */
  ghost predicate EarlierRejects(ps: seq<Posting>, t: string) {
    exists currency :: Unbalanced(ps, t, currency)
  }

  ghost predicate ValidateBalanced(ps: seq<Posting>) {
    forall t :: !EarlierRejects(ps, t)
  }

  lemma SumIfTwo(ps: seq<Posting>, a: Posting, b: Posting, keep: Posting -> bool)
    ensures SumIf(ps + [a, b], keep)
         == SumIf(ps, keep) + (if keep(a) then a.amount else 0.0) + (if keep(b) then b.amount else 0.0)
  {
    var one := ps + [a];
    assert ps + [a, b] == one + [b] && (one + [b])[..|one|] == one && one[..|ps|] == ps;
  }

  lemma {:induction false} PairsCancel(rows: seq<RawRow>, t: string, currency: string)
    ensures SumIf(Pairs(rows), OfGroup(t, currency)) == 0.0
  {
    if rows != [] {
      var front, row := rows[..|rows| - 1], rows[|rows| - 1];
      PairsCancel(front, t, currency);
      var pair := PostingPair(row.transaction, row.account, row.counterparty, row.day, row.amount, row.currency);
      SumIfTwo(Pairs(front), pair[0], pair[1], OfGroup(t, currency));
    }
  }

  /** A ledger of pairs also passes the check before the write. */
  lemma PairsValidate(rows: seq<RawRow>)
    ensures ValidateBalanced(Pairs(rows))
  {
    forall t, currency ensures !Unbalanced(Pairs(rows), t, currency) {
      PairsCancel(rows, t, currency);
    }
  }

  // ---------- the two checks compared ----------

  /** Every amount is a whole number of ten-thousandths, as every stored one is. */
  ghost predicate OnGrid(ps: seq<Posting>) {
    forall x :: x in ps ==> Quantized(x.amount) as real == x.amount * MONEY_UNITS
  }

  /** On the grid rounding changes no sum. */
  lemma {:induction false} GridSum(ps: seq<Posting>, keep: Posting -> bool)
    requires OnGrid(ps)
    ensures WrittenSum(ps, keep) as real == SumIf(ps, keep) * MONEY_UNITS
  {
    if ps != [] {
      var n := |ps| - 1;
      assert ps[n] in ps;
      GridSum(ps[..n], keep);
    }
  }

  /** On the grid the tolerance is immaterial: a group is rejected exactly when it does not cancel. */
  lemma GridUnbalanced(ps: seq<Posting>, t: string, currency: string)
    requires OnGrid(ps)
    ensures Unbalanced(ps, t, currency) <==> SumIf(ps, OfGroup(t, currency)) != 0.0
  {
    GridSum(ps, OfGroup(t, currency));
    var units := WrittenSum(ps, OfGroup(t, currency));
    assert units >= 1 || units <= -1 || units == 0;
  }

  lemma NoSuchTransaction(ps: seq<Posting>, t: string)
    requires forall x :: x in ps ==> x.transaction != t
    ensures !EarlierRejects(ps, t) && SumIf(ps, OfTransaction(t)) == 0.0
  {
    SumIfNone(ps, OfTransaction(t));
    forall currency ensures !Unbalanced(ps, t, currency) {
      SumIfNone(ps, OfGroup(t, currency));
    }
  }

  lemma OneCurrencyGroups(ps: seq<Posting>, t: string, x: Posting)
    requires SingleCurrency(ps, t) && x in ps && x.transaction == t
    ensures SumIf(ps, OfTransaction(t)) == SumIf(ps, OfGroup(t, x.currency))
    ensures forall currency :: currency != x.currency ==> !Unbalanced(ps, t, currency)
  {
    SumIfSame(ps, OfTransaction(t), OfGroup(t, x.currency));
    forall currency | currency != x.currency ensures !Unbalanced(ps, t, currency) {
      SumIfNone(ps, OfGroup(t, currency));
    }
  }

  /** On a one-currency transaction the commit check fires exactly when the earlier one does. */
  lemma SingleCurrencyAgrees(ps: seq<Posting>, keys: seq<string>, t: string)
    requires |ps| == |keys| && DistinctKeys(keys) && OnGrid(ps) && SingleCurrency(ps, t)
    ensures EarlierRejects(ps, t) <==> !Passes(Written(ps, keys), t)
  {
    PassesIff(ps, keys, t);
    GridSum(ps, OfTransaction(t));
    if x :| x in ps && x.transaction == t {
      OneCurrencyGroups(ps, t, x);
      GridUnbalanced(ps, t, x.currency);
    } else {
      NoSuchTransaction(ps, t);
    }
  }

  /**
   * For any transaction the two checks agree if and only if it is in one currency or each of its currency groups
   * cancels: the commit check looks at no other, the earlier one at every group.
   */
  lemma ChecksAgreeExactly(ps: seq<Posting>, keys: seq<string>, t: string)
    requires |ps| == |keys| && DistinctKeys(keys) && OnGrid(ps)
    ensures (EarlierRejects(ps, t) <==> !Passes(Written(ps, keys), t))
      <==> SingleCurrency(ps, t) || forall currency :: SumIf(ps, OfGroup(t, currency)) == 0.0
  {
    PassesIff(ps, keys, t);
    forall currency ensures Unbalanced(ps, t, currency) <==> SumIf(ps, OfGroup(t, currency)) != 0.0 {
      GridUnbalanced(ps, t, currency);
    }
    if SingleCurrency(ps, t) {
      SingleCurrencyAgrees(ps, keys, t);
    }
  }

  /**
   * Off the grid rounding can unbalance what cancels: three legs do, which no importer here builds, since each posting
   * one makes is half of a pair.
   */
  lemma ThreeLegsCanDrift()
    ensures var ps := [Posting("t", "a", 0, 0.00004, "USD"), Posting("t", "b", 0, 0.00004, "USD"),
                       Posting("t", "c", 0, -0.00008, "USD")];
      !EarlierRejects(ps, "t") && !Passes(Written(ps, ["a", "b", "c"]), "t")
  {
    var a, b, c :=
      Posting("t", "a", 0, 0.00004, "USD"), Posting("t", "b", 0, 0.00004, "USD"), Posting("t", "c", 0, -0.00008, "USD");
    var ps := [a, b, c];
    assert [a] + [b, c] == ps && [a][..0] == [];
    forall currency ensures !Unbalanced(ps, "t", currency) {
      SumIfTwo([a], b, c, OfGroup("t", currency));
    }
    WrittenSumTwo([a], b, c, OfTransaction("t"));
    assert Quantized(0.00004) == 0 && Quantized(-0.00008) == -1;
    assert forall x :: x in ps ==> x == a || x == b || x == c;
    PassesIff(ps, ["a", "b", "c"], "t");
  }

  // ---------- what the deferred trigger guards ----------

  /** The transactions checked at commit: of every inserted or updated posting its new one, of a deleted one its old. */
  function Checked(before: Table, after: Table): set<string> {
    (set k | k in after && (k !in before || before[k] != after[k]) :: after[k].transaction)
    + (set k | k in before && k !in after :: before[k].transaction)
  }

  /** The transactions an update moved a posting away from, and that nothing else brings into the check. */
  function Abandoned(before: Table, after: Table): set<string> {
    (set k | k in before && k in after && before[k].transaction != after[k].transaction :: before[k].transaction)
    - Checked(before, after)
  }

  lemma ChangeIsSeen(before: Table, after: Table, k: string)
    ensures k in after && (k !in before || before[k] != after[k]) ==> after[k].transaction in Checked(before, after)
    ensures k in before && k !in after ==> before[k].transaction in Checked(before, after)
    ensures k in before && k in after && before[k].transaction != after[k].transaction ==>
              before[k].transaction in Checked(before, after) + Abandoned(before, after)
  {
  }

  /** A transaction that is neither checked nor abandoned has the postings it had. */
  lemma UncheckedIsUnchanged(before: Table, after: Table, t: string)
    requires t !in Checked(before, after) && t !in Abandoned(before, after)
    ensures Group(before, t) == Group(after, t)
  {
    forall k ensures k in Group(before, t) <==> k in Group(after, t) {
      ChangeIsSeen(before, after, k);
    }
    forall k | k in Group(after, t) ensures Group(before, t)[k] == Group(after, t)[k] {
      ChangeIsSeen(before, after, k);
    }
  }

  /**
   * From a balanced table, a commit whose checks all pass leaves a balanced table if and only if the abandoned
   * transactions balance too: moving a posting between transactions is the one change the trigger does not see whole.
   */
  lemma CommitKeepsBalance(before: Table, after: Table)
    requires forall t :: Passes(before, t)
    requires forall t :: t in Checked(before, after) ==> Passes(after, t)
    ensures (forall t :: Passes(after, t)) <==> forall t :: t in Abandoned(before, after) ==> Passes(after, t)
  {
    forall t | t !in Checked(before, after) && t !in Abandoned(before, after) ensures Passes(after, t) {
      UncheckedIsUnchanged(before, after, t);
      assert Passes(before, t);
    }
  }

  lemma OneAmount(k: string, row: StoredPosting)
    ensures SumAmounts(map[k := row]) == row.amount
  {
    var group: Table := map[k := row];
    assert k in group.Keys;
    assert Pick(group.Keys) == k;
    assert group - {k} == map[];
  }

  function BeforeMove(): Table {
    map["a" := StoredPosting("t", 5, "USD"), "b" := StoredPosting("t", -5, "USD")]
  }

  function AfterMove(): Table {
    map["a" := StoredPosting("t", 5, "USD"), "b" := StoredPosting("u", -5, "USD"), "c" := StoredPosting("u", 5, "USD")]
  }

  lemma MovedGroups()
    ensures Group(BeforeMove(), "t") == BeforeMove()
    ensures Group(AfterMove(), "u") == map["b" := StoredPosting("u", -5, "USD"), "c" := StoredPosting("u", 5, "USD")]
    ensures Group(AfterMove(), "t") == map["a" := StoredPosting("t", 5, "USD")]
  {
  }

  lemma MovedChecks()
    ensures Checked(BeforeMove(), AfterMove()) == {"u"} && Abandoned(BeforeMove(), AfterMove()) == {"t"}
  {
    var before, after := BeforeMove(), AfterMove();
    assert "b" in before && "b" in after && before["b"] != after["b"];
    assert Checked(before, after) == {"u"};
    assert before["b"].transaction != after["b"].transaction;
  }

  /** Such a move slips through: the transaction left behind no longer balances, and only the other one is checked. */
  lemma MovedPostingIsNotSeen()
    ensures Checked(BeforeMove(), AfterMove()) == {"u"} && Abandoned(BeforeMove(), AfterMove()) == {"t"}
    ensures Passes(BeforeMove(), "t") && Passes(AfterMove(), "u") && !Passes(AfterMove(), "t")
  {
    MovedChecks();
    MovedGroups();
    TwoAmounts("a", StoredPosting("t", 5, "USD"), "b", StoredPosting("t", -5, "USD"));
    TwoAmounts("b", StoredPosting("u", -5, "USD"), "c", StoredPosting("u", 5, "USD"));
    OneAmount("a", StoredPosting("t", 5, "USD"));
  }

  lemma TwoAmounts(j: string, x: StoredPosting, k: string, y: StoredPosting)
    requires j != k
    ensures SumAmounts(map[j := x, k := y]) == x.amount + y.amount
  {
    var group: Table := map[j := x, k := y];
    assert j in group.Keys;
    assert Pick(group.Keys) == j || Pick(group.Keys) == k;
    assert group - {j} == map[k := y] && group - {k} == map[j := x];
    OneAmount(j, x);
    OneAmount(k, y);
  }
}
