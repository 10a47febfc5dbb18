/**
 * Balances by cumulative sum and as-of join, and the two zero-sum checks (accounting/ledger/replay.py, db/triggers.py).
 */
module Balances {
  import opened Frame

  /** A posting as the replay reads it; amounts are exact. */
  datatype Posting = Posting(transaction: string, account: string, day: int, amount: real, currency: string)

  // ---------- sums ----------

  function SumIf(ps: seq<Posting>, keep: Posting -> bool): real {
    if ps == [] then 0.0 else SumIf(ps[..|ps| - 1], keep) + if keep(ps[|ps| - 1]) then ps[|ps| - 1].amount else 0.0
  }

  lemma {:induction false} SumIfSame(ps: seq<Posting>, p: Posting -> bool, q: Posting -> bool)
    requires forall x :: x in ps ==> p(x) == q(x)
    ensures SumIf(ps, p) == SumIf(ps, q)
  {
    if ps != [] {
      assert ps[|ps| - 1] in ps;
      SumIfSame(ps[..|ps| - 1], p, q);
    }
  }

  lemma {:induction false} SumIfSplit(ps: seq<Posting>, p: Posting -> bool, q: Posting -> bool, either: Posting -> bool)
    requires forall x :: x in ps ==> !(p(x) && q(x)) && (either(x) <==> p(x) || q(x))
    ensures SumIf(ps, either) == SumIf(ps, p) + SumIf(ps, q)
  {
    if ps != [] {
      assert ps[|ps| - 1] in ps;
      SumIfSplit(ps[..|ps| - 1], p, q, either);
    }
  }

  lemma {:induction false} SumIfNone(ps: seq<Posting>, p: Posting -> bool)
    requires forall x :: x in ps ==> !p(x)
    ensures SumIf(ps, p) == 0.0
  {
    if ps != [] {
      assert ps[|ps| - 1] in ps;
      SumIfNone(ps[..|ps| - 1], p);
    }
  }

  // ---------- the plain form: filter by date, then sum ----------

  function UpTo(account: string, date: int): Posting -> bool {
    (x: Posting) => x.account == account && x.day <= date
  }

  /** One account's balance, counting postings on or before a date. */
  function AccountBalance(ps: seq<Posting>, account: string, date: int): real {
    SumIf(ps, UpTo(account, date))
  }

  // ---------- the fast form: daily cumulative sums, then an as-of join ----------

  function InsertDay(day: int, days: seq<int>): seq<int> {
    if days == [] || day < days[0] then [day] + days
    else if day == days[0] then days
    else [days[0]] + InsertDay(day, days[1..])
  }

  /** The days an account has postings on, each once, in order. */
  function DaysOf(ps: seq<Posting>, account: string): seq<int> {
    if ps == [] then []
    else
      var front := DaysOf(ps[..|ps| - 1], account);
      if ps[|ps| - 1].account == account then InsertDay(ps[|ps| - 1].day, front) else front
  }

  function OnDay(account: string, day: int): Posting -> bool {
    (x: Posting) => x.account == account && x.day == day
  }

  datatype DayBalance = DayBalance(day: int, balance: real)

  /** Each day's amount added to the balance of the day before. */
  function Running(ps: seq<Posting>, account: string, days: seq<int>): seq<DayBalance> {
    if days == [] then []
    else
      var front := Running(ps, account, days[..|days| - 1]);
      var before := if front == [] then 0.0 else front[|front| - 1].balance;
      var day := days[|days| - 1];
      front + [DayBalance(day, before + SumIf(ps, OnDay(account, day)))]
  }

  /** The latest balance at or before a date. */
  function AsOf(rows: seq<DayBalance>, date: int): Option<real> {
    if rows == [] then None
    else if rows[|rows| - 1].day <= date then Some(rows[|rows| - 1].balance)
    else AsOf(rows[..|rows| - 1], date)
  }

  /** One cell of the balances-over-time frame; an account with nothing yet has zero. */
  function BalanceOverTime(ps: seq<Posting>, account: string, date: int): real {
    var found := AsOf(Running(ps, account, DaysOf(ps, account)), date);
    if found.Some? then found.value else 0.0
  }

  // ---------- they agree ----------

  ghost predicate Rising(days: seq<int>) {
    forall i, j :: 0 <= i < j < |days| ==> days[i] < days[j]
  }

  lemma {:induction false} InsertDayRises(day: int, days: seq<int>)
    requires Rising(days)
    ensures Rising(InsertDay(day, days))
    ensures forall d :: d in InsertDay(day, days) <==> d == day || d in days
  {
    if days == [] {
    } else if day < days[0] {
      assert InsertDay(day, days) == [day] + days;
      forall j | 0 <= j < |days| ensures day < days[j] {
      }
    } else if day > days[0] {
      InsertDayRises(day, days[1..]);
      assert days == [days[0]] + days[1..];
      var rest := InsertDay(day, days[1..]);
      forall j | 0 <= j < |rest| ensures days[0] < rest[j] {
        assert rest[j] == day || rest[j] in days[1..];
      }
    }
  }

  lemma {:induction false} DaysOfRises(ps: seq<Posting>, account: string)
    ensures Rising(DaysOf(ps, account))
    ensures forall x :: x in ps && x.account == account ==> x.day in DaysOf(ps, account)
  {
    if ps != [] {
      var n := |ps| - 1;
      DaysOfRises(ps[..n], account);
      assert ps == ps[..n] + [ps[n]];
      if ps[n].account == account {
        InsertDayRises(ps[n].day, DaysOf(ps[..n], account));
      }
    }
  }

  /** Every posting of the account up to the last day is on one of the days. */
  ghost predicate Covers(ps: seq<Posting>, account: string, days: seq<int>) {
    days != [] ==> forall x :: x in ps && x.account == account && x.day <= days[|days| - 1] ==> x.day in days
  }

  lemma FrontCovers(ps: seq<Posting>, account: string, days: seq<int>)
    requires days != [] && Rising(days) && Covers(ps, account, days)
    ensures Rising(days[..|days| - 1]) && Covers(ps, account, days[..|days| - 1])
  {
    var n := |days| - 1;
    var front := days[..n];
    if n > 0 {
      forall x | x in ps && x.account == account && x.day <= front[n - 1] ensures x.day in front {
        assert x.day in days;
        var i :| 0 <= i < |days| && days[i] == x.day;
        assert i < n && front[i] == x.day;
      }
    }
  }

  /** Nothing of the account falls strictly between two neighbouring days. */
  lemma NothingBetween(ps: seq<Posting>, account: string, days: seq<int>, x: Posting)
    requires |days| > 1 && Rising(days) && Covers(ps, account, days)
    requires x in ps && x.account == account && days[|days| - 2] < x.day <= days[|days| - 1]
    ensures x.day == days[|days| - 1]
  {
    var i :| 0 <= i < |days| && days[i] == x.day;
    assert i == |days| - 1;
  }

  lemma FirstDaySum(ps: seq<Posting>, account: string, day: int)
    requires Covers(ps, account, [day])
    ensures SumIf(ps, OnDay(account, day)) == AccountBalance(ps, account, day)
  {
    SumIfSame(ps, OnDay(account, day), UpTo(account, day));
  }

  lemma LaterDaySum(ps: seq<Posting>, account: string, days: seq<int>)
    requires |days| > 1 && Rising(days) && Covers(ps, account, days)
    ensures var n := |days| - 1;
      AccountBalance(ps, account, days[n])
      == AccountBalance(ps, account, days[n - 1]) + SumIf(ps, OnDay(account, days[n]))
  {
    var n := |days| - 1;
    forall x | x in ps && x.account == account && days[n - 1] < x.day <= days[n] ensures x.day == days[n] {
      NothingBetween(ps, account, days, x);
    }
    SumIfSplit(ps, UpTo(account, days[n - 1]), OnDay(account, days[n]), UpTo(account, days[n]));
  }

  /** A day's running balance is the filtered sum up to that day, if no earlier day is left out. */
  lemma {:induction false} RunningIsFilteredSum(ps: seq<Posting>, account: string, days: seq<int>)
    requires Rising(days) && Covers(ps, account, days)
    ensures |Running(ps, account, days)| == |days|
    ensures days != [] ==>
              var last := Running(ps, account, days)[|days| - 1];
              last.day == days[|days| - 1] && last.balance == AccountBalance(ps, account, last.day)
  {
    if days != [] {
      FrontCovers(ps, account, days);
      RunningIsFilteredSum(ps, account, days[..|days| - 1]);
      if |days| == 1 {
        assert days == [days[0]];
        FirstDaySum(ps, account, days[0]);
      } else {
        LaterDaySum(ps, account, days);
      }
    }
  }

  lemma {:induction false} AsOfIsFilteredSum(ps: seq<Posting>, account: string, days: seq<int>, date: int)
    requires Rising(days)
    requires forall x ::
      x in ps && x.account == account && (x.day <= date || (days != [] && x.day <= days[|days| - 1])) ==> x.day in days
    ensures var found := AsOf(Running(ps, account, days), date);
      (if found.Some? then found.value else 0.0) == AccountBalance(ps, account, date)
  {
    RunningIsFilteredSum(ps, account, days);
    if days == [] {
      SumIfNone(ps, UpTo(account, date));
    } else {
      var n := |days| - 1;
      var front, rows := days[..n], Running(ps, account, days);
      RunningIsFilteredSum(ps, account, days);
      if days[n] <= date {
        forall x | x in ps ensures UpTo(account, days[n])(x) == UpTo(account, date)(x) {
          if x.account == account && x.day <= date {
            var i :| 0 <= i < |days| && days[i] == x.day;
          }
        }
        SumIfSame(ps, UpTo(account, days[n]), UpTo(account, date));
      } else {
        assert rows[..n] == Running(ps, account, front);
        forall x | x in ps && x.account == account && (x.day <= date || (front != [] && x.day <= front[n - 1]))
          ensures x.day in front
        {
          assert x.day in days && x.day != days[n];
        }
        AsOfIsFilteredSum(ps, account, front, date);
      }
    }
  }

  /** The series and the one-date form agree for every account and every date. */
  lemma SeriesAgrees(ps: seq<Posting>, account: string, date: int)
    ensures BalanceOverTime(ps, account, date) == AccountBalance(ps, account, date)
  {
    DaysOfRises(ps, account);
    AsOfIsFilteredSum(ps, account, DaysOf(ps, account), date);
  }

  // ---------- a balanced ledger's balances cancel ----------

  function OfTransaction(transaction: string): Posting -> bool {
    (x: Posting) => x.transaction == transaction
  }

  ghost predicate ZeroSum(ps: seq<Posting>) {
    forall t :: SumIf(ps, OfTransaction(t)) == 0.0
  }

  ghost predicate OneDay(ps: seq<Posting>) {
    forall x, y :: x in ps && y in ps && x.transaction == y.transaction ==> x.day == y.day
  }

  function SumOver(keys: seq<string>, value: string -> real): real {
    if keys == [] then 0.0 else SumOver(keys[..|keys| - 1], value) + value(keys[|keys| - 1])
  }

  lemma {:induction false} SumOverSame(keys: seq<string>, f: string -> real, g: string -> real)
    requires forall k :: k in keys ==> f(k) == g(k)
    ensures SumOver(keys, f) == SumOver(keys, g)
  {
    if keys != [] {
      assert keys[|keys| - 1] in keys;
      SumOverSame(keys[..|keys| - 1], f, g);
    }
  }

  function Parts(ps: seq<Posting>, keep: Posting -> bool, keyOf: Posting -> string): string -> real {
    (k: string) => SumIf(ps, (x: Posting) => keep(x) && keyOf(x) == k)
  }

  ghost predicate Unique(keys: seq<string>) {
    forall i, j :: 0 <= i < j < |keys| ==> keys[i] != keys[j]
  }

  /** A sum is the sum of its parts, whatever the postings are grouped by. */
  lemma {:induction false} SumByParts(ps: seq<Posting>, keep: Posting -> bool, keyOf: Posting -> string,
                                      keys: seq<string>)
    requires Unique(keys)
    ensures SumOver(keys, Parts(ps, keep, keyOf)) == SumIf(ps, (x: Posting) => keep(x) && keyOf(x) in keys)
  {
    if keys == [] {
      SumIfNone(ps, (x: Posting) => keep(x) && keyOf(x) in keys);
    } else {
      var n := |keys| - 1;
      var front := keys[..n];
      SumByParts(ps, keep, keyOf, front);
      assert keys == front + [keys[n]];
      SumIfSplit(ps, (x: Posting) => keep(x) && keyOf(x) in front, (x: Posting) => keep(x) && keyOf(x) == keys[n],
                 (x: Posting) => keep(x) && keyOf(x) in keys);
    }
  }

  lemma {:induction false} SumOverZero(keys: seq<string>, f: string -> real)
    requires forall k :: k in keys ==> f(k) == 0.0
    ensures SumOver(keys, f) == 0.0
  {
    if keys != [] {
      assert keys[|keys| - 1] in keys;
      SumOverZero(keys[..|keys| - 1], f);
    }
  }

  /** A transaction on one day is on one side of every date, so what counts up to a date still sums to zero. */
  lemma TransactionUpToDate(ps: seq<Posting>, transaction: string, date: int)
    requires ZeroSum(ps) && OneDay(ps)
    ensures SumIf(ps, (x: Posting) => x.day <= date && x.transaction == transaction) == 0.0
  {
    var counted := (x: Posting) => x.day <= date && x.transaction == transaction;
    if exists x :: x in ps && counted(x) {
      SumIfSame(ps, counted, OfTransaction(transaction));
    } else {
      SumIfNone(ps, counted);
    }
  }

  function ByTransaction(): Posting -> string {
    (x: Posting) => x.transaction
  }

  function ByAccount(): Posting -> string {
    (x: Posting) => x.account
  }

  function Counted(date: int): Posting -> bool {
    (x: Posting) => x.day <= date
  }

  /** On every date the balances of all accounts total zero. */
  lemma BalancesTotalZero(ps: seq<Posting>, accounts: seq<string>, transactions: seq<string>, date: int)
    requires ZeroSum(ps) && OneDay(ps)
    requires Unique(accounts) && forall x :: x in ps ==> x.account in accounts
    requires Unique(transactions) && forall x :: x in ps ==> x.transaction in transactions
    ensures SumOver(accounts, (a: string) => BalanceOverTime(ps, a, date)) == 0.0
  {
    var counted := Counted(date);
    var byAccount, byTransaction := Parts(ps, counted, ByAccount()), Parts(ps, counted, ByTransaction());
    forall a | a in accounts ensures BalanceOverTime(ps, a, date) == byAccount(a) {
      SeriesAgrees(ps, a, date);
      SumIfSame(ps, UpTo(a, date), (x: Posting) => counted(x) && ByAccount()(x) == a);
    }
    SumOverSame(accounts, (a: string) => BalanceOverTime(ps, a, date), byAccount);
    SumByParts(ps, counted, ByAccount(), accounts);
    SumByParts(ps, counted, ByTransaction(), transactions);
    SumIfSame(ps, (x: Posting) => counted(x) && ByAccount()(x) in accounts,
              (x: Posting) => counted(x) && ByTransaction()(x) in transactions);
    forall t | t in transactions ensures byTransaction(t) == 0.0 {
      TransactionUpToDate(ps, t, date);
      SumIfSame(ps, (x: Posting) => counted(x) && ByTransaction()(x) == t,
                (x: Posting) => x.day <= date && x.transaction == t);
    }
    SumOverZero(transactions, byTransaction);
  }
}
