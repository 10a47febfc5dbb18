/** A rolling series of smoothed exchange rates against the one-date mean (accounting/market_data/exchange_rates.py). */
module ExchangeRates {
  import opened Frame

  const BASE_CURRENCY := "USD"

  datatype Rate = Rate(day: int, currency: string, rate: real)

  // ---------- one date ----------

  function CountIn(history: seq<Rate>, currency: string, first: int, last: int): nat {
    if history == [] then 0
    else
      var r := history[|history| - 1];
      CountIn(history[..|history| - 1], currency, first, last)
      + if r.currency == currency && first <= r.day <= last then 1 else 0
  }

  function SumIn(history: seq<Rate>, currency: string, first: int, last: int): real {
    if history == [] then 0.0
    else
      var r := history[|history| - 1];
      SumIn(history[..|history| - 1], currency, first, last)
      + if r.currency == currency && first <= r.day <= last then r.rate else 0.0
  }

  /** The mean over the trailing window, both ends included; none if nothing falls in it. */
  function SmoothedRateAsOf(history: seq<Rate>, currency: string, asOf: int, windowDays: nat): Option<real> {
    var count := CountIn(history, currency, asOf - windowDays, asOf);
    if count == 0 then None
    else Some(SumIn(history, currency, asOf - windowDays, asOf) / count as real)
  }

  // ---------- the series ----------

  /** A row the rolling window runs over: an observation, or a calendar day with no rate of its own. */
  datatype SeriesRow = SeriesRow(day: int, rate: Option<real>)

  /** One currency's observations. */
  function Observations(history: seq<Rate>, currency: string): seq<SeriesRow> {
    if history == [] then []
    else
      var r := history[|history| - 1];
      Observations(history[..|history| - 1], currency) +
        if r.currency == currency then [SeriesRow(r.day, Some(r.rate))] else []
  }

  /** Every day of the span, with no rate. */
  function Calendar(first: int, days: nat): seq<SeriesRow> {
    seq(days, i requires 0 <= i => SeriesRow(first + i, None))
  }

  predicate InWindow(row: SeriesRow, t: int, size: int) {
    t - size < row.day <= t
  }

  function RolledCount(rows: seq<SeriesRow>, t: int, size: int): nat {
    if rows == [] then 0
    else RolledCount(rows[..|rows| - 1], t, size)
         + if rows[|rows| - 1].rate.Some? && InWindow(rows[|rows| - 1], t, size) then 1 else 0
  }

  function RolledSum(rows: seq<SeriesRow>, t: int, size: int): real {
    if rows == [] then 0.0
    else RolledSum(rows[..|rows| - 1], t, size)
         + if rows[|rows| - 1].rate.Some? && InWindow(rows[|rows| - 1], t, size) then rows[|rows| - 1].rate.value
           else 0.0
  }

  /** The mean of the rates in the half-open window ending at `t`; rows without a rate count for nothing. */
  function RollingMean(rows: seq<SeriesRow>, t: int, size: int): Option<real> {
    if RolledCount(rows, t, size) == 0 then None
    else Some(RolledSum(rows, t, size) / RolledCount(rows, t, size) as real)
  }

  /** The rolling mean at every calendar day. */
  function Rolled(history: seq<Rate>, currency: string, windowDays: nat, first: int, days: nat): seq<Option<real>> {
    var rows := Observations(history, currency) + Calendar(first, days);
    seq(days, i requires 0 <= i => RollingMean(rows, first + i, windowDays + 1))
  }

  /** A missing value takes the next one after it that is there. */
  function FilledBackward(values: seq<Option<real>>): (filled: seq<Option<real>>)
    ensures |filled| == |values|
  {
    if values == [] then []
    else
      var rest := FilledBackward(values[1..]);
      [if values[0].Some? || rest == [] then values[0] else rest[0]] + rest
  }

  datatype SeriesCell = SeriesCell(day: int, currency: string, rate: Option<real>)

  function Cells(currency: string, first: int, values: seq<Option<real>>): seq<SeriesCell> {
    seq(|values|, i requires 0 <= i < |values| => SeriesCell(first + i, currency, values[i]))
  }

  function CurrencySeries(history: seq<Rate>, currency: string, windowDays: nat, first: int, days: nat): seq<SeriesCell>
  {
    Cells(currency, first, FilledBackward(Rolled(history, currency, windowDays, first, days)))
  }

  function BaseSeries(first: int, days: nat): seq<SeriesCell> {
    Cells(BASE_CURRENCY, first, seq(days, i => Some(1.0)))
  }

  /** The calendar span of the whole history. */
  function FirstDay(history: seq<Rate>): int
    requires history != []
  {
    if |history| == 1 then history[0].day
    else
      var rest := FirstDay(history[1..]);
      if history[0].day < rest then history[0].day else rest
  }

  function LastDay(history: seq<Rate>): int
    requires history != []
  {
    if |history| == 1 then history[0].day
    else
      var rest := LastDay(history[1..]);
      if history[0].day > rest then history[0].day else rest
  }

  lemma {:induction false} SpanCovers(history: seq<Rate>)
    requires history != []
    ensures FirstDay(history) <= LastDay(history)
    ensures forall r :: r in history ==> FirstDay(history) <= r.day <= LastDay(history)
    ensures exists r, s :: r in history && s in history && r.day == FirstDay(history) && s.day == LastDay(history)
  {
    assert history[0] in history;
    if |history| > 1 {
      SpanCovers(history[1..]);
      assert history == [history[0]] + history[1..];
      var r, s :| r in history[1..] && s in history[1..]
        && r.day == FirstDay(history[1..]) && s.day == LastDay(history[1..]);
      assert r in history && s in history;
    }
  }

  datatype SeriesResult = Series(cells: seq<SeriesCell>) | NoHistory(currency: string)

  /** The series of the base currency and of every requested one, one after another. */
  function AllSeries(history: seq<Rate>, requested: seq<string>, windowDays: nat, first: int,
                     days: nat): seq<SeriesCell>
  {
    if requested == [] then BaseSeries(first, days)
    else AllSeries(history, requested[..|requested| - 1], windowDays, first, days)
         + CurrencySeries(history, requested[|requested| - 1], windowDays, first, days)
  }

  function Requested(currencies: seq<string>): seq<string> {
    if currencies == [] then []
    else Requested(currencies[..|currencies| - 1])
         + if currencies[|currencies| - 1] != BASE_CURRENCY then [currencies[|currencies| - 1]] else []
  }

  predicate Quoted(history: seq<Rate>, currency: string) {
    exists k :: 0 <= k < |history| && history[k].currency == currency
  }

  lemma {:induction false} RequestedOccurrences(currencies: seq<string>, c: string)
    ensures multiset(Requested(currencies))[c] == if c == BASE_CURRENCY then 0 else multiset(currencies)[c]
  {
    if currencies != [] {
      var front, last := currencies[..|currencies| - 1], currencies[|currencies| - 1];
      RequestedOccurrences(front, c);
      assert currencies == front + [last];
    }
  }

  /** The currencies asked for besides the base one, each as often as it was. */
  lemma RequestedExactly(currencies: seq<string>, c: string)
    ensures multiset(Requested(currencies))[c] == if c == BASE_CURRENCY then 0 else multiset(currencies)[c]
    ensures c in Requested(currencies) <==> c in currencies && c != BASE_CURRENCY
  {
    RequestedOccurrences(currencies, c);
    assert c in Requested(currencies) <==> c in multiset(Requested(currencies));
    assert c in currencies <==> c in multiset(currencies);
  }

  // ---------- what the cells hold ----------

  function MeanOn(history: seq<Rate>, currency: string, windowDays: nat, first: int, i: int): Option<real> {
    SmoothedRateAsOf(history, currency, first + i, windowDays)
  }

  /** The one-date mean of a day if it has one, else that of the next later day of the span that has, else none. */
  ghost predicate MeanOrNext(history: seq<Rate>, currency: string, windowDays: nat, first: int, days: nat, i: nat,
                             rate: Option<real>)
  {
    if rate.None? then forall j :: i <= j < days ==> MeanOn(history, currency, windowDays, first, j).None?
    else exists j :: i <= j < days && MeanFirstAt(history, currency, windowDays, first, i, j, rate)
  }

  ghost predicate MeanFirstAt(history: seq<Rate>, currency: string, windowDays: nat, first: int, i: int, j: int,
                              rate: Option<real>)
  {
    && MeanOn(history, currency, windowDays, first, j) == rate
    && forall m :: i <= m < j ==> MeanOn(history, currency, windowDays, first, m).None?
  }

  /** The cell of a requested currency's day: currencies follow one another, each with its days in order. */
  ghost predicate RequestedCell(history: seq<Rate>, requested: seq<string>, windowDays: nat, first: int, days: nat,
                                cells: seq<SeriesCell>, k: nat, i: nat)
    requires k < |requested| && i < days
  {
    && (k + 1) * days + i < |cells|
    && var cell := cells[(k + 1) * days + i];
      && cell.day == first + i && cell.currency == requested[k]
      && MeanOrNext(history, requested[k], windowDays, first, days, i, cell.rate)
  }

  ghost predicate CellsHold(history: seq<Rate>, requested: seq<string>, windowDays: nat, first: int, days: nat,
                            cells: seq<SeriesCell>)
  {
    && |cells| == (|requested| + 1) * days
    && (forall i :: 0 <= i < days ==> i < |cells| && cells[i] == SeriesCell(first + i, "USD", Some(1.0)))
    && (forall k, i :: 0 <= k < |requested| && 0 <= i < days ==>
          RequestedCell(history, requested, windowDays, first, days, cells, k, i))
  }

  predicate FirstUnquoted(history: seq<Rate>, requested: seq<string>, k: nat)
    requires k < |requested|
  {
    !Quoted(history, requested[k]) && forall j :: 0 <= j < k ==> Quoted(history, requested[j])
  }

  /** The base series and one after another, up to the first currency without history. */
  method CollectSeries(history: seq<Rate>, requested: seq<string>, windowDays: nat, first: int, days: nat)
    returns (known: nat, cells: seq<SeriesCell>)
    ensures known <= |requested| && forall k :: 0 <= k < known ==> Quoted(history, requested[k])
    ensures known < |requested| ==> FirstUnquoted(history, requested, known)
    ensures known == |requested| ==> cells == AllSeries(history, requested, windowDays, first, days)
  {
    cells := BaseSeries(first, days);
    for i := 0 to |requested|
      invariant cells == AllSeries(history, requested[..i], windowDays, first, days)
      invariant forall k :: 0 <= k < i ==> Quoted(history, requested[k])
    {
      var code := requested[i];
      ObservedIffQuoted(history, code);
      if Observations(history, code) == [] {
        known := i;
        return;
      }
      assert requested[..i + 1][..i] == requested[..i] && requested[..i + 1][i] == code;
      cells := cells + CurrencySeries(history, code, windowDays, first, days);
    }
    assert requested[..|requested|] == requested;
    known := |requested|;
  }

  /** One row per calendar day and currency, or the first requested currency that has no history. */
  method SmoothedRateSeries(history: seq<Rate>, currencies: seq<string>, windowDays: nat) returns (result: SeriesResult)
    ensures result.NoHistory? <==> exists c :: c in Requested(currencies) && !Quoted(history, c)
    ensures result.NoHistory? ==>
              exists k :: 0 <= k < |Requested(currencies)| && FirstUnquoted(history, Requested(currencies), k)
                && result.currency == Requested(currencies)[k]
    ensures result.Series? && history == [] ==> result.cells == []
    ensures result.Series? && history != [] ==>
              var days := LastDay(history) - FirstDay(history) + 1;
              days >= 1
                && result.cells == AllSeries(history, Requested(currencies), windowDays, FirstDay(history), days)
                && CellsHold(history, Requested(currencies), windowDays, FirstDay(history), days, result.cells)
  {
    var requested := Requested(currencies);
    if history == [] {
      if requested != [] {
        assert requested[0] in requested && FirstUnquoted(history, requested, 0);
        return NoHistory(requested[0]);
      }
      return Series([]);
    }
    SpanCovers(history);
    var first, days := FirstDay(history), LastDay(history) - FirstDay(history) + 1;
    var known, cells := CollectSeries(history, requested, windowDays, first, days);
    if known < |requested| {
      return NoHistory(requested[known]);
    }
    AllCellsHold(history, requested, windowDays, first, days);
    result := Series(cells);
  }

  lemma {:induction false} ObservedIffQuoted(history: seq<Rate>, currency: string)
    ensures Observations(history, currency) != [] <==> Quoted(history, currency)
  {
    if history != [] {
      var n := |history| - 1;
      ObservedIffQuoted(history[..n], currency);
      if Quoted(history[..n], currency) {
        var k :| 0 <= k < n && history[..n][k].currency == currency;
        assert history[k].currency == currency;
      }
    }
  }

  /** What falls in a window lies between two bounds. */
  ghost predicate AllBetween(history: seq<Rate>, currency: string, first: int, last: int, low: real, high: real) {
    forall r :: r in history && r.currency == currency && first <= r.day <= last ==> low <= r.rate <= high
  }

  /** A number added to itself. */
  function Repeated(count: nat, x: real): real {
    if count == 0 then 0.0 else Repeated(count - 1, x) + x
  }

  lemma {:induction false} RepeatedIsProduct(count: nat, x: real)
    ensures Repeated(count, x) == count as real * x
  {
    if count > 0 {
      RepeatedIsProduct(count - 1, x);
      assert count as real == (count - 1) as real + 1.0;
      assert ((count - 1) as real + 1.0) * x == (count - 1) as real * x + x;
    }
  }

  lemma {:induction false} SumIsBetween(history: seq<Rate>, currency: string, first: int, last: int, low: real,
                                        high: real)
    requires AllBetween(history, currency, first, last, low, high)
    ensures Repeated(CountIn(history, currency, first, last), low) <= SumIn(history, currency, first, last)
    ensures SumIn(history, currency, first, last) <= Repeated(CountIn(history, currency, first, last), high)
  {
    if history != [] {
      assert history[|history| - 1] in history;
      SumIsBetween(history[..|history| - 1], currency, first, last, low, high);
    }
  }

  lemma RatioIsBetween(sum: real, count: nat, low: real, high: real)
    requires count > 0 && Repeated(count, low) <= sum <= Repeated(count, high)
    ensures low <= sum / count as real <= high
  {
    RepeatedIsProduct(count, low);
    RepeatedIsProduct(count, high);
    var mean := sum / count as real;
    assert mean * count as real == sum;
  }

  /** A mean lies between the least and the greatest rate of its window: it is their value if they are all equal. */
  lemma MeanIsBetween(history: seq<Rate>, currency: string, asOf: int, windowDays: nat, low: real, high: real)
    requires AllBetween(history, currency, asOf - windowDays, asOf, low, high)
    requires SmoothedRateAsOf(history, currency, asOf, windowDays).Some?
    ensures low <= SmoothedRateAsOf(history, currency, asOf, windowDays).value <= high
  {
    SumIsBetween(history, currency, asOf - windowDays, asOf, low, high);
    RatioIsBetween(SumIn(history, currency, asOf - windowDays, asOf),
                   CountIn(history, currency, asOf - windowDays, asOf), low, high);
  }

  // ---------- the series against the one-date mean ----------

  lemma {:induction false} CalendarCountsForNothing(rows: seq<SeriesRow>, extra: seq<SeriesRow>, t: int, size: int)
    requires forall row :: row in extra ==> row.rate.None?
    ensures RolledCount(rows + extra, t, size) == RolledCount(rows, t, size)
    ensures RolledSum(rows + extra, t, size) == RolledSum(rows, t, size)
  {
    if extra == [] {
      assert rows + extra == rows;
    } else {
      var n := |extra| - 1;
      assert extra[n] in extra;
      CalendarCountsForNothing(rows, extra[..n], t, size);
      assert (rows + extra)[..|rows + extra| - 1] == rows + extra[..n];
    }
  }

  /** The half-open window one day wider is the closed window. */
  lemma {:induction false} WindowsAgree(history: seq<Rate>, currency: string, t: int, windowDays: nat)
    ensures RolledCount(Observations(history, currency), t, windowDays + 1)
      == CountIn(history, currency, t - windowDays, t)
    ensures RolledSum(Observations(history, currency), t, windowDays + 1) == SumIn(history, currency, t - windowDays, t)
  {
    if history != [] {
      var n := |history| - 1;
      var front, r := Observations(history[..n], currency), history[n];
      WindowsAgree(history[..n], currency, t, windowDays);
      var row := SeriesRow(r.day, Some(r.rate));
      assert (front + [row])[..|front|] == front && front + [] == front;
    }
  }

  /** Before filling, each calendar day holds just what the one-date form answers for it. */
  lemma RolledIsSmoothed(history: seq<Rate>, currency: string, windowDays: nat, first: int, days: nat, i: nat)
    requires i < days
    ensures Rolled(history, currency, windowDays, first, days)[i]
      == SmoothedRateAsOf(history, currency, first + i, windowDays)
  {
    CalendarCountsForNothing(Observations(history, currency), Calendar(first, days), first + i, windowDays + 1);
    WindowsAgree(history, currency, first + i, windowDays);
    assert Rolled(history, currency, windowDays, first, days)[i]
        == RollingMean(Observations(history, currency) + Calendar(first, days), first + i, windowDays + 1);
  }

  /** The next index at or after `i` that has a value, or the end. */
  function NextDefined(values: seq<Option<real>>, i: nat): (k: nat)
    requires i <= |values|
    ensures i <= k <= |values|
    ensures k < |values| ==> values[k].Some?
    ensures forall j :: i <= j < k ==> values[j].None?
    decreases |values| - i
  {
    if i == |values| || values[i].Some? then i else NextDefined(values, i + 1)
  }

  lemma {:induction false} FilledTakesNext(values: seq<Option<real>>, i: nat)
    requires i < |values|
    ensures FilledBackward(values)[i] ==
      if NextDefined(values, i) < |values| then values[NextDefined(values, i)] else None
  {
    NextOfTail(values, i);
    if i > 0 {
      FilledTakesNext(values[1..], i - 1);
      NextOfTail(values, i);
    } else if values[0].None? && |values| > 1 {
      FilledTakesNext(values[1..], 0);
      NextOfTail(values, 1);
      assert NextDefined(values, 0) == NextDefined(values, 1);
    }
  }

  lemma {:induction false} NextOfTail(values: seq<Option<real>>, i: nat)
    requires i <= |values|
    ensures i > 0 ==> NextDefined(values[1..], i - 1) == NextDefined(values, i) - 1
    decreases |values| - i
  {
    if i > 0 && i < |values| && values[i].None? {
      NextOfTail(values, i + 1);
    }
  }

  lemma {:induction false} CountedIffObserved(history: seq<Rate>, currency: string, first: int, last: int)
    ensures CountIn(history, currency, first, last) > 0
            <==> exists k :: 0 <= k < |history| && history[k].currency == currency && first <= history[k].day <= last
  {
    if history != [] {
      var n := |history| - 1;
      CountedIffObserved(history[..n], currency, first, last);
      if CountIn(history[..n], currency, first, last) > 0 {
        var k :| 0 <= k < n && history[..n][k].currency == currency && first <= history[..n][k].day <= last;
        assert history[k].currency == currency;
      }
      if exists k :: 0 <= k < n && history[k].currency == currency && first <= history[k].day <= last {
        var k :| 0 <= k < n && history[k].currency == currency && first <= history[k].day <= last;
        assert history[..n][k] == history[k];
      }
    }
  }

  /**
   * The cell of a calendar day: the one-date mean where that day's window holds anything; otherwise the mean of the
   * next later day whose window does; and nothing at all if there is none.
   */
  lemma SeriesIsSmoothedThenNext(history: seq<Rate>, currency: string, windowDays: nat, first: int, days: nat, i: nat)
    requires i < days
    ensures var cell := CurrencySeries(history, currency, windowDays, first, days)[i];
      var mean := SmoothedRateAsOf(history, currency, first + i, windowDays);
      var next := NextDefined(Rolled(history, currency, windowDays, first, days), i);
      && |CurrencySeries(history, currency, windowDays, first, days)| == days
      && cell.day == first + i && cell.currency == currency
      && (mean.Some? ==> cell.rate == mean)
      && (mean.None?
          ==> cell.rate == if next < days then SmoothedRateAsOf(history, currency, first + next, windowDays) else None)
  {
    var values := Rolled(history, currency, windowDays, first, days);
    FilledTakesNext(values, i);
    RolledIsSmoothed(history, currency, windowDays, first, days, i);
    if NextDefined(values, i) < days {
      RolledIsSmoothed(history, currency, windowDays, first, days, NextDefined(values, i));
    }
  }

  /** A cell stays empty exactly when the currency was last quoted more than a window before that day. */
  lemma EmptyTailExactly(history: seq<Rate>, currency: string, windowDays: nat, i: nat)
    requires history != [] && i < LastDay(history) - FirstDay(history) + 1
    ensures var first, days := FirstDay(history), LastDay(history) - FirstDay(history) + 1;
      CurrencySeries(history, currency, windowDays, first, days)[i].rate.None?
      <==> forall r :: r in history && r.currency == currency ==> r.day < first + i - windowDays
  {
    var first, days := FirstDay(history), LastDay(history) - FirstDay(history) + 1;
    var values := Rolled(history, currency, windowDays, first, days);
    SpanCovers(history);
    SeriesIsSmoothedThenNext(history, currency, windowDays, first, days, i);
    FilledTakesNext(values, i);
    forall r | r in history && r.currency == currency && r.day >= first + i - windowDays
      ensures NextDefined(values, i) < days
    {
      LaterDayIsDefined(history, currency, windowDays, first, days, i, r);
    }
    if NextDefined(values, i) < days {
      DefinedDayIsQuoted(history, currency, windowDays, first, days, NextDefined(values, i));
    }
  }

  lemma LaterDayIsDefined(history: seq<Rate>, currency: string, windowDays: nat, first: int, days: nat, i: nat, r: Rate)
    requires history != [] && first == FirstDay(history) && days == LastDay(history) - first + 1 && i < days
    requires r in history && r.currency == currency && r.day >= first + i - windowDays
    ensures NextDefined(Rolled(history, currency, windowDays, first, days), i) < days
  {
    SpanCovers(history);
    var d := if r.day < first + i then i else r.day - first;
    RolledIsSmoothed(history, currency, windowDays, first, days, d);
    var k :| 0 <= k < |history| && history[k] == r;
    CountedIffObserved(history, currency, first + d - windowDays, first + d);
    assert Rolled(history, currency, windowDays, first, days)[d].Some?;
  }

  lemma DefinedDayIsQuoted(history: seq<Rate>, currency: string, windowDays: nat, first: int, days: nat, d: nat)
    requires d < days && Rolled(history, currency, windowDays, first, days)[d].Some?
    ensures exists r :: r in history && r.currency == currency && r.day >= first + d - windowDays
  {
    RolledIsSmoothed(history, currency, windowDays, first, days, d);
    CountedIffObserved(history, currency, first + d - windowDays, first + d);
    var k :| 0 <= k < |history| && history[k].currency == currency
      && first + d - windowDays <= history[k].day <= first + d;
    assert history[k] in history;
  }

  lemma CurrencySeriesLength(history: seq<Rate>, currency: string, windowDays: nat, first: int, days: nat)
    ensures |CurrencySeries(history, currency, windowDays, first, days)| == days
  {
  }

  /** One row per calendar day and currency, the base currency included. */
  lemma {:induction false} SeriesHasEveryDay(history: seq<Rate>, requested: seq<string>, windowDays: nat, first: int,
                                             days: nat)
    ensures |AllSeries(history, requested, windowDays, first, days)| == (|requested| + 1) * days
  {
    if requested != [] {
      var n := |requested| - 1;
      SeriesHasEveryDay(history, requested[..n], windowDays, first, days);
      CurrencySeriesLength(history, requested[n], windowDays, first, days);
      assert (|requested| + 1) * days == (n + 1) * days + days;
    }
  }

  lemma NextIsMean(history: seq<Rate>, currency: string, windowDays: nat, first: int, days: nat, i: nat)
    requires i < days
    ensures var values := Rolled(history, currency, windowDays, first, days);
      var next := NextDefined(values, i);
      MeanOrNext(history, currency, windowDays, first, days, i, if next < days then values[next] else None)
  {
    var values := Rolled(history, currency, windowDays, first, days);
    var next := NextDefined(values, i);
    forall j | i <= j < days ensures values[j] == MeanOn(history, currency, windowDays, first, j) {
      RolledIsSmoothed(history, currency, windowDays, first, days, j);
    }
    if next < days {
      assert MeanFirstAt(history, currency, windowDays, first, i, next, values[next]);
    }
  }

  lemma CellIsMeanOrNext(history: seq<Rate>, currency: string, windowDays: nat, first: int, days: nat, i: nat)
    requires i < days
    ensures |CurrencySeries(history, currency, windowDays, first, days)| == days
    ensures var cell := CurrencySeries(history, currency, windowDays, first, days)[i];
      && cell.day == first + i && cell.currency == currency
      && MeanOrNext(history, currency, windowDays, first, days, i, cell.rate)
  {
    NextIsMean(history, currency, windowDays, first, days, i);
    FilledTakesNext(Rolled(history, currency, windowDays, first, days), i);
  }

  lemma {:induction false} EarlierBlock(k: nat, n: nat, days: nat, i: nat)
    requires k < n && i < days
    ensures (k + 1) * days + i < (n + 1) * days
  {
    assert (n + 1) * days == n * days + days;
    if k + 1 < n {
      EarlierBlock(k, n - 1, days, i);
    }
  }

  lemma {:induction false} RequestedCellHolds(history: seq<Rate>, requested: seq<string>, windowDays: nat, first: int,
                                              days: nat, k: nat, i: nat)
    requires k < |requested| && i < days
    ensures RequestedCell(history, requested, windowDays, first, days,
                          AllSeries(history, requested, windowDays, first, days), k, i)
  {
    var n := |requested| - 1;
    var front, last := requested[..n], requested[n];
    SeriesHasEveryDay(history, front, windowDays, first, days);
    CellIsMeanOrNext(history, last, windowDays, first, days, i);
    if k < n {
      EarlierBlock(k, n, days, i);
      RequestedCellHolds(history, front, windowDays, first, days, k, i);
    } else {
      assert |front| == k;
      assert (k + 1) * days == |AllSeries(history, front, windowDays, first, days)|;
    }
  }

  lemma {:induction false} BaseComesFirst(history: seq<Rate>, requested: seq<string>, windowDays: nat, first: int,
                                          days: nat)
    ensures BaseSeries(first, days) <= AllSeries(history, requested, windowDays, first, days)
  {
    if requested != [] {
      BaseComesFirst(history, requested[..|requested| - 1], windowDays, first, days);
    }
  }

  /** The base currency at one for every day, then each requested currency with its own mean or the next there is. */
  lemma AllCellsHold(history: seq<Rate>, requested: seq<string>, windowDays: nat, first: int, days: nat)
    ensures CellsHold(history, requested, windowDays, first, days,
                      AllSeries(history, requested, windowDays, first, days))
  {
    SeriesHasEveryDay(history, requested, windowDays, first, days);
    BaseComesFirst(history, requested, windowDays, first, days);
    forall k, i | 0 <= k < |requested| && 0 <= i < days
      ensures RequestedCell(history, requested, windowDays, first, days,
                            AllSeries(history, requested, windowDays, first, days), k, i)
    {
      RequestedCellHolds(history, requested, windowDays, first, days, k, i);
    }
  }
}
