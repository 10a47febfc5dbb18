/**
 * Funding goals from a pool and draining them to cover a shortfall, in priority order
 * (accounting/ledger/goal_automations.py).
 */
module Goals {
  import opened Frame

  datatype Mode = FixedAmount | PercentOfUnallocated | Remainder

  datatype Automation = Automation(id: string, goal: string, priority: int, mode: Option<Mode>, value: Option<real>)

  // ---------- priority order ----------

  /** After everything of the same or a lower priority number: the sort is stable. */
  function InsertByPriority(a: Automation, sorted: seq<Automation>): seq<Automation> {
    if sorted == [] || a.priority < sorted[0].priority then [a] + sorted
    else [sorted[0]] + InsertByPriority(a, sorted[1..])
  }

  function ByPriority(automations: seq<Automation>): seq<Automation> {
    if automations == [] then []
    else InsertByPriority(automations[|automations| - 1], ByPriority(automations[..|automations| - 1]))
  }

  lemma {:induction false} InsertKeepsAll(a: Automation, sorted: seq<Automation>)
    ensures multiset(InsertByPriority(a, sorted)) == multiset(sorted) + multiset{a}
    ensures |InsertByPriority(a, sorted)| == |sorted| + 1
  {
    if sorted == [] || a.priority < sorted[0].priority {
    } else {
      InsertKeepsAll(a, sorted[1..]);
      assert sorted == [sorted[0]] + sorted[1..];
    }
  }

  ghost predicate InPriorityOrder(sorted: seq<Automation>) {
    forall i, j :: 0 <= i < j < |sorted| ==> sorted[i].priority <= sorted[j].priority
  }

  lemma {:induction false} InsertKeepsOrder(a: Automation, sorted: seq<Automation>)
    requires InPriorityOrder(sorted)
    ensures InPriorityOrder(InsertByPriority(a, sorted))
    ensures forall x :: x in InsertByPriority(a, sorted) ==> x == a || x in sorted
  {
    if sorted == [] || a.priority < sorted[0].priority {
    } else {
      InsertKeepsOrder(a, sorted[1..]);
      var rest := InsertByPriority(a, sorted[1..]);
      forall j | 0 <= j < |rest| ensures sorted[0].priority <= rest[j].priority {
        assert rest[j] in rest;
      }
    }
  }

  /** The automations of one priority, in the order they come. */
  function OfPriority(automations: seq<Automation>, priority: int): seq<Automation> {
    if automations == [] then []
    else (if automations[0].priority == priority then [automations[0]] else []) + OfPriority(automations[1..], priority)
  }

  lemma {:induction false} OfPrioritySnoc(automations: seq<Automation>, a: Automation, priority: int)
    ensures OfPriority(automations + [a], priority)
      == OfPriority(automations, priority) + if a.priority == priority then [a] else []
  {
    if automations == [] {
      assert (automations + [a])[1..] == [];
    } else {
      OfPrioritySnoc(automations[1..], a, priority);
      assert (automations + [a])[1..] == automations[1..] + [a];
    }
  }

  lemma {:induction false} NoneOfPriority(automations: seq<Automation>, priority: int)
    requires forall x :: x in automations ==> x.priority != priority
    ensures OfPriority(automations, priority) == []
  {
    if automations != [] {
      assert automations[0] in automations;
      NoneOfPriority(automations[1..], priority);
    }
  }

  /** An insertion goes last among its own priority. */
  lemma {:induction false} InsertGoesLast(a: Automation, sorted: seq<Automation>, priority: int)
    requires InPriorityOrder(sorted)
    ensures OfPriority(InsertByPriority(a, sorted), priority)
      == OfPriority(sorted, priority) + if a.priority == priority then [a] else []
  {
    if sorted == [] || a.priority < sorted[0].priority {
      assert ([a] + sorted)[1..] == sorted;
      if a.priority == priority {
        NoneOfPriority(sorted, priority);
      }
    } else {
      InsertGoesLast(a, sorted[1..], priority);
      assert InsertByPriority(a, sorted)[1..] == InsertByPriority(a, sorted[1..]);
    }
  }

  /** Lowest priority number first; the same automations, those of one priority in the order they came. */
  lemma {:induction false} ByPriorityIsSorted(automations: seq<Automation>)
    ensures InPriorityOrder(ByPriority(automations))
    ensures multiset(ByPriority(automations)) == multiset(automations)
    ensures forall priority :: OfPriority(ByPriority(automations), priority) == OfPriority(automations, priority)
  {
    if automations != [] {
      var n := |automations| - 1;
      var front, last := automations[..n], automations[n];
      ByPriorityIsSorted(front);
      InsertKeepsAll(last, ByPriority(front));
      InsertKeepsOrder(last, ByPriority(front));
      assert automations == front + [last];
      forall priority ensures OfPriority(ByPriority(automations), priority) == OfPriority(automations, priority) {
        InsertGoesLast(last, ByPriority(front), priority);
        OfPrioritySnoc(front, last, priority);
      }
    }
  }

  function Min(a: real, b: real): real {
    if a <= b then a else b
  }

  function Positive(x: real): real {
    if x > 0.0 then x else 0.0
  }

  /** What one automation moved. */
  datatype Move = Move(name: string, amount: real)

  function Total(moves: seq<Move>): real {
    if moves == [] then 0.0 else Total(moves[..|moves| - 1]) + moves[|moves| - 1].amount
  }

  lemma TotalSnoc(moves: seq<Move>, move: Move)
    ensures Total(moves + [move]) == Total(moves) + move.amount
  {
    assert (moves + [move])[..|moves|] == moves;
  }

  // ---------- draining ----------

  function Available(balances: map<string, real>, goal: string): real {
    if goal in balances then Positive(balances[goal]) else 0.0
  }

  /** What the goals listed so far could give, each listing counted. */
  function Listed(sorted: seq<Automation>, balances: map<string, real>): real {
    if sorted == [] then 0.0
    else Listed(sorted[..|sorted| - 1], balances) + Available(balances, sorted[|sorted| - 1].goal)
  }

  lemma {:induction false} ListedIsPositive(sorted: seq<Automation>, balances: map<string, real>, i: nat)
    requires i <= |sorted|
    ensures 0.0 <= Listed(sorted[..i], balances) <= Listed(sorted, balances)
  {
    if i < |sorted| {
      ListedIsPositive(sorted[..|sorted| - 1], balances, i);
      assert sorted[..|sorted| - 1][..i] == sorted[..i];
    } else {
      assert sorted[..i] == sorted;
      if sorted != [] {
        ListedIsPositive(sorted[..|sorted| - 1], balances, |sorted| - 1);
      }
    }
  }

  /** What the i-th listing gives: what is left of the shortfall after everything before it, up to what it has. */
  function Given(sorted: seq<Automation>, balances: map<string, real>, shortfall: real, i: nat): real
    requires i < |sorted|
  {
    Positive(Min(Available(balances, sorted[i].goal), shortfall - Listed(sorted[..i], balances)))
  }

  /** The withdrawals of the first listings: one for each that gives anything. */
  function Withdrawals(sorted: seq<Automation>, balances: map<string, real>, shortfall: real, upTo: nat): seq<Move>
    requires upTo <= |sorted|
  {
    if upTo == 0 then []
    else
      var given := Given(sorted, balances, shortfall, upTo - 1);
      Withdrawals(sorted, balances, shortfall, upTo - 1)
      + if given > 0.0 then [Move(sorted[upTo - 1].goal, -given)] else []
  }

  /** What is left of the shortfall after some listings. */
  function Left(shortfall: real, listed: real): real {
    if shortfall >= listed then shortfall - listed else if shortfall > 0.0 then 0.0 else shortfall
  }

  lemma LeftStep(shortfall: real, listed: real, available: real)
    requires listed >= 0.0 && available >= 0.0 && Left(shortfall, listed) > 0.0
    ensures Positive(Min(available, shortfall - listed)) == Min(available, Left(shortfall, listed))
    ensures Left(shortfall, listed + available) == Left(shortfall, listed) - Min(available, Left(shortfall, listed))
  {
  }

  /** Take from each goal in turn what it has, until the shortfall is covered. */
  method RunWithdrawalAutomation(automations: seq<Automation>, balances: map<string, real>, shortfall: real)
    returns (withdrawals: seq<Move>)
    ensures withdrawals == Withdrawals(ByPriority(automations), balances, shortfall, |ByPriority(automations)|)
  {
    var sorted := ByPriority(automations);
    var remaining := shortfall;
    withdrawals := [];
    var i := 0;
    while i < |sorted|
      invariant i <= |sorted|
      invariant withdrawals == Withdrawals(sorted, balances, shortfall, i)
      invariant remaining == Left(shortfall, Listed(sorted[..i], balances))
    {
      ListedStep(sorted, balances, i);
      if remaining <= 0.0 {
        NothingMore(sorted, balances, shortfall, i);
        return;
      }
      LeftStep(shortfall, Listed(sorted[..i], balances), Available(balances, sorted[i].goal));
      var available := if sorted[i].goal in balances then balances[sorted[i].goal] else 0.0;
      if available > 0.0 {
        var amount := Min(available, remaining);
        withdrawals := withdrawals + [Move(sorted[i].goal, -amount)];
        remaining := remaining - amount;
      }
      i := i + 1;
    }
    assert sorted[..|sorted|] == sorted;
  }

  lemma {:induction false} NothingMore(sorted: seq<Automation>, balances: map<string, real>, shortfall: real, i: nat)
    requires i <= |sorted| && shortfall <= Listed(sorted[..i], balances)
    ensures Withdrawals(sorted, balances, shortfall, |sorted|) == Withdrawals(sorted, balances, shortfall, i)
    decreases |sorted| - i
  {
    if i < |sorted| {
      ListedStep(sorted, balances, i);
      NothingMore(sorted, balances, shortfall, i + 1);
    }
  }

  lemma CoverOneMore(shortfall: real, listed: real, available: real)
    requires listed >= 0.0 && available >= 0.0
    ensures Positive(Min(shortfall, listed + available))
         == Positive(Min(shortfall, listed)) + Positive(Min(available, shortfall - listed))
  {
  }

  lemma WithdrawalsStep(sorted: seq<Automation>, balances: map<string, real>, shortfall: real, n: nat)
    requires n < |sorted|
    ensures Total(Withdrawals(sorted, balances, shortfall, n + 1))
         == Total(Withdrawals(sorted, balances, shortfall, n)) - Given(sorted, balances, shortfall, n)
  {
    var before, given := Withdrawals(sorted, balances, shortfall, n), Given(sorted, balances, shortfall, n);
    TotalSnoc(before, Move(sorted[n].goal, -given));
    assert before + [] == before;
  }

  lemma ListedStep(sorted: seq<Automation>, balances: map<string, real>, n: nat)
    requires n < |sorted|
    ensures Listed(sorted[..n + 1], balances) == Listed(sorted[..n], balances) + Available(balances, sorted[n].goal)
    ensures Listed(sorted[..n], balances) >= 0.0
  {
    assert sorted[..n + 1][..n] == sorted[..n] && sorted[..n + 1][n] == sorted[n];
    ListedIsPositive(sorted, balances, n);
  }

  /** Withdrawals cover the shortfall, or everything the listed goals have if that is less. */
  lemma {:induction false} WithdrawalsCover(sorted: seq<Automation>, balances: map<string, real>, shortfall: real,
                                            upTo: nat)
    requires upTo <= |sorted|
    ensures -Total(Withdrawals(sorted, balances, shortfall, upTo))
      == Positive(Min(shortfall, Listed(sorted[..upTo], balances)))
    ensures forall w :: w in Withdrawals(sorted, balances, shortfall, upTo) ==> w.amount < 0.0
  {
    if upTo > 0 {
      var n := upTo - 1;
      WithdrawalsCover(sorted, balances, shortfall, n);
      WithdrawalsStep(sorted, balances, shortfall, n);
      ListedStep(sorted, balances, n);
      CoverOneMore(shortfall, Listed(sorted[..n], balances), Available(balances, sorted[n].goal));
    }
  }

  /** A goal is touched only once every goal before it is empty. */
  lemma PriorityIsKept(sorted: seq<Automation>, balances: map<string, real>, shortfall: real, i: nat, j: nat)
    requires i < j < |sorted| && Given(sorted, balances, shortfall, j) > 0.0
    ensures Given(sorted, balances, shortfall, i) == Available(balances, sorted[i].goal)
  {
    ListedIsPositive(sorted[..j], balances, i + 1);
    assert sorted[..j][..i + 1] == sorted[..i + 1];
    assert sorted[..i + 1][..i] == sorted[..i] && sorted[..i + 1][i] == sorted[i];
  }

  /** What is taken from one goal in all. */
  function TakenFrom(moves: seq<Move>, goal: string): real {
    if moves == [] then 0.0
    else
      var last := moves[|moves| - 1];
      TakenFrom(moves[..|moves| - 1], goal) + if last.name == goal then -last.amount else 0.0
  }

  predicate ListedOnce(sorted: seq<Automation>, goal: string) {
    forall i, j :: 0 <= i < j < |sorted| ==> !(sorted[i].goal == goal && sorted[j].goal == goal)
  }

  lemma {:induction false} TakenIsGiven(sorted: seq<Automation>, balances: map<string, real>, shortfall: real,
                                        upTo: nat, i: nat)
    requires i < upTo <= |sorted| && ListedOnce(sorted, sorted[i].goal)
    ensures TakenFrom(Withdrawals(sorted, balances, shortfall, upTo), sorted[i].goal)
      == Given(sorted, balances, shortfall, i)
  {
    var n := upTo - 1;
    TakenStep(sorted, balances, shortfall, n, sorted[i].goal);
    if i < n {
      TakenIsGiven(sorted, balances, shortfall, n, i);
    } else {
      UnlistedIsUntouched(sorted, balances, shortfall, n, sorted[i].goal);
    }
  }

  lemma {:induction false} UnlistedIsUntouched(sorted: seq<Automation>, balances: map<string, real>, shortfall: real,
                                               upTo: nat, goal: string)
    requires upTo <= |sorted| && forall i :: 0 <= i < upTo ==> sorted[i].goal != goal
    ensures TakenFrom(Withdrawals(sorted, balances, shortfall, upTo), goal) == 0.0
  {
    if upTo > 0 {
      UnlistedIsUntouched(sorted, balances, shortfall, upTo - 1, goal);
      TakenStep(sorted, balances, shortfall, upTo - 1, goal);
    }
  }

  /** No goal is taken below zero. */
  ghost predicate NeverOverdraws(sorted: seq<Automation>, balances: map<string, real>) {
    forall shortfall: real, goal: string ::
      TakenFrom(Withdrawals(sorted, balances, shortfall, |sorted|), goal) <= Available(balances, goal)
  }

  lemma GivenInFull(sorted: seq<Automation>, balances: map<string, real>, shortfall: real, i: nat)
    requires i < |sorted| && shortfall >= Listed(sorted, balances)
    ensures Given(sorted, balances, shortfall, i) == Available(balances, sorted[i].goal)
  {
    ListedIsPositive(sorted, balances, i + 1);
    assert sorted[..i + 1][..i] == sorted[..i] && sorted[..i + 1][i] == sorted[i];
  }

  function Times(n: nat, x: real): real {
    if n == 0 then 0.0 else Times(n - 1, x) + x
  }

  lemma {:induction false} AtLeastTwice(n: nat, x: real)
    requires n >= 2 && x > 0.0
    ensures Times(n, x) > x
  {
    if n > 2 {
      AtLeastTwice(n - 1, x);
    } else {
      assert Times(2, x) == Times(1, x) + x && Times(1, x) == Times(0, x) + x;
    }
  }

  lemma InFullStep(sorted: seq<Automation>, balances: map<string, real>, shortfall: real, n: nat, goal: string)
    requires n < |sorted| && shortfall >= Listed(sorted, balances)
    requires TakenFrom(Withdrawals(sorted, balances, shortfall, n), goal)
          == Times(ListingsOf(sorted, goal, n), Available(balances, goal))
    ensures TakenFrom(Withdrawals(sorted, balances, shortfall, n + 1), goal)
         == Times(ListingsOf(sorted, goal, n + 1), Available(balances, goal))
  {
    TakenStep(sorted, balances, shortfall, n, goal);
    if sorted[n].goal == goal {
      GivenInFull(sorted, balances, shortfall, n);
    }
  }

  lemma {:induction false} TakenInFull(sorted: seq<Automation>, balances: map<string, real>, shortfall: real, upTo: nat,
                                       goal: string)
    requires upTo <= |sorted| && shortfall >= Listed(sorted, balances)
    ensures TakenFrom(Withdrawals(sorted, balances, shortfall, upTo), goal)
         == Times(ListingsOf(sorted, goal, upTo), Available(balances, goal))
  {
    if upTo > 0 {
      TakenInFull(sorted, balances, shortfall, upTo - 1, goal);
      InFullStep(sorted, balances, shortfall, upTo - 1, goal);
    }
  }

  lemma TakenStep(sorted: seq<Automation>, balances: map<string, real>, shortfall: real, n: nat, goal: string)
    requires n < |sorted|
    ensures TakenFrom(Withdrawals(sorted, balances, shortfall, n + 1), goal)
         == TakenFrom(Withdrawals(sorted, balances, shortfall, n), goal)
            + if sorted[n].goal == goal then Given(sorted, balances, shortfall, n) else 0.0
  {
    var before := Withdrawals(sorted, balances, shortfall, n);
    var given := Given(sorted, balances, shortfall, n);
    assert (before + [Move(sorted[n].goal, -given)])[..|before|] == before && before + [] == before;
  }

  function ListingsOf(sorted: seq<Automation>, goal: string, upTo: nat): nat
    requires upTo <= |sorted|
  {
    if upTo == 0 then 0 else ListingsOf(sorted, goal, upTo - 1) + if sorted[upTo - 1].goal == goal then 1 else 0
  }

  lemma {:induction false} TwoListings(sorted: seq<Automation>, goal: string, i: nat, j: nat, upTo: nat)
    requires i < j < upTo <= |sorted| && sorted[i].goal == goal && sorted[j].goal == goal
    ensures ListingsOf(sorted, goal, upTo) >= 2
  {
    if j < upTo - 1 {
      TwoListings(sorted, goal, i, j, upTo - 1);
    } else {
      OneListing(sorted, goal, i, upTo - 1);
    }
  }

  lemma {:induction false} OneListing(sorted: seq<Automation>, goal: string, i: nat, upTo: nat)
    requires i < upTo <= |sorted| && sorted[i].goal == goal
    ensures ListingsOf(sorted, goal, upTo) >= 1
  {
    if i < upTo - 1 {
      OneListing(sorted, goal, i, upTo - 1);
    }
  }

  /** Whatever the shortfall, no goal goes below zero, exactly if no goal that has money is listed twice. */
  lemma OverdrawsIffListedTwice(sorted: seq<Automation>, balances: map<string, real>)
    ensures NeverOverdraws(sorted, balances)
            <==> forall goal :: Available(balances, goal) > 0.0 ==> ListedOnce(sorted, goal)
  {
    if forall goal :: Available(balances, goal) > 0.0 ==> ListedOnce(sorted, goal) {
      forall shortfall: real, goal: string
        ensures TakenFrom(Withdrawals(sorted, balances, shortfall, |sorted|), goal) <= Available(balances, goal)
      {
        ListedOnceIsSafe(sorted, balances, shortfall, goal);
      }
    }
    if NeverOverdraws(sorted, balances) {
      forall goal | Available(balances, goal) > 0.0 ensures ListedOnce(sorted, goal) {
        SafeIsListedOnce(sorted, balances, goal);
      }
    }
  }

  lemma SafeIsListedOnce(sorted: seq<Automation>, balances: map<string, real>, goal: string)
    requires Available(balances, goal) > 0.0
    ensures NeverOverdraws(sorted, balances) ==> ListedOnce(sorted, goal)
  {
    var all := Listed(sorted, balances);
    TakenInFull(sorted, balances, all, |sorted|, goal);
    forall i, j | 0 <= i < j < |sorted| && sorted[i].goal == goal && sorted[j].goal == goal
      ensures TakenFrom(Withdrawals(sorted, balances, all, |sorted|), goal) > Available(balances, goal)
    {
      TwoListings(sorted, goal, i, j, |sorted|);
      AtLeastTwice(ListingsOf(sorted, goal, |sorted|), Available(balances, goal));
    }
  }

  lemma ListedOnceIsSafe(sorted: seq<Automation>, balances: map<string, real>, shortfall: real, goal: string)
    requires Available(balances, goal) > 0.0 ==> ListedOnce(sorted, goal)
    ensures TakenFrom(Withdrawals(sorted, balances, shortfall, |sorted|), goal) <= Available(balances, goal)
  {
    if i: nat :| i < |sorted| && sorted[i].goal == goal {
      if Available(balances, goal) > 0.0 {
        TakenIsGiven(sorted, balances, shortfall, |sorted|, i);
      } else {
        EmptyGivesNothing(sorted, balances, shortfall, |sorted|, goal);
      }
    } else {
      UnlistedIsUntouched(sorted, balances, shortfall, |sorted|, goal);
    }
  }

  lemma {:induction false} EmptyGivesNothing(sorted: seq<Automation>, balances: map<string, real>, shortfall: real,
                                             upTo: nat, goal: string)
    requires upTo <= |sorted| && Available(balances, goal) == 0.0
    ensures TakenFrom(Withdrawals(sorted, balances, shortfall, upTo), goal) == 0.0
  {
    if upTo > 0 {
      EmptyGivesNothing(sorted, balances, shortfall, upTo - 1, goal);
      TakenStep(sorted, balances, shortfall, upTo - 1, goal);
    }
  }

  // ---------- funding ----------

  /** What an automation asks for: a share is of the pool as it stood before the run. */
  function Wanted(a: Automation, pool: real, remaining: real): real
    requires a.mode.Some? && a.value.Some?
  {
    match a.mode.value
    case FixedAmount => a.value.value
    case PercentOfUnallocated => pool * (a.value.value / 100.0)
    case Remainder => remaining
  }

  /** What the next automation gets. */
  function Funded(a: Automation, pool: real, remaining: real): real {
    if remaining <= 0.0 || a.mode.None? || a.value.None? then 0.0
    else Positive(Min(Wanted(a, pool, remaining), remaining))
  }

  /** The additions of the first automations, and what is left of the pool. */
  function Additions(sorted: seq<Automation>, pool: real, upTo: nat): (seq<Move>, real)
    requires upTo <= |sorted|
  {
    if upTo == 0 then ([], pool)
    else
      var (moves, remaining) := Additions(sorted, pool, upTo - 1);
      var amount := Funded(sorted[upTo - 1], pool, remaining);
      if amount > 0.0 then (moves + [Move(sorted[upTo - 1].id, amount)], remaining - amount) else (moves, remaining)
  }

  // ---------- what each automation gets, on its own ----------

  /** What it asks for by itself: its amount, or its percentage of the whole pool. */
  function Ask(a: Automation, pool: real): real {
    if a.value.None? then 0.0
    else if a.mode == Some(FixedAmount) then Positive(a.value.value)
    else if a.mode == Some(PercentOfUnallocated) then Positive(pool * a.value.value / 100.0)
    else 0.0
  }

  function Asked(sorted: seq<Automation>, pool: real, upTo: nat): real
    requires upTo <= |sorted|
  {
    if upTo == 0 then 0.0 else Asked(sorted, pool, upTo - 1) + Ask(sorted[upTo - 1], pool)
  }

  predicate TakesTheRest(a: Automation) {
    a.mode == Some(Remainder) && a.value.Some?
  }

  predicate RestTaken(sorted: seq<Automation>, i: nat)
    requires i <= |sorted|
  {
    exists j :: 0 <= j < i && TakesTheRest(sorted[j])
  }

  /** What the pool has beyond all that is asked for before it, up to its own ask; nothing once a remainder has run. */
  function Due(sorted: seq<Automation>, pool: real, i: nat): real
    requires i < |sorted|
  {
    var left := pool - Asked(sorted, pool, i);
    if RestTaken(sorted, i) then 0.0
    else if TakesTheRest(sorted[i]) then Positive(left)
    else Positive(Min(Ask(sorted[i], pool), left))
  }

  /** An addition for each automation that is due anything, in order. */
  function Paid(sorted: seq<Automation>, pool: real, upTo: nat): seq<Move>
    requires upTo <= |sorted|
  {
    if upTo == 0 then []
    else
      var before, due := Paid(sorted, pool, upTo - 1), Due(sorted, pool, upTo - 1);
      if due > 0.0 then before + [Move(sorted[upTo - 1].id, due)] else before
  }

  function Unspent(sorted: seq<Automation>, pool: real, i: nat): real
    requires i <= |sorted|
  {
    if pool <= 0.0 then pool else if RestTaken(sorted, i) then 0.0 else Positive(pool - Asked(sorted, pool, i))
  }

  lemma {:induction false} AskedGrows(sorted: seq<Automation>, pool: real, i: nat, j: nat)
    requires i <= j <= |sorted|
    ensures 0.0 <= Asked(sorted, pool, i) <= Asked(sorted, pool, j)
    decreases j
  {
    if i < j {
      AskedGrows(sorted, pool, i, j - 1);
    } else if j > 0 {
      AskedGrows(sorted, pool, j - 1, j - 1);
    }
  }

  lemma WantedIsAsk(a: Automation, pool: real, remaining: real)
    requires a.mode.Some? && a.value.Some?
    ensures Positive(Wanted(a, pool, remaining)) == if TakesTheRest(a) then Positive(remaining) else Ask(a, pool)
  {
  }

  lemma NextIsDue(sorted: seq<Automation>, pool: real, i: nat)
    requires i < |sorted|
    ensures Funded(sorted[i], pool, Unspent(sorted, pool, i)) == Due(sorted, pool, i)
    ensures Unspent(sorted, pool, i + 1) == Unspent(sorted, pool, i) - Due(sorted, pool, i)
  {
    AskedGrows(sorted, pool, i, i + 1);
    if sorted[i].mode.Some? && sorted[i].value.Some? {
      WantedIsAsk(sorted[i], pool, Unspent(sorted, pool, i));
    }
    assert RestTaken(sorted, i + 1) <==> RestTaken(sorted, i) || TakesTheRest(sorted[i]);
  }

  /** Running down the pool gives each automation what it is due of the pool as it stood. */
  lemma {:induction false} AdditionsAreDue(sorted: seq<Automation>, pool: real, upTo: nat)
    requires upTo <= |sorted|
    ensures Additions(sorted, pool, upTo) == (Paid(sorted, pool, upTo), Unspent(sorted, pool, upTo))
  {
    if upTo == 0 {
      assert Asked(sorted, pool, 0) == 0.0 && !RestTaken(sorted, 0);
    } else {
      AdditionsAreDue(sorted, pool, upTo - 1);
      NextIsDue(sorted, pool, upTo - 1);
    }
  }

  lemma {:induction false} DueIsPaid(sorted: seq<Automation>, pool: real, upTo: nat, i: nat)
    requires i < upTo <= |sorted| && Due(sorted, pool, i) > 0.0
    ensures Move(sorted[i].id, Due(sorted, pool, i)) in Paid(sorted, pool, upTo)
  {
    if i < upTo - 1 {
      DueIsPaid(sorted, pool, upTo - 1, i);
    }
  }

  /**
   * If the pool covers every fixed amount and every percentage of it, each automation ahead of a remainder gets exactly
   * that, whatever its place in the order.
   */
  lemma CoveredGetsItsAsk(sorted: seq<Automation>, pool: real, i: nat, ask: real)
    requires i < |sorted| && !RestTaken(sorted, i) && Asked(sorted, pool, |sorted|) <= pool && sorted[i].value.Some?
    requires sorted[i].mode == Some(FixedAmount) || sorted[i].mode == Some(PercentOfUnallocated)
    requires ask == if sorted[i].mode == Some(FixedAmount) then sorted[i].value.value
                    else pool * sorted[i].value.value / 100.0
    requires ask > 0.0
    ensures Move(sorted[i].id, ask) in Paid(sorted, pool, |sorted|)
  {
    AskedGrows(sorted, pool, i + 1, |sorted|);
    assert Asked(sorted, pool, i + 1) == Asked(sorted, pool, i) + Ask(sorted[i], pool);
    assert Ask(sorted[i], pool) == ask;
    DueIsPaid(sorted, pool, |sorted|, i);
    assert Due(sorted, pool, i) == ask;
  }

  /** Fund each automation in turn with what it asks for, until the pool runs out. */
  method RunRecurringAdditions(automations: seq<Automation>, unallocated: real) returns (funded: seq<Move>)
    ensures funded == Paid(ByPriority(automations), unallocated, |ByPriority(automations)|)
    ensures funded == Additions(ByPriority(automations), unallocated, |ByPriority(automations)|).0
  {
    var sorted := ByPriority(automations);
    var remaining := unallocated;
    AdditionsAreDue(sorted, unallocated, |sorted|);
    funded := [];
    var i := 0;
    while i < |sorted|
      invariant i <= |sorted|
      invariant (funded, remaining) == Additions(sorted, unallocated, i)
    {
      if remaining <= 0.0 {
        PoolIsEmpty(sorted, unallocated, i, |sorted|);
        return;
      }
      var a := sorted[i];
      if a.mode.Some? && a.value.Some? {
        var amount := Min(Wanted(a, unallocated, remaining), remaining);
        if amount > 0.0 {
          funded := funded + [Move(a.id, amount)];
          remaining := remaining - amount;
        }
      }
      i := i + 1;
    }
  }

  lemma {:induction false} PoolIsEmpty(sorted: seq<Automation>, pool: real, i: nat, upTo: nat)
    requires i <= upTo <= |sorted| && Additions(sorted, pool, i).1 <= 0.0
    ensures Additions(sorted, pool, upTo) == Additions(sorted, pool, i)
    decreases upTo
  {
    if i < upTo {
      PoolIsEmpty(sorted, pool, i, upTo - 1);
    }
  }

  /**
   * Every addition is positive, and together with what is left they are the pool; a positive pool is never overspent.
   */
  lemma {:induction false} AdditionsFitThePool(sorted: seq<Automation>, pool: real, upTo: nat)
    requires upTo <= |sorted|
    ensures var (moves, remaining) := Additions(sorted, pool, upTo);
      && Total(moves) + remaining == pool
      && (pool >= 0.0 ==> remaining >= 0.0)
      && (pool <= 0.0 ==> moves == [])
      && forall m :: m in moves ==> m.amount > 0.0
  {
    if upTo > 0 {
      AdditionsFitThePool(sorted, pool, upTo - 1);
      var (moves, remaining) := Additions(sorted, pool, upTo - 1);
      var amount := Funded(sorted[upTo - 1], pool, remaining);
      TotalSnoc(moves, Move(sorted[upTo - 1].id, amount));
    }
  }

  /** An automation that gets less than it asked for is the last one to get anything. */
  lemma UnderfundedIsLast(sorted: seq<Automation>, pool: real, i: nat)
    requires i < |sorted| && sorted[i].mode.Some? && sorted[i].value.Some?
    requires var remaining := Additions(sorted, pool, i).1;
      0.0 < remaining && Funded(sorted[i], pool, remaining) < Wanted(sorted[i], pool, remaining)
    ensures Additions(sorted, pool, |sorted|) == Additions(sorted, pool, i + 1)
    ensures Additions(sorted, pool, |sorted|).1 == 0.0
  {
    PoolIsEmpty(sorted, pool, i + 1, |sorted|);
  }

  /** With a remainder automation last, a positive pool is used exactly. */
  lemma RemainderUsesThePool(sorted: seq<Automation>, pool: real)
    requires sorted != [] && sorted[|sorted| - 1].mode == Some(Remainder) && sorted[|sorted| - 1].value.Some?
    requires pool > 0.0
    ensures Total(Additions(sorted, pool, |sorted|).0) == pool
  {
    AdditionsFitThePool(sorted, pool, |sorted| - 1);
    AdditionsFitThePool(sorted, pool, |sorted|);
  }
}
