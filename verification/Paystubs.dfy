/**
 * Matching a paystub's deposits to bank postings, and proposing how to split them (accounting/dashboard/paystub.py).
 */
module Paystubs {
  import opened Frame

  /** Amounts in ten-thousandths. */
  datatype Deposit = Deposit(amount: int, lastFour: Option<string>)

  datatype BankPosting = BankPosting(posting: string, account: string, day: int, amount: int)

  datatype Match = Match(deposit: Deposit, posting: Option<string>)

  // ---------- matching deposits ----------

  /** One cent. */
  const AMOUNT_TOLERANCE := 100

  /** A posting a deposit could be: the amount to the cent, and if the deposit names an account ending, that account. */
  predicate Fits(deposit: Deposit, p: BankPosting, lastFour: map<string, string>) {
    && -AMOUNT_TOLERANCE <= p.amount - deposit.amount <= AMOUNT_TOLERANCE
    && (deposit.lastFour.Some? ==> p.account in lastFour && lastFour[p.account] == deposit.lastFour.value)
  }

  /** Positive postings near pay day. */
  function Candidates(postings: seq<BankPosting>, payDay: int, tolerance: int): seq<BankPosting> {
    if postings == [] then []
    else (if payDay - tolerance <= postings[0].day <= payDay + tolerance && postings[0].amount > 0 then [postings[0]]
          else [])
         + Candidates(postings[1..], payDay, tolerance)
  }

  /** The first candidate that fits and is not taken. */
  function FirstFit(candidates: seq<BankPosting>, deposit: Deposit, lastFour: map<string, string>, used: set<string>)
    : Option<string>
  {
    if candidates == [] then None
    else if candidates[0].posting !in used && Fits(deposit, candidates[0], lastFour) then Some(candidates[0].posting)
    else FirstFit(candidates[1..], deposit, lastFour, used)
  }

  function Claimed(matches: seq<Match>): set<string> {
    set i | 0 <= i < |matches| && matches[i].posting.Some? :: matches[i].posting.value
  }

  function Matched(deposits: seq<Deposit>, candidates: seq<BankPosting>, lastFour: map<string, string>): seq<Match> {
    if deposits == [] then []
    else
      var before := Matched(deposits[..|deposits| - 1], candidates, lastFour);
      var deposit := deposits[|deposits| - 1];
      before + [Match(deposit, FirstFit(candidates, deposit, lastFour, Claimed(before)))]
  }

  lemma ClaimedSnoc(matches: seq<Match>, match_: Match)
    ensures Claimed(matches + [match_]) == Claimed(matches) +
      if match_.posting.Some? then {match_.posting.value} else {}
  {
    var more := matches + [match_];
    forall i | 0 <= i < |matches| && matches[i].posting.Some? ensures matches[i].posting.value in Claimed(more) {
      assert more[i] == matches[i];
    }
    assert more[|matches|] == match_;
  }

  method FindRow(candidates: seq<BankPosting>, deposit: Deposit, lastFour: map<string, string>, used: set<string>)
    returns (found: Option<string>)
    ensures found == FirstFit(candidates, deposit, lastFour, used)
  {
    for k := 0 to |candidates|
      invariant FirstFit(candidates, deposit, lastFour, used) == FirstFit(candidates[k..], deposit, lastFour, used)
    {
      if candidates[k].posting !in used && Fits(deposit, candidates[k], lastFour) {
        return Some(candidates[k].posting);
      }
    }
    found := None;
  }

  predicate AllMatched(matches: seq<Match>) {
    forall i :: 0 <= i < |matches| ==> matches[i].posting.Some?
  }

  lemma AllMatchedSnoc(matches: seq<Match>, match_: Match)
    ensures AllMatched(matches + [match_]) <==> AllMatched(matches) && match_.posting.Some?
  {
    var more := matches + [match_];
    assert more[|matches|] == match_;
    assert forall i :: 0 <= i < |matches| ==> more[i] == matches[i];
  }

  /** Give each deposit the first posting that fits and no earlier deposit has taken. */
  method ReconcileEarningsStatement(deposits: seq<Deposit>, postings: seq<BankPosting>, payDay: int, tolerance: int,
                                    lastFour: map<string, string>)
    returns (matches: seq<Match>, fullyMatched: bool)
    ensures matches == Matched(deposits, Candidates(postings, payDay, tolerance), lastFour)
    ensures fullyMatched <==> AllMatched(matches)
  {
    var candidates := Candidates(postings, payDay, tolerance);
    var used: set<string> := {};
    matches, fullyMatched := [], true;
    for i := 0 to |deposits|
      invariant matches == Matched(deposits[..i], candidates, lastFour) && used == Claimed(matches)
      invariant fullyMatched <==> AllMatched(matches)
    {
      var deposit := deposits[i];
      assert deposits[..i + 1][..i] == deposits[..i] && deposits[..i + 1][i] == deposit;
      var found := FindRow(candidates, deposit, lastFour, used);
      ClaimedSnoc(matches, Match(deposit, found));
      AllMatchedSnoc(matches, Match(deposit, found));
      if found.Some? {
        used := used + {found.value};
      } else {
        fullyMatched := false;
      }
      matches := matches + [Match(deposit, found)];
    }
    assert deposits[..|deposits|] == deposits;
  }

  lemma {:induction false} FirstFitFits(candidates: seq<BankPosting>, deposit: Deposit, lastFour: map<string, string>,
                                        used: set<string>)
    ensures var found := FirstFit(candidates, deposit, lastFour, used);
      && (found.Some? ==>
            && found.value !in used
            && exists p :: p in candidates && p.posting == found.value && Fits(deposit, p, lastFour))
      && (found.None? ==> forall p :: p in candidates && Fits(deposit, p, lastFour) ==> p.posting in used)
  {
    if candidates != [] {
      FirstFitFits(candidates[1..], deposit, lastFour, used);
      assert candidates == [candidates[0]] + candidates[1..];
    }
  }

  /** A claim fits its deposit, and a deposit goes unmatched only if all that fit it were taken. */
  ghost predicate Fair(m: Match, deposit: Deposit, candidates: seq<BankPosting>, lastFour: map<string, string>,
                       taken: set<string>) {
    && m.deposit == deposit
    && (m.posting.Some? ==> exists p :: p in candidates && p.posting == m.posting.value && Fits(deposit, p, lastFour))
    && (m.posting.None? ==> forall p :: p in candidates && Fits(deposit, p, lastFour) ==> p.posting in taken)
  }

  lemma FairLater(m: Match, deposit: Deposit, candidates: seq<BankPosting>, lastFour: map<string, string>,
                  taken: set<string>, more: set<string>)
    requires Fair(m, deposit, candidates, lastFour, taken) && taken <= more
    ensures Fair(m, deposit, candidates, lastFour, more)
  {
  }

  /** No bank row is claimed twice, and every match is fair. */
  lemma {:induction false} MatchingIsExclusive(deposits: seq<Deposit>, candidates: seq<BankPosting>,
                                               lastFour: map<string, string>)
    ensures var matches := Matched(deposits, candidates, lastFour);
      && |matches| == |deposits|
      && (forall i, j ::
          0 <= i < j < |matches| && matches[i].posting.Some? ==> matches[i].posting != matches[j].posting)
      && (forall i :: 0 <= i < |matches| ==> Fair(matches[i], deposits[i], candidates, lastFour, Claimed(matches)))
  {
    if deposits != [] {
      var n := |deposits| - 1;
      var before := Matched(deposits[..n], candidates, lastFour);
      MatchingIsExclusive(deposits[..n], candidates, lastFour);
      FirstFitFits(candidates, deposits[n], lastFour, Claimed(before));
      var last := Match(deposits[n], FirstFit(candidates, deposits[n], lastFour, Claimed(before)));
      ClaimedSnoc(before, last);
      var matches := before + [last];
      forall i | 0 <= i < n ensures Fair(matches[i], deposits[i], candidates, lastFour, Claimed(matches)) {
        FairLater(before[i], deposits[i], candidates, lastFour, Claimed(before), Claimed(matches));
      }
      forall i | 0 <= i < n && before[i].posting.Some? ensures before[i].posting != last.posting {
        assert before[i].posting.value in Claimed(before);
      }
    }
  }

  /** A positive posting near pay day, of the deposit's amount to the cent, on its account if it names one. */
  ghost predicate CouldBe(p: BankPosting, deposit: Deposit, payDay: int, tolerance: int, lastFour: map<string, string>)
  {
    && payDay - tolerance <= p.day <= payDay + tolerance && p.amount > 0
    && deposit.amount - 100 <= p.amount <= deposit.amount + 100
    && (deposit.lastFour == None || (p.account in lastFour && deposit.lastFour == Some(lastFour[p.account])))
  }

  /** The first posting that could be the deposit and is not taken. */
  ghost predicate FirstFree(postings: seq<BankPosting>, a: int, deposit: Deposit, payDay: int, tolerance: int,
                            lastFour: map<string, string>, taken: set<string>)
  {
    && 0 <= a < |postings|
    && CouldBe(postings[a], deposit, payDay, tolerance, lastFour) && postings[a].posting !in taken
    && forall b :: 0 <= b < a && CouldBe(postings[b], deposit, payDay, tolerance, lastFour) ==>
         postings[b].posting in taken
  }

  ghost predicate NoneFree(postings: seq<BankPosting>, deposit: Deposit, payDay: int, tolerance: int,
                           lastFour: map<string, string>, taken: set<string>)
  {
    forall p :: p in postings && CouldBe(p, deposit, payDay, tolerance, lastFour) ==> p.posting in taken
  }

  /** What is found is the first free posting, and nothing only if there is none. */
  ghost predicate FoundFirst(postings: seq<BankPosting>, found: Option<string>, deposit: Deposit, payDay: int,
                             tolerance: int, lastFour: map<string, string>, taken: set<string>)
  {
    if found.None? then NoneFree(postings, deposit, payDay, tolerance, lastFour, taken)
    else exists a :: FirstFree(postings, a, deposit, payDay, tolerance, lastFour, taken)
           && postings[a].posting == found.value
  }

  lemma FoundOneLater(postings: seq<BankPosting>, found: Option<string>, deposit: Deposit, payDay: int, tolerance: int,
                      lastFour: map<string, string>, taken: set<string>)
    requires postings != [] && FoundFirst(postings[1..], found, deposit, payDay, tolerance, lastFour, taken)
    requires CouldBe(postings[0], deposit, payDay, tolerance, lastFour) ==> postings[0].posting in taken
    ensures FoundFirst(postings, found, deposit, payDay, tolerance, lastFour, taken)
  {
    assert postings == [postings[0]] + postings[1..];
    if found.Some? {
      var a :| FirstFree(postings[1..], a, deposit, payDay, tolerance, lastFour, taken)
        && postings[1..][a].posting == found.value;
      FreeOneLater(postings, a, deposit, payDay, tolerance, lastFour, taken);
    }
  }

  lemma FreeOneLater(postings: seq<BankPosting>, a: nat, deposit: Deposit, payDay: int, tolerance: int,
                     lastFour: map<string, string>, taken: set<string>)
    requires postings != [] && FirstFree(postings[1..], a, deposit, payDay, tolerance, lastFour, taken)
    requires CouldBe(postings[0], deposit, payDay, tolerance, lastFour) ==> postings[0].posting in taken
    ensures FirstFree(postings, a + 1, deposit, payDay, tolerance, lastFour, taken)
  {
    forall b | 0 <= b < a + 1 && CouldBe(postings[b], deposit, payDay, tolerance, lastFour)
      ensures postings[b].posting in taken
    {
      if b > 0 {
        assert postings[1..][b - 1] == postings[b];
      }
    }
  }

  lemma FirstFitStep(postings: seq<BankPosting>, deposit: Deposit, payDay: int, tolerance: int,
                     lastFour: map<string, string>, taken: set<string>)
    requires postings != []
    ensures FirstFit(Candidates(postings, payDay, tolerance), deposit, lastFour, taken)
      == if CouldBe(postings[0], deposit, payDay, tolerance, lastFour) && postings[0].posting !in taken
         then Some(postings[0].posting)
         else FirstFit(Candidates(postings[1..], payDay, tolerance), deposit, lastFour, taken)
  {
    var rest := Candidates(postings[1..], payDay, tolerance);
    assert ([postings[0]] + rest)[1..] == rest && [] + rest == rest;
  }

  lemma {:induction false} FindsFirstFree(postings: seq<BankPosting>, deposit: Deposit, payDay: int, tolerance: int,
                                          lastFour: map<string, string>, taken: set<string>)
    ensures FoundFirst(postings, FirstFit(Candidates(postings, payDay, tolerance), deposit, lastFour, taken), deposit,
                       payDay, tolerance, lastFour, taken)
  {
    if postings != [] {
      FirstFitStep(postings, deposit, payDay, tolerance, lastFour, taken);
      if CouldBe(postings[0], deposit, payDay, tolerance, lastFour) && postings[0].posting !in taken {
        assert FirstFree(postings, 0, deposit, payDay, tolerance, lastFour, taken);
      } else {
        FindsFirstFree(postings[1..], deposit, payDay, tolerance, lastFour, taken);
        FoundOneLater(postings, FirstFit(Candidates(postings[1..], payDay, tolerance), deposit, lastFour, taken),
                      deposit, payDay, tolerance, lastFour, taken);
      }
    }
  }

  lemma {:induction false} MatchedUpTo(deposits: seq<Deposit>, candidates: seq<BankPosting>,
                                       lastFour: map<string, string>, i: nat)
    requires i < |deposits|
    ensures var matches := Matched(deposits, candidates, lastFour);
      && |matches| == |deposits|
      && matches[i] == Match(deposits[i], FirstFit(candidates, deposits[i], lastFour, Claimed(matches[..i])))
  {
    var n := |deposits| - 1;
    var before := Matched(deposits[..n], candidates, lastFour);
    var matches := Matched(deposits, candidates, lastFour);
    MatchingIsExclusive(deposits[..n], candidates, lastFour);
    if i < n {
      MatchedUpTo(deposits[..n], candidates, lastFour, i);
    }
    assert matches[..i] == before[..i] && before[..n] == before;
  }

  /** Each deposit is given the first posting that could be it and no earlier deposit has, or none if there is none. */
  lemma DepositTakesTheFirst(deposits: seq<Deposit>, postings: seq<BankPosting>, payDay: int, tolerance: int,
                             lastFour: map<string, string>, i: nat)
    requires i < |deposits|
    ensures var matches := Matched(deposits, Candidates(postings, payDay, tolerance), lastFour);
      && |matches| == |deposits| && matches[i].deposit == deposits[i]
      && FoundFirst(postings, matches[i].posting, deposits[i], payDay, tolerance, lastFour, Claimed(matches[..i]))
  {
    var candidates := Candidates(postings, payDay, tolerance);
    MatchedUpTo(deposits, candidates, lastFour, i);
    FindsFirstFree(postings, deposits[i], payDay, tolerance, lastFour,
                   Claimed(Matched(deposits, candidates, lastFour)[..i]));
  }

  // ---------- proposing splits ----------

  /** A reimbursement the paystub lists. */
  datatype Line = Line(title: string, amount: int)

  datatype Leg = ReimbursementLeg(line: Line) | SalaryLeg(salary: int)

  function Amount(leg: Leg): int {
    match leg
    case ReimbursementLeg(line) => line.amount
    case SalaryLeg(salary) => salary
  }

  function LegTotal(legs: seq<Leg>): int {
    if legs == [] then 0 else LegTotal(legs[..|legs| - 1]) + Amount(legs[|legs| - 1])
  }

  /** The reimbursements among some legs. */
  function LinesIn(legs: seq<Leg>): multiset<Line> {
    if legs == [] then multiset{}
    else LinesIn(legs[..|legs| - 1]) + LinesOf(legs[|legs| - 1])
  }

  function LinesOf(leg: Leg): multiset<Line> {
    if leg.ReimbursementLeg? then multiset{leg.line} else multiset{}
  }

  lemma LegsSnoc(legs: seq<Leg>, leg: Leg)
    ensures LegTotal(legs + [leg]) == LegTotal(legs) + Amount(leg)
    ensures LinesIn(legs + [leg]) == LinesIn(legs) + LinesOf(leg)
  {
    assert (legs + [leg])[..|legs|] == legs;
  }

  predicate AnyFits(lines: seq<Line>, amount: int) {
    exists k :: 0 <= k < |lines| && lines[k].amount <= amount
  }

  /** The first line that fits the deposit. */
  predicate FirstFits(lines: seq<Line>, k: nat, deposit: int) {
    k < |lines| && lines[k].amount <= deposit && forall j :: 0 <= j < k ==> lines[j].amount > deposit
  }

  /** The line that goes on first leaves room for another. */
  ghost predicate TwoFit(lines: seq<Line>, deposit: int) {
    exists k: nat, j: nat :: FirstFits(lines, k, deposit) && LaterFits(lines, k, j, deposit)
  }

  predicate LaterFits(lines: seq<Line>, k: nat, j: nat, deposit: int) {
    k < j < |lines| && lines[j].amount <= deposit - lines[k].amount
  }

  /** The line that goes on first leaves something over: for another line, or as salary. */
  ghost predicate TwoLegs(lines: seq<Line>, deposit: int) {
    TwoFit(lines, deposit) || exists k: nat :: FirstFits(lines, k, deposit) && lines[k].amount < deposit
  }

  /** How many lines a deposit has taken so far, told from the lines alone. */
  ghost predicate Counted(deposit: int, lines: seq<Line>, legs: seq<Leg>, left: int) {
    && (|legs| == 0 <==> !AnyFits(lines, deposit))
    && (|legs| >= 2 <==> TwoFit(lines, deposit))
    && (|legs| == 1 ==> exists k: nat :: FirstFits(lines, k, deposit) && left == deposit - lines[k].amount)
  }

  lemma FirstFitsSnoc(lines: seq<Line>, line: Line, k: nat, deposit: int)
    ensures FirstFits(lines + [line], k, deposit)
      <==> FirstFits(lines, k, deposit) || (k == |lines| && !AnyFits(lines, deposit) && line.amount <= deposit)
  {
    var more := lines + [line];
    if FirstFits(more, k, deposit) && k == |lines| {
      forall j | 0 <= j < |lines| ensures lines[j].amount > deposit {
        assert more[j] == lines[j];
      }
    }
    if FirstFits(more, k, deposit) && k < |lines| {
      forall j | 0 <= j < k ensures lines[j].amount > deposit {
        assert more[j] == lines[j];
      }
    }
  }

  lemma OneFirstFit(lines: seq<Line>, k: nat, j: nat, deposit: int)
    requires FirstFits(lines, k, deposit) && FirstFits(lines, j, deposit)
    ensures k == j
  {
  }

  lemma TwoFitSnoc(lines: seq<Line>, line: Line, deposit: int)
    ensures TwoFit(lines + [line], deposit)
      <==> TwoFit(lines, deposit)
           || exists k: nat :: FirstFits(lines, k, deposit) && line.amount <= deposit - lines[k].amount
  {
    var more := lines + [line];
    if TwoFit(more, deposit) {
      var k: nat, j: nat :| FirstFits(more, k, deposit) && LaterFits(more, k, j, deposit);
      FirstFitsSnoc(lines, line, k, deposit);
      assert FirstFits(lines, k, deposit);
      assert j < |lines| ==> LaterFits(lines, k, j, deposit);
    }
    if TwoFit(lines, deposit) {
      var k: nat, j: nat :| FirstFits(lines, k, deposit) && LaterFits(lines, k, j, deposit);
      FirstFitsSnoc(lines, line, k, deposit);
      assert LaterFits(more, k, j, deposit);
    }
    if k: nat :| FirstFits(lines, k, deposit) && line.amount <= deposit - lines[k].amount {
      FirstFitsSnoc(lines, line, k, deposit);
      assert LaterFits(more, k, |lines|, deposit);
    }
  }

  lemma CountNext(deposit: int, lines: seq<Line>, legs: seq<Leg>, left: int, line: Line)
    requires Counted(deposit, lines, legs, left) && (legs == [] ==> left == deposit)
    ensures line.amount <= left ==>
      Counted(deposit, lines + [line], legs + [ReimbursementLeg(line)], left - line.amount)
    ensures line.amount > left && (|legs| >= 1 || line.amount > deposit)
      ==> Counted(deposit, lines + [line], legs, left)
  {
    FitsSnoc(lines, line, deposit);
    TwoFitSnoc(lines, line, deposit);
    if |legs| == 0 {
      FirstFitsSnoc(lines, line, |lines|, deposit);
      NoneFirst(lines, deposit);
    } else if |legs| == 1 {
      var k: nat :| FirstFits(lines, k, deposit) && left == deposit - lines[k].amount;
      FirstFitsSnoc(lines, line, k, deposit);
      OnlyFirst(lines, k, deposit);
    }
  }

  lemma NoneFirst(lines: seq<Line>, deposit: int)
    requires !AnyFits(lines, deposit)
    ensures forall k: nat :: !FirstFits(lines, k, deposit)
  {
  }

  lemma OnlyFirst(lines: seq<Line>, k: nat, deposit: int)
    requires FirstFits(lines, k, deposit)
    ensures forall j: nat :: FirstFits(lines, j, deposit) ==> j == k
  {
    forall j: nat | FirstFits(lines, j, deposit) ensures j == k {
      OneFirstFit(lines, j, k, deposit);
    }
  }

  /** The lines marked as taken, in order, and their sum. */
  function Chosen(lines: seq<Line>, taken: seq<bool>, wanted: bool): seq<Line>
    requires |taken| <= |lines|
  {
    if taken == [] then []
    else
      var n := |taken| - 1;
      Chosen(lines, taken[..n], wanted) + if taken[n] == wanted then [lines[n]] else []
  }

  function LineTotal(lines: seq<Line>): int {
    if lines == [] then 0 else LineTotal(lines[..|lines| - 1]) + lines[|lines| - 1].amount
  }

  /** A line is taken exactly if it fits what those taken before it leave of the deposit. */
  ghost predicate TakenInTurn(deposit: int, lines: seq<Line>, taken: seq<bool>) {
    && |taken| <= |lines|
    && forall i :: 0 <= i < |taken| ==>
         (taken[i] <==> lines[i].amount <= deposit - LineTotal(Chosen(lines, taken[..i], true)))
  }

  function AsLegs(lines: seq<Line>): seq<Leg> {
    seq(|lines|, i requires 0 <= i < |lines| => ReimbursementLeg(lines[i]))
  }

  /** The taken lines are the legs, then salary if anything is over or nothing fitted; the rest remain. */
  ghost predicate SplitsAs(deposit: int, lines: seq<Line>, taken: seq<bool>, legs: seq<Leg>, remaining: seq<Line>) {
    && |taken| == |lines| && TakenInTurn(deposit, lines, taken)
    && remaining == Chosen(lines, taken, false)
    && legs == WithSalary(AsLegs(Chosen(lines, taken, true)), deposit - LineTotal(Chosen(lines, taken, true)))
  }

  function WithSalary(legs: seq<Leg>, left: int): seq<Leg> {
    if left > 0 then legs + [SalaryLeg(left)] else if legs == [] then [SalaryLeg(0)] else legs
  }

  /** Part-way through the lines in turn. */
  ghost predicate InTurn(deposit: int, lines: seq<Line>, taken: seq<bool>, legs: seq<Leg>, remaining: seq<Line>,
                         left: int)
  {
    && TakenInTurn(deposit, lines, taken)
    && legs == AsLegs(Chosen(lines, taken, true)) && remaining == Chosen(lines, taken, false)
    && left == deposit - LineTotal(Chosen(lines, taken, true))
  }

  lemma InTurnNext(deposit: int, lines: seq<Line>, taken: seq<bool>, legs: seq<Leg>, remaining: seq<Line>, left: int)
    requires InTurn(deposit, lines, taken, legs, remaining, left) && |taken| < |lines|
    ensures var line := lines[|taken|];
      && (line.amount <= left ==>
            InTurn(deposit, lines, taken + [true], legs + [ReimbursementLeg(line)], remaining, left - line.amount))
      && (line.amount > left ==> InTurn(deposit, lines, taken + [false], legs, remaining + [line], left))
  {
    var line, fits := lines[|taken|], lines[|taken|].amount <= left;
    var more, chosen := taken + [fits], Chosen(lines, taken, true);
    assert more[..|taken|] == taken;
    forall i | 0 <= i < |taken| ensures more[..i] == taken[..i] && more[i] == taken[i] {
    }
    assert (chosen + [line])[..|chosen|] == chosen && chosen + [] == chosen && remaining + [] == remaining;
    assert AsLegs(chosen + [line]) == AsLegs(chosen) + [ReimbursementLeg(line)];
  }

  /** Part-way through the lines, with the legs counted. */
  ghost predicate AssignedSo(deposit: int, lines: seq<Line>, legs: seq<Leg>, remaining: seq<Line>, left: int) {
    Assigned(deposit, lines, legs, remaining, left) && Counted(deposit, lines, legs, left)
  }

  lemma AssignStart(deposit: int)
    ensures AssignedSo(deposit, [], [], [], deposit)
  {
  }

  lemma FitNext(deposit: int, lines: seq<Line>, i: nat, legs: seq<Leg>, remaining: seq<Line>, left: int)
    requires i < |lines| && AssignedSo(deposit, lines[..i], legs, remaining, left) && lines[i].amount <= left
    ensures AssignedSo(deposit, lines[..i + 1], legs + [ReimbursementLeg(lines[i])], remaining, left - lines[i].amount)
  {
    assert lines[..i + 1] == lines[..i] + [lines[i]];
    CountNext(deposit, lines[..i], legs, left, lines[i]);
    AssignNext(deposit, lines, i, legs, remaining, left);
  }

  lemma SkipNext(deposit: int, lines: seq<Line>, i: nat, legs: seq<Leg>, remaining: seq<Line>, left: int)
    requires i < |lines| && AssignedSo(deposit, lines[..i], legs, remaining, left) && lines[i].amount > left
    ensures AssignedSo(deposit, lines[..i + 1], legs, remaining + [lines[i]], left)
  {
    assert lines[..i + 1] == lines[..i] + [lines[i]];
    CountNext(deposit, lines[..i], legs, left, lines[i]);
    AssignNext(deposit, lines, i, legs, remaining, left);
  }

  ghost predicate Progress(deposit: int, lines: seq<Line>, i: nat, taken: seq<bool>, legs: seq<Leg>,
                           remaining: seq<Line>, left: int)
    requires i <= |lines|
  {
    && |taken| == i && InTurn(deposit, lines, taken, legs, remaining, left)
    && AssignedSo(deposit, lines[..i], legs, remaining, left)
  }

  lemma ProgressFits(deposit: int, lines: seq<Line>, i: nat, taken: seq<bool>, legs: seq<Leg>, remaining: seq<Line>,
                     left: int)
    requires i < |lines| && Progress(deposit, lines, i, taken, legs, remaining, left) && lines[i].amount <= left
    ensures Progress(deposit, lines, i + 1, taken + [true], legs + [ReimbursementLeg(lines[i])], remaining,
                     left - lines[i].amount)
  {
    InTurnNext(deposit, lines, taken, legs, remaining, left);
    FitNext(deposit, lines, i, legs, remaining, left);
  }

  lemma ProgressSkips(deposit: int, lines: seq<Line>, i: nat, taken: seq<bool>, legs: seq<Leg>, remaining: seq<Line>,
                      left: int)
    requires i < |lines| && Progress(deposit, lines, i, taken, legs, remaining, left) && lines[i].amount > left
    ensures Progress(deposit, lines, i + 1, taken + [false], legs, remaining + [lines[i]], left)
  {
    InTurnNext(deposit, lines, taken, legs, remaining, left);
    SkipNext(deposit, lines, i, legs, remaining, left);
  }

  /** Put every line that still fits on the deposit, checked one at a time against what is left of it. */
  method AssignLines(deposit: int, lines: seq<Line>)
    returns (legs: seq<Leg>, remaining: seq<Line>, left: int, ghost taken: seq<bool>)
    ensures Progress(deposit, lines, |lines|, taken, legs, remaining, left)
  {
    legs, remaining, left, taken := [], [], deposit, [];
    AssignStart(deposit);
    for i := 0 to |lines|
      invariant Progress(deposit, lines, i, taken, legs, remaining, left)
    {
      if lines[i].amount <= left {
        ProgressFits(deposit, lines, i, taken, legs, remaining, left);
        legs := legs + [ReimbursementLeg(lines[i])];
        left := left - lines[i].amount;
        taken := taken + [true];
      } else {
        ProgressSkips(deposit, lines, i, taken, legs, remaining, left);
        remaining := remaining + [lines[i]];
        taken := taken + [false];
      }
    }
  }

  lemma AssignedInAll(deposit: int, lines: seq<Line>, taken: seq<bool>, legs: seq<Leg>, remaining: seq<Line>, left: int)
    requires Progress(deposit, lines, |lines|, taken, legs, remaining, left)
    ensures AssignedSo(deposit, lines, legs, remaining, left)
    ensures SplitsAs(deposit, lines, taken, WithSalary(legs, left), remaining)
  {
    assert lines[..|lines|] == lines;
  }

  lemma LeavesSomething(deposit: int, lines: seq<Line>, legs: seq<Leg>, left: int)
    requires Counted(deposit, lines, legs, left)
    ensures TwoLegs(lines, deposit) <==> |legs| >= 2 || (|legs| == 1 && left > 0)
  {
    if |legs| == 0 {
      NoneFirst(lines, deposit);
    } else if |legs| == 1 {
      var k: nat :| FirstFits(lines, k, deposit) && left == deposit - lines[k].amount;
      OnlyFirst(lines, k, deposit);
    }
  }

  /**
   * The lines that fit, and what is left as salary. The legs sum to the deposit exactly if it is not negative or some
   * line fitted; no line is used twice or lost; and there are two legs or more exactly if the first line that fits
   * leaves something over.
   */
  method SplitDeposit(deposit: int, lines: seq<Line>) returns (legs: seq<Leg>, remaining: seq<Line>)
    ensures |legs| >= 1 && (|legs| >= 2 <==> TwoLegs(lines, deposit))
    ensures LegTotal(legs) == if deposit >= 0 || AnyFits(lines, deposit) then deposit else 0
    ensures LinesIn(legs) + multiset(remaining) == multiset(lines)
    ensures exists taken :: SplitsAs(deposit, lines, taken, legs, remaining)
  {
    var left;
    ghost var taken;
    legs, remaining, left, taken := AssignLines(deposit, lines);
    AssignedInAll(deposit, lines, taken, legs, remaining, left);
    LeavesSomething(deposit, lines, legs, left);
    SalaryAdds(legs, left);
    if left > 0 {
      legs := legs + [SalaryLeg(left)];
    } else if legs == [] {
      legs := [SalaryLeg(0)];
    }
  }

  lemma SalaryAdds(legs: seq<Leg>, left: int)
    ensures LegTotal(WithSalary(legs, left)) == LegTotal(legs) + if left > 0 then left else 0
    ensures LinesIn(WithSalary(legs, left)) == LinesIn(legs)
  {
    LegsSnoc(legs, SalaryLeg(if left > 0 then left else 0));
    assert legs == [] ==> legs + [SalaryLeg(0)] == [SalaryLeg(0)];
  }

  /** Part-way through the lines: what is on the deposit, what is left of it, and which lines did not fit. */
  ghost predicate Assigned(deposit: int, lines: seq<Line>, legs: seq<Leg>, remaining: seq<Line>, left: int) {
    && LegTotal(legs) + left == deposit
    && LinesIn(legs) + multiset(remaining) == multiset(lines)
    && (deposit >= 0 || legs != [] ==> left >= 0)
    && (legs == [] ==> left == deposit)
    && (legs != [] <==> AnyFits(lines, deposit))
    && (forall leg :: leg in legs ==> leg.ReimbursementLeg?)
  }

  lemma AssignOne(deposit: int, lines: seq<Line>, legs: seq<Leg>, remaining: seq<Line>, left: int, line: Line)
    requires Assigned(deposit, lines, legs, remaining, left)
    ensures line.amount <= left ==>
              Assigned(deposit, lines + [line], legs + [ReimbursementLeg(line)], remaining, left - line.amount)
    ensures line.amount > left ==> Assigned(deposit, lines + [line], legs, remaining + [line], left)
  {
    FitsSnoc(lines, line, deposit);
    LegsSnoc(legs, ReimbursementLeg(line));
    assert multiset(lines + [line]) == multiset(lines) + multiset{line};
    assert multiset(remaining + [line]) == multiset(remaining) + multiset{line};
  }

  lemma AssignNext(deposit: int, lines: seq<Line>, i: nat, legs: seq<Leg>, remaining: seq<Line>, left: int)
    requires i < |lines| && Assigned(deposit, lines[..i], legs, remaining, left)
    ensures lines[i].amount <= left ==>
              Assigned(deposit, lines[..i + 1], legs + [ReimbursementLeg(lines[i])], remaining, left - lines[i].amount)
    ensures lines[i].amount > left ==> Assigned(deposit, lines[..i + 1], legs, remaining + [lines[i]], left)
  {
    assert lines[..i + 1] == lines[..i] + [lines[i]];
    AssignOne(deposit, lines[..i], legs, remaining, left, lines[i]);
  }

  lemma FitsSnoc(lines: seq<Line>, line: Line, amount: int)
    ensures AnyFits(lines + [line], amount) <==> AnyFits(lines, amount) || line.amount <= amount
  {
    var more := lines + [line];
    if AnyFits(lines, amount) {
      var k :| 0 <= k < |lines| && lines[k].amount <= amount;
      assert more[k].amount <= amount;
    }
    assert more[|lines|] == line;
  }

  datatype Proposal = Proposal(posting: string, legs: seq<Leg>)

  /** A deposit that was found at the bank. */
  datatype Found = Found(posting: string, amount: int)

  function AllLines(proposals: seq<Proposal>): multiset<Line> {
    if proposals == [] then multiset{}
    else AllLines(proposals[..|proposals| - 1]) + LinesIn(proposals[|proposals| - 1].legs)
  }

  /** One proposal per deposit, each summing to its deposit, and every line on one of them or left over. */
  ghost predicate Proposed(found: seq<Found>, lines: seq<Line>, proposals: seq<Proposal>, unassigned: seq<Line>) {
    && |proposals| == |found|
    && (forall i :: 0 <= i < |found| ==> proposals[i].posting == found[i].posting)
    && (forall i :: 0 <= i < |found| && found[i].amount >= 0 ==> LegTotal(proposals[i].legs) == found[i].amount)
    && AllLines(proposals) + multiset(unassigned) == multiset(lines)
  }

  lemma ProposeNext(found: seq<Found>, i: nat, lines: seq<Line>, proposals: seq<Proposal>, unassigned: seq<Line>,
                    legs: seq<Leg>, rest: seq<Line>)
    requires i < |found| && Proposed(found[..i], lines, proposals, unassigned)
    requires found[i].amount >= 0 ==> LegTotal(legs) == found[i].amount
    requires LinesIn(legs) + multiset(rest) == multiset(unassigned)
    ensures Proposed(found[..i + 1], lines, proposals + [Proposal(found[i].posting, legs)], rest)
  {
    AllLinesSnoc(proposals, Proposal(found[i].posting, legs));
    RegroupLines(AllLines(proposals), LinesIn(legs), multiset(rest));
    PostingsSnoc(found, i, proposals, Proposal(found[i].posting, legs));
  }

  lemma RegroupLines(a: multiset<Line>, b: multiset<Line>, c: multiset<Line>)
    ensures (a + b) + c == a + (b + c)
  {
  }

  lemma AllLinesSnoc(proposals: seq<Proposal>, p: Proposal)
    ensures AllLines(proposals + [p]) == AllLines(proposals) + LinesIn(p.legs)
  {
    assert (proposals + [p])[..|proposals|] == proposals;
  }

  lemma PostingsSnoc(found: seq<Found>, i: nat, proposals: seq<Proposal>, p: Proposal)
    requires i < |found| && |proposals| == i && p.posting == found[i].posting
    requires found[i].amount >= 0 ==> LegTotal(p.legs) == found[i].amount
    requires forall k :: 0 <= k < i ==> proposals[k].posting == found[..i][k].posting
    requires forall k :: 0 <= k < i && found[..i][k].amount >= 0 ==> LegTotal(proposals[k].legs) == found[..i][k].amount
    ensures var more := proposals + [p];
      && (forall k :: 0 <= k < i + 1 ==> more[k].posting == found[..i + 1][k].posting)
      && (forall k ::
          0 <= k < i + 1 && found[..i + 1][k].amount >= 0 ==> LegTotal(more[k].legs) == found[..i + 1][k].amount)
  {
    var more := proposals + [p];
    forall k | 0 <= k < i + 1
      ensures more[k].posting == found[..i + 1][k].posting
      ensures found[..i + 1][k].amount >= 0 ==> LegTotal(more[k].legs) == found[..i + 1][k].amount
    {
      if k < i {
        assert found[..i][k] == found[..i + 1][k];
      }
    }
  }

  /** One proposal per matched deposit, largest first; both lists come sorted, largest amount first. */
  method ProposePostingSplits(found: seq<Found>, lines: seq<Line>)
    returns (proposals: seq<Proposal>, unassigned: seq<Line>)
    ensures Proposed(found, lines, proposals, unassigned)
  {
    proposals, unassigned := [], lines;
    for i := 0 to |found|
      invariant Proposed(found[..i], lines, proposals, unassigned)
    {
      var legs, rest := SplitDeposit(found[i].amount, unassigned);
      ProposeNext(found, i, lines, proposals, unassigned, legs, rest);
      proposals := proposals + [Proposal(found[i].posting, legs)];
      unassigned := rest;
    }
    assert found[..|found|] == found;
  }

  // ---------- confirming a proposal ----------

  datatype Answer = PostingNotFound | WrongTotal | TooFewLegs | SplitSaved

  const MIN_SPLIT_LEGS := 2

  /** What the split route answers: the posting, then the sum, then the number of legs. */
  function AnswerTo(current: Option<int>, legs: seq<Leg>): Answer {
    if current.None? then PostingNotFound
    else if LegTotal(legs) != current.value then WrongTotal
    else if |legs| < MIN_SPLIT_LEGS then TooFewLegs
    else SplitSaved
  }

  /**
   * A split is saved if and only if its posting is there, its legs sum to the current amount, and there are two or
   * more.
   */
  method PutPostingSplit(current: Option<int>, legs: seq<Leg>) returns (answer: Answer)
    ensures answer == AnswerTo(current, legs)
    ensures answer.SplitSaved? <==> current == Some(LegTotal(legs)) && |legs| >= 2
  {
    if current.None? {
      return PostingNotFound;
    }
    var total := 0;
    for i := 0 to |legs|
      invariant total == LegTotal(legs[..i])
    {
      assert legs[..i + 1] == legs[..i] + [legs[i]];
      LegsSnoc(legs[..i], legs[i]);
      total := total + Amount(legs[i]);
    }
    assert legs[..|legs|] == legs;
    answer := if total != current.value then WrongTotal else if |legs| < MIN_SPLIT_LEGS then TooFewLegs else SplitSaved;
  }

  /** A legless or one-legged split is not saved, though its sum be right. */
  lemma SumIsNotEnough()
    ensures LegTotal([SalaryLeg(100000)]) == 100000
      && AnswerTo(Some(100000), [SalaryLeg(100000)]) == TooFewLegs
    ensures LegTotal([]) == 0 && AnswerTo(Some(0), []) == TooFewLegs
  {
    assert [SalaryLeg(100000)][..0] == [];
  }

  /** What a proposal for a deposit adds up to: the deposit, unless it is negative and no line fits it. */
  function ProposedTotal(deposit: int, lines: seq<Line>): int {
    if deposit >= 0 || AnyFits(lines, deposit) then deposit else 0
  }

  /** A one-leg proposal is applied as a category override, which has no amount to be wrong about. */
  datatype Confirmed = Overridden | AsSplit(answer: Answer)

  /**
   * Confirming the proposal for a deposit matched to a bank posting. It goes to the split route exactly if it has two
   * legs, and is saved there exactly if the bank posting has the deposit's amount: the match allows a cent either way,
   * the split none.
   */
  method ConfirmProposal(deposit: Deposit, row: BankPosting, lastFour: map<string, string>, lines: seq<Line>)
    returns (outcome: Confirmed)
    requires Fits(deposit, row, lastFour)
    ensures outcome.Overridden? <==> !TwoLegs(lines, deposit.amount)
    ensures outcome.AsSplit? ==>
      outcome.answer == if row.amount == ProposedTotal(deposit.amount, lines) then SplitSaved else WrongTotal
    ensures outcome == AsSplit(SplitSaved) <==> TwoLegs(lines, deposit.amount) && row.amount == deposit.amount
  {
    var legs, _ := SplitDeposit(deposit.amount, lines);
    if TwoLegs(lines, deposit.amount) {
      TwoLegsFit(lines, deposit.amount);
    }
    if |legs| < MIN_SPLIT_LEGS {
      return Overridden;
    }
    var answer := PutPostingSplit(Some(row.amount), legs);
    outcome := AsSplit(answer);
  }

  lemma TwoLegsFit(lines: seq<Line>, deposit: int)
    requires TwoLegs(lines, deposit)
    ensures AnyFits(lines, deposit)
  {
  }
}
