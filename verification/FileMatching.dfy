/** Matching a categorized file's rows to postings, best score first (accounting/importers/categorize_from_file.py). */
module FileMatching {
  import opened Frame

  /** A row of the file; times are in seconds. */
  datatype FileRow = FileRow(postedAt: int, amount: int, description: string)

  /** The real leg of an existing transaction. */
  datatype Candidate = Candidate(posting: string, postedAt: int, amount: int, description: string)

  datatype Scored = Scored(score: real, row: nat, posting: string)

  const MIN_MATCH_SCORE := 0.3
  const DESCRIPTION_WEIGHT := 0.6
  const SECONDS_PER_DAY := 86400.0

  // ---------- scoring ----------

  function Abs(x: real): real {
    if x < 0.0 then -x else x
  }

  function DaysApart(a: int, b: int): real {
    Abs((a - b) as real) / SECONDS_PER_DAY
  }

  /** One for the same moment, falling to zero at the edge of the window. */
  function DateCloseness(daysApart: real, windowDays: int): real
    requires windowDays > 0
  {
    var closeness := 1.0 - daysApart / windowDays as real;
    if closeness < 0.0 then 0.0 else closeness
  }

  /** Same amount, inside the window, descriptions alike enough. */
  predicate Plausible(row: FileRow, c: Candidate, similarity: (string, string) -> real, windowDays: int) {
    && row.amount == c.amount
    && DaysApart(c.postedAt, row.postedAt) <= windowDays as real
    && similarity(row.description, c.description) >= MIN_MATCH_SCORE
  }

  function Score(row: FileRow, c: Candidate, similarity: (string, string) -> real, windowDays: int): real
    requires windowDays > 0
  {
    DESCRIPTION_WEIGHT * similarity(row.description, c.description)
    + (1.0 - DESCRIPTION_WEIGHT) * DateCloseness(DaysApart(c.postedAt, row.postedAt), windowDays)
  }

  /**
   * One amount, no more than the window apart, and descriptions at least three tenths alike; the score is six tenths of
   * that likeness and four tenths of what is left of the window.
   */
  ghost predicate Earns(row: FileRow, c: Candidate, similarity: (string, string) -> real, windowDays: int, score: real)
    requires windowDays > 0
  {
    var seconds := if row.postedAt < c.postedAt then c.postedAt - row.postedAt else row.postedAt - c.postedAt;
    var alike := similarity(row.description, c.description);
    && row.amount == c.amount && seconds <= 86400 * windowDays && alike >= 0.3
    && score == 0.6 * alike + 0.4 * (1.0 - seconds as real / 86400.0 / windowDays as real)
  }

  lemma PartOfWindow(seconds: int, windowDays: int)
    requires 0 <= seconds && 0 < windowDays
    ensures seconds <= 86400 * windowDays <==> seconds as real / 86400.0 <= windowDays as real
    ensures seconds as real / 86400.0 <= windowDays as real ==> seconds as real / 86400.0 / windowDays as real <= 1.0
  {
    var days, window := seconds as real / 86400.0, windowDays as real;
    if days <= window {
      RatioIsSmall(days, window);
    }
  }

  lemma RatioIsSmall(x: real, y: real)
    requires 0.0 < y && x <= y
    ensures x / y <= 1.0
  {
    assert x / y * y == x;
  }

  lemma EarnsItsScore(row: FileRow, c: Candidate, similarity: (string, string) -> real, windowDays: int, score: real)
    requires windowDays > 0
    ensures Earns(row, c, similarity, windowDays, score)
      <==> (Plausible(row, c, similarity, windowDays) && score == Score(row, c, similarity, windowDays))
  {
    var seconds := if row.postedAt < c.postedAt then c.postedAt - row.postedAt else row.postedAt - c.postedAt;
    assert Abs((c.postedAt - row.postedAt) as real) == seconds as real;
    PartOfWindow(seconds, windowDays);
  }

  /** A pair the file row and the posting were scored for. */
  ghost predicate IsScored(rows: seq<FileRow>, candidates: seq<Candidate>, similarity: (string, string) -> real,
                           windowDays: int, pair: Scored)
    requires windowDays > 0
  {
    && pair.row < |rows|
    && exists k :: 0 <= k < |candidates| && candidates[k].posting == pair.posting
         && Earns(rows[pair.row], candidates[k], similarity, windowDays, pair.score)
  }

  /** The candidates by amount, each list in ledger order. */
  function WithAmount(candidates: seq<Candidate>, amount: int): seq<Candidate> {
    if candidates == [] then []
    else WithAmount(candidates[..|candidates| - 1], amount)
         + if candidates[|candidates| - 1].amount == amount then [candidates[|candidates| - 1]] else []
  }

  lemma {:induction false} WithAmountMembers(candidates: seq<Candidate>, amount: int)
    ensures forall c :: c in WithAmount(candidates, amount) <==> c in candidates && c.amount == amount
  {
    if candidates != [] {
      var n := |candidates| - 1;
      WithAmountMembers(candidates[..n], amount);
      assert candidates == candidates[..n] + [candidates[n]];
    }
  }

  method CandidatesByAmount(candidates: seq<Candidate>) returns (byAmount: map<int, seq<Candidate>>)
    ensures forall amount :: (amount in byAmount <==> WithAmount(candidates, amount) != [])
    ensures forall amount :: amount in byAmount ==> byAmount[amount] == WithAmount(candidates, amount)
  {
    byAmount := map[];
    for i := 0 to |candidates|
      invariant forall amount :: (amount in byAmount <==> WithAmount(candidates[..i], amount) != [])
      invariant forall amount :: amount in byAmount ==> byAmount[amount] == WithAmount(candidates[..i], amount)
    {
      var c := candidates[i];
      assert candidates[..i + 1][..i] == candidates[..i] && candidates[..i + 1][i] == c;
      byAmount := byAmount[c.amount := (if c.amount in byAmount then byAmount[c.amount] else []) + [c]];
    }
    assert candidates[..|candidates|] == candidates;
  }

  /** The scores of one row against some candidates, in order. */
  function ScoresOf(row: FileRow, index: nat, candidates: seq<Candidate>, similarity: (string, string) -> real,
                    windowDays: int): seq<Scored>
    requires windowDays > 0
  {
    if candidates == [] then []
    else
      var c := candidates[|candidates| - 1];
      ScoresOf(row, index, candidates[..|candidates| - 1], similarity, windowDays)
      + if Plausible(row, c, similarity, windowDays)
        then [Scored(Score(row, c, similarity, windowDays), index, c.posting)] else []
  }

  function AllScores(rows: seq<FileRow>, candidates: seq<Candidate>, similarity: (string, string) -> real,
                     windowDays: int)
    : seq<Scored>
    requires windowDays > 0
  {
    if rows == [] then []
    else
      var n := |rows| - 1;
      AllScores(rows[..n], candidates, similarity, windowDays)
      + ScoresOf(rows[n], n, WithAmount(candidates, rows[n].amount), similarity, windowDays)
  }

  method ScoreRow(row: FileRow, index: nat, matching: seq<Candidate>, similarity: (string, string) -> real,
                  windowDays: int)
    returns (scored: seq<Scored>)
    requires windowDays > 0
    ensures scored == ScoresOf(row, index, matching, similarity, windowDays)
  {
    scored := [];
    for k := 0 to |matching|
      invariant scored == ScoresOf(row, index, matching[..k], similarity, windowDays)
    {
      var c := matching[k];
      assert matching[..k + 1][..k] == matching[..k] && matching[..k + 1][k] == c;
      if Plausible(row, c, similarity, windowDays) {
        scored := scored + [Scored(Score(row, c, similarity, windowDays), index, c.posting)];
      }
    }
    assert matching[..|matching|] == matching;
  }

  /** Score every row against the postings of its amount. */
  method ScorePairs(rows: seq<FileRow>, candidates: seq<Candidate>, similarity: (string, string) -> real,
                    windowDays: int)
    returns (scored: seq<Scored>)
    requires windowDays > 0
    ensures scored == AllScores(rows, candidates, similarity, windowDays)
  {
    var byAmount := CandidatesByAmount(candidates);
    scored := [];
    for i := 0 to |rows|
      invariant scored == AllScores(rows[..i], candidates, similarity, windowDays)
    {
      var row := rows[i];
      assert rows[..i + 1][..i] == rows[..i] && rows[..i + 1][i] == row;
      var more := ScoreRow(row, i, if row.amount in byAmount then byAmount[row.amount] else [], similarity, windowDays);
      scored := scored + more;
    }
    assert rows[..|rows|] == rows;
  }

  lemma {:induction false} ScoresOfMembers(row: FileRow, index: nat, candidates: seq<Candidate>,
                                           similarity: (string, string) -> real, windowDays: int, pair: Scored)
    requires windowDays > 0
    ensures pair in ScoresOf(row, index, candidates, similarity, windowDays)
            <==> pair.row == index
                 && exists c ::
                   c in candidates && c.posting == pair.posting && Earns(row, c, similarity, windowDays, pair.score)
  {
    if candidates != [] {
      var n := |candidates| - 1;
      EarnsItsScore(row, candidates[n], similarity, windowDays, pair.score);
      ScoresOfMembers(row, index, candidates[..n], similarity, windowDays, pair);
      assert candidates == candidates[..n] + [candidates[n]];
    }
  }

  /** Exactly the plausible pairs are scored. */
  lemma {:induction false} ScoredExactly(rows: seq<FileRow>, candidates: seq<Candidate>,
                                         similarity: (string, string) -> real, windowDays: int, pair: Scored)
    requires windowDays > 0
    ensures pair in AllScores(rows, candidates, similarity, windowDays)
            <==> IsScored(rows, candidates, similarity, windowDays, pair)
  {
    if rows != [] {
      var n := |rows| - 1;
      ScoredExactly(rows[..n], candidates, similarity, windowDays, pair);
      ScoresOfMembers(rows[n], n, WithAmount(candidates, rows[n].amount), similarity, windowDays, pair);
      WithAmountMembers(candidates, rows[n].amount);
      if IsScored(rows, candidates, similarity, windowDays, pair) && pair.row == n {
        var k :| 0 <= k < |candidates| && candidates[k].posting == pair.posting
          && Earns(rows[n], candidates[k], similarity, windowDays, pair.score);
        assert candidates[k] in WithAmount(candidates, rows[n].amount);
      }
    }
  }

  // ---------- best first ----------

  /** After everything that scores at least as high: the sort is stable. */
  function InsertByScore(pair: Scored, sorted: seq<Scored>): seq<Scored> {
    if sorted == [] || sorted[0].score < pair.score then [pair] + sorted
    else [sorted[0]] + InsertByScore(pair, sorted[1..])
  }

  function BestFirst(scored: seq<Scored>): seq<Scored> {
    if scored == [] then [] else InsertByScore(scored[|scored| - 1], BestFirst(scored[..|scored| - 1]))
  }

  ghost predicate Descending(sorted: seq<Scored>) {
    forall i, j :: 0 <= i < j < |sorted| ==> sorted[i].score >= sorted[j].score
  }

  lemma {:induction false} InsertKeepsOrder(pair: Scored, sorted: seq<Scored>)
    requires Descending(sorted)
    ensures Descending(InsertByScore(pair, sorted))
    ensures forall x :: x in InsertByScore(pair, sorted) <==> x == pair || x in sorted
  {
    if sorted != [] && !(sorted[0].score < pair.score) {
      InsertKeepsOrder(pair, sorted[1..]);
      var rest := InsertByScore(pair, sorted[1..]);
      assert sorted == [sorted[0]] + sorted[1..];
      forall j | 0 <= j < |rest| ensures sorted[0].score >= rest[j].score {
        assert rest[j] in rest;
      }
    }
  }

  /** The pairs of one score, in the order they come. */
  function OfScore(pairs: seq<Scored>, score: real): seq<Scored> {
    if pairs == [] then []
    else (if pairs[0].score == score then [pairs[0]] else []) + OfScore(pairs[1..], score)
  }

  lemma {:induction false} OfScoreSnoc(pairs: seq<Scored>, pair: Scored, score: real)
    ensures OfScore(pairs + [pair], score) == OfScore(pairs, score) + if pair.score == score then [pair] else []
  {
    if pairs == [] {
      assert (pairs + [pair])[1..] == [];
    } else {
      OfScoreSnoc(pairs[1..], pair, score);
      assert (pairs + [pair])[1..] == pairs[1..] + [pair];
    }
  }

  lemma {:induction false} NoneOfScore(pairs: seq<Scored>, score: real)
    requires forall x :: x in pairs ==> x.score != score
    ensures OfScore(pairs, score) == []
  {
    if pairs != [] {
      assert pairs[0] in pairs;
      NoneOfScore(pairs[1..], score);
    }
  }

  lemma {:induction false} InsertGoesLast(pair: Scored, sorted: seq<Scored>, score: real)
    requires Descending(sorted)
    ensures OfScore(InsertByScore(pair, sorted), score)
      == OfScore(sorted, score) + if pair.score == score then [pair] else []
  {
    if sorted == [] || sorted[0].score < pair.score {
      assert ([pair] + sorted)[1..] == sorted;
      if pair.score == score {
        NoneOfScore(sorted, score);
      }
    } else {
      InsertGoesLast(pair, sorted[1..], score);
      assert InsertByScore(pair, sorted)[1..] == InsertByScore(pair, sorted[1..]);
    }
  }

  /** Best score first; the same pairs, those of one score in the order they were scored. */
  lemma {:induction false} BestFirstIsSorted(scored: seq<Scored>)
    ensures Descending(BestFirst(scored))
    ensures forall x :: x in BestFirst(scored) <==> x in scored
    ensures forall score :: OfScore(BestFirst(scored), score) == OfScore(scored, score)
  {
    if scored != [] {
      var n := |scored| - 1;
      BestFirstIsSorted(scored[..n]);
      InsertKeepsOrder(scored[n], BestFirst(scored[..n]));
      assert scored == scored[..n] + [scored[n]];
      forall score ensures OfScore(BestFirst(scored), score) == OfScore(scored, score) {
        InsertGoesLast(scored[n], BestFirst(scored[..n]), score);
        OfScoreSnoc(scored[..n], scored[n], score);
      }
    }
  }

  // ---------- claiming ----------

  /** Row to the posting it claimed, and with what score. */
  type Claims = map<nat, (string, real)>

  predicate PostingClaimed(claims: Claims, posting: string) {
    exists r :: r in claims && claims[r].0 == posting
  }

  /** The pairs that find both their row and their posting still free, in order. */
  function Greedy(sorted: seq<Scored>): Claims {
    if sorted == [] then map[]
    else
      var claims, pair := Greedy(sorted[..|sorted| - 1]), sorted[|sorted| - 1];
      if pair.row in claims || PostingClaimed(claims, pair.posting) then claims
      else claims[pair.row := (pair.posting, pair.score)]
  }

  method ClaimBest(sorted: seq<Scored>) returns (best: Claims)
    ensures best == Greedy(sorted)
  {
    best := map[];
    var claimedRows: set<nat>, claimedPostings: set<string> := {}, {};
    for i := 0 to |sorted|
      invariant best == Greedy(sorted[..i])
      invariant claimedRows == best.Keys
      invariant forall p :: p in claimedPostings <==> PostingClaimed(best, p)
    {
      var pair := sorted[i];
      assert sorted[..i + 1][..i] == sorted[..i] && sorted[..i + 1][i] == pair;
      if pair.row !in claimedRows && pair.posting !in claimedPostings {
        forall p ensures PostingClaimed(best[pair.row := (pair.posting, pair.score)], p)
          <==> PostingClaimed(best, p) || p == pair.posting
        {
          ClaimedOneMore(best, pair, p);
        }
        claimedRows := claimedRows + {pair.row};
        claimedPostings := claimedPostings + {pair.posting};
        best := best[pair.row := (pair.posting, pair.score)];
      }
    }
    assert sorted[..|sorted|] == sorted;
  }

  lemma ClaimedOneMore(claims: Claims, pair: Scored, p: string)
    requires pair.row !in claims
    ensures PostingClaimed(claims[pair.row := (pair.posting, pair.score)], p)
            <==> PostingClaimed(claims, p) || p == pair.posting
  {
    var more := claims[pair.row := (pair.posting, pair.score)];
    if PostingClaimed(claims, p) {
      var r :| r in claims && claims[r].0 == p;
      assert more[r].0 == p;
    }
    assert more[pair.row].0 == pair.posting;
  }

  /** Nobody shares: one posting per row by the map, and here one row per posting. */
  predicate OneRowPerPosting(claims: Claims) {
    forall r, q :: r in claims && q in claims && claims[r].0 == claims[q].0 ==> r == q
  }

  /** Blocked only by something at least as good: the row, or the posting, was claimed by a pair scoring no less. */
  predicate Settled(claims: Claims, pair: Scored) {
    || (pair.row in claims && claims[pair.row].1 >= pair.score)
    || (exists r :: r in claims && claims[r].0 == pair.posting && claims[r].1 >= pair.score)
  }

  lemma {:induction false} GreedyClaimsAreScored(sorted: seq<Scored>, r: nat)
    requires r in Greedy(sorted)
    ensures Scored(Greedy(sorted)[r].1, r, Greedy(sorted)[r].0) in sorted
  {
    var n := |sorted| - 1;
    assert sorted == sorted[..n] + [sorted[n]];
    if r in Greedy(sorted[..n]) {
      GreedyClaimsAreScored(sorted[..n], r);
    }
  }

  lemma {:induction false} GreedyIsExclusive(sorted: seq<Scored>)
    ensures OneRowPerPosting(Greedy(sorted))
  {
    if sorted != [] {
      GreedyIsExclusive(sorted[..|sorted| - 1]);
    }
  }

  lemma {:induction false} GreedySettles(sorted: seq<Scored>, x: Scored)
    requires Descending(sorted) && x in sorted
    ensures Settled(Greedy(sorted), x)
  {
    var n := |sorted| - 1;
    var claims, pair := Greedy(sorted[..n]), sorted[n];
    assert sorted == sorted[..n] + [pair];
    if x in sorted[..n] {
      GreedySettles(sorted[..n], x);
      if pair.row !in claims {
        SettledStays(claims, pair, x);
      }
    } else {
      forall r | r in claims ensures Scored(claims[r].1, r, claims[r].0) in sorted[..n] {
        GreedyClaimsAreScored(sorted[..n], r);
      }
      LastIsSettled(sorted, claims);
    }
  }

  lemma GreedyIsStable(sorted: seq<Scored>)
    requires Descending(sorted)
    ensures OneRowPerPosting(Greedy(sorted))
    ensures forall r :: r in Greedy(sorted) ==> Scored(Greedy(sorted)[r].1, r, Greedy(sorted)[r].0) in sorted
    ensures forall pair :: pair in sorted ==> Settled(Greedy(sorted), pair)
  {
    GreedyIsExclusive(sorted);
    forall r | r in Greedy(sorted) ensures Scored(Greedy(sorted)[r].1, r, Greedy(sorted)[r].0) in sorted {
      GreedyClaimsAreScored(sorted, r);
    }
    forall pair | pair in sorted ensures Settled(Greedy(sorted), pair) {
      GreedySettles(sorted, pair);
    }
  }

  lemma SettledStays(claims: Claims, pair: Scored, x: Scored)
    requires Settled(claims, x) && pair.row !in claims
    ensures Settled(claims[pair.row := (pair.posting, pair.score)], x)
  {
    var more := claims[pair.row := (pair.posting, pair.score)];
    if !(x.row in claims && claims[x.row].1 >= x.score) {
      var r :| r in claims && claims[r].0 == x.posting && claims[r].1 >= x.score;
      assert more[r] == claims[r];
    }
  }

  lemma LastIsSettled(sorted: seq<Scored>, claims: Claims)
    requires sorted != [] && Descending(sorted) && claims == Greedy(sorted[..|sorted| - 1])
    requires forall r :: r in claims ==> Scored(claims[r].1, r, claims[r].0) in sorted[..|sorted| - 1]
    ensures Settled(Greedy(sorted), sorted[|sorted| - 1])
  {
    var n := |sorted| - 1;
    var pair := sorted[n];
    forall r | r in claims ensures claims[r].1 >= pair.score {
      var i :| 0 <= i < n && sorted[i] == Scored(claims[r].1, r, claims[r].0);
    }
    if pair.row !in claims {
      if PostingClaimed(claims, pair.posting) {
        var r :| r in claims && claims[r].0 == pair.posting;
        assert Greedy(sorted)[r].1 >= pair.score;
      }
    }
  }

  // ---------- the whole preview ----------

  /** Each file row with the posting it most likely already is, if any, and how sure that is. */
  datatype Match = Match(row: nat, posting: Option<string>, confidence: Option<real>)

  method Preview(rows: seq<FileRow>, candidates: seq<Candidate>, similarity: (string, string) -> real, windowDays: int)
    returns (matches: seq<Match>)
    requires windowDays > 0
    ensures |matches| == |rows|
    ensures var claims := Greedy(BestFirst(AllScores(rows, candidates, similarity, windowDays)));
      forall i :: 0 <= i < |rows| ==>
        matches[i] == if i in claims then Match(i, Some(claims[i].0), Some(claims[i].1)) else Match(i, None, None)
  {
    var scored := ScorePairs(rows, candidates, similarity, windowDays);
    var best := ClaimBest(BestFirst(scored));
    matches := [];
    for i := 0 to |rows|
      invariant |matches| == i
      invariant forall k :: 0 <= k < i ==>
        matches[k] == if k in best then Match(k, Some(best[k].0), Some(best[k].1)) else Match(k, None, None)
    {
      matches := matches + [if i in best then Match(i, Some(best[i].0), Some(best[i].1)) else Match(i, None, None)];
    }
  }

  /**
   * Every match is a plausible pair with its own score; no posting is matched twice; and every plausible pair lost its
   * row or its posting only to a pair scoring at least as high.
   */
  lemma PreviewIsStable(rows: seq<FileRow>, candidates: seq<Candidate>, similarity: (string, string) -> real,
                        windowDays: int, pair: Scored)
    requires windowDays > 0
    ensures var claims := Greedy(BestFirst(AllScores(rows, candidates, similarity, windowDays)));
      && OneRowPerPosting(claims)
      && (forall r ::
          r in claims ==> IsScored(rows, candidates, similarity, windowDays, Scored(claims[r].1, r, claims[r].0)))
      && (IsScored(rows, candidates, similarity, windowDays, pair) ==> Settled(claims, pair))
  {
    var scored := AllScores(rows, candidates, similarity, windowDays);
    var claims := Greedy(BestFirst(scored));
    BestFirstIsSorted(scored);
    GreedyIsStable(BestFirst(scored));
    forall r | r in claims
      ensures IsScored(rows, candidates, similarity, windowDays, Scored(claims[r].1, r, claims[r].0))
    {
      ScoredExactly(rows, candidates, similarity, windowDays, Scored(claims[r].1, r, claims[r].0));
    }
    ScoredExactly(rows, candidates, similarity, windowDays, pair);
  }
}
