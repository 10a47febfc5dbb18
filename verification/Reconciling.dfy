/** Linking a transfer rule's transaction to its unique counterpart, exclusively (accounting/ledger/transfers.py). */
module Reconciling {
  import opened Frame
  import opened Categorization
  import opened Linking

  // ---------- who may be linked to whom ----------

  predicate Linked(links: seq<TransferLink>, t: TransactionId) {
    exists i :: 0 <= i < |links| && Joins(links[i], t)
  }

  /** A two-leg transaction still on its placeholder, in no link, its real leg not split. */
  predicate Unresolved(rows: seq<Row>, links: seq<TransferLink>, splits: Splits, t: TransactionId) {
    var leg := RealLeg(rows, t);
    leg.Some? && !Linked(links, t) && !(leg.value.posting.Stored? && leg.value.posting.key in splits)
  }

  /** The rule that resolves a transaction, where its counterparty is an account statements are imported for. */
  function ImportableRule(rows: seq<Row>, rules: seq<TransferRule>, accounts: map<string, AccountKind>,
                          t: TransactionId)
    : Option<TransferRule>
  {
    var rule := RuleMatch(rows, rules, t);
    if rule.Some? && rule.value.counterparty.Some? && rule.value.counterparty.value in accounts
       && Importable(accounts[rule.value.counterparty.value])
    then rule else None
  }

  /** What one call reads. */
  datatype Ledger = Ledger(rows: seq<Row>, rules: seq<TransferRule>, accounts: map<string, AccountKind>, splits: Splits,
                           window: int)

  function Transactions(rows: seq<Row>): set<TransactionId> {
    set i | 0 <= i < |rows| :: rows[i].transaction
  }

  predicate Within(window: int, a: int, b: int) {
    -window <= a - b <= window
  }

  /** An unresolved transaction on the rule's counterparty account, of the opposite amount, close enough in time. */
  predicate Candidate(ledger: Ledger, links: seq<TransferLink>, t: TransactionId, u: TransactionId) {
    var rule := ImportableRule(ledger.rows, ledger.rules, ledger.accounts, t);
    && rule.Some? && t != u
    && Unresolved(ledger.rows, links, ledger.splits, t) && Unresolved(ledger.rows, links, ledger.splits, u)
    && var mine, theirs := RealLeg(ledger.rows, t).value, RealLeg(ledger.rows, u).value;
    && Some(theirs.account) == rule.value.counterparty
    && mine.amount + theirs.amount == 0
    && Within(ledger.window, mine.postedAt, theirs.postedAt)
  }

  function Candidates(ledger: Ledger, links: seq<TransferLink>, t: TransactionId): set<TransactionId> {
    set u | u in Transactions(ledger.rows) && Candidate(ledger, links, t, u)
  }

  /** The transactions with any candidate, and their candidates. */
  function CandidatesByTransaction(ledger: Ledger, links: seq<TransferLink>): map<TransactionId, set<TransactionId>> {
    map t | t in Transactions(ledger.rows) && Candidates(ledger, links, t) != {} :: Candidates(ledger, links, t)
  }

  // ---------- the claim loop ----------

  datatype Pair = Pair(t: TransactionId, u: TransactionId)

  function Only(s: set<TransactionId>): (u: TransactionId)
    requires |s| == 1
    ensures s == {u}
  {
    OneElement(s);
    var u :| u in s;
    u
  }

  lemma OneElement(s: set<TransactionId>)
    requires |s| == 1
    ensures exists u :: u in s
    ensures forall u, v :: u in s && v in s ==> u == v
  {
    forall u, v | u in s && v in s ensures u == v {
      assert |s - {u}| == 0;
    }
  }

  lemma SingletonSize(s: set<TransactionId>, u: TransactionId)
    requires s == {u}
    ensures |s| == 1
  {
  }

  /** The pairs claimed by the transactions of an order, each taking its one unclaimed candidate if it has just one. */
  function Claims(order: seq<TransactionId>,
                  candidates: map<TransactionId, set<TransactionId>>): (seq<Pair>, set<TransactionId>)
    requires forall t :: t in order ==> t in candidates
  {
    if order == [] then ([], {})
    else
      var t := order[|order| - 1];
      var (pairs, used) := Claims(order[..|order| - 1], candidates);
      var remaining := candidates[t] - used;
      if t in used || |remaining| != 1 then (pairs, used)
      else (pairs + [Pair(t, Only(remaining))], used + {t, Only(remaining)})
  }

  function LinkOf(ledger: Ledger, pair: Pair): TransferLink {
    var rule := ImportableRule(ledger.rows, ledger.rules, ledger.accounts, pair.t);
    MakeTransferLink(pair.t, pair.u, Rule, if rule.Some? then Some(rule.value.id) else None)
  }

  function LinksOf(ledger: Ledger, pairs: seq<Pair>): seq<TransferLink> {
    seq(|pairs|, i requires 0 <= i < |pairs| => LinkOf(ledger, pairs[i]))
  }

  lemma LinksSnoc(ledger: Ledger, pairs: seq<Pair>, pair: Pair)
    ensures LinksOf(ledger, pairs + [pair]) == LinksOf(ledger, pairs) + [LinkOf(ledger, pair)]
  {
  }

  /** Go through the matches in order; each claims its one remaining candidate, if it has just one. */
  method ClaimLinks(ledger: Ledger, order: seq<TransactionId>, candidates: map<TransactionId, set<TransactionId>>)
    returns (proposed: seq<TransferLink>)
    requires forall t :: t in order ==> t in candidates
    ensures proposed == LinksOf(ledger, Claims(order, candidates).0)
  {
    proposed := [];
    var alreadyUsed: set<TransactionId> := {};
    ghost var pairs: seq<Pair> := [];
    for n := 0 to |order|
      invariant (pairs, alreadyUsed) == Claims(order[..n], candidates)
      invariant proposed == LinksOf(ledger, pairs)
    {
      var t := order[n];
      assert order[..n + 1][..n] == order[..n] && order[..n + 1][n] == t;
      if t !in alreadyUsed {
        var remaining := candidates[t] - alreadyUsed;
        if |remaining| == 1 {
          var other := Only(remaining);
          LinksSnoc(ledger, pairs, Pair(t, other));
          pairs := pairs + [Pair(t, other)];
          proposed := proposed + [LinkOf(ledger, Pair(t, other))];
          alreadyUsed := alreadyUsed + {t, other};
        }
      }
    }
    assert order[..|order|] == order;
  }

  /** Propose a link for every rule match that safely resolves to one candidate; `order` is the sorted matches. */
  method ReconcileRuleLinks(ledger: Ledger, links: seq<TransferLink>, order: seq<TransactionId>)
    returns (proposed: seq<TransferLink>)
    requires forall t :: t in order <==> t in CandidatesByTransaction(ledger, links)
    ensures proposed == LinksOf(ledger, Claims(order, CandidatesByTransaction(ledger, links)).0)
  {
    proposed := ClaimLinks(ledger, order, CandidatesByTransaction(ledger, links));
  }

  // ---------- what the claims promise ----------

  function Members(pairs: seq<Pair>): set<TransactionId> {
    (set i | 0 <= i < |pairs| :: pairs[i].t) + (set i | 0 <= i < |pairs| :: pairs[i].u)
  }

  lemma MembersSnoc(pairs: seq<Pair>, pair: Pair)
    ensures Members(pairs + [pair]) == Members(pairs) + {pair.t, pair.u}
  {
    var more := pairs + [pair];
    assert more[|pairs|] == pair;
    forall i | 0 <= i < |pairs| ensures pairs[i].t in Members(more) && pairs[i].u in Members(more) {
      assert more[i] == pairs[i];
    }
  }

  predicate Exclusive(pairs: seq<Pair>) {
    && (forall i :: 0 <= i < |pairs| ==> pairs[i].t != pairs[i].u)
    && (forall i, j :: 0 <= i < j < |pairs| ==> {pairs[i].t, pairs[i].u} !! {pairs[j].t, pairs[j].u})
  }

  predicate Bounded(order: seq<TransactionId>, candidates: map<TransactionId, set<TransactionId>>, pairs: seq<Pair>) {
    forall i :: 0 <= i < |pairs| ==>
      pairs[i].t in order && pairs[i].t in candidates && pairs[i].u in candidates[pairs[i].t]
  }

  lemma TwoMore(s: set<TransactionId>, t: TransactionId, u: TransactionId)
    requires t != u && t !in s && u !in s
    ensures |s + {t, u}| == |s| + 2
  {
    assert s + {t, u} == (s + {t}) + {u};
  }

  lemma PairIsApart(pairs: seq<Pair>, pair: Pair, i: nat)
    requires pair.t !in Members(pairs) && pair.u !in Members(pairs) && i < |pairs|
    ensures {pairs[i].t, pairs[i].u} !! {pair.t, pair.u}
  {
    assert pairs[i].t in Members(pairs) && pairs[i].u in Members(pairs);
  }

  lemma ExclusiveSnoc(pairs: seq<Pair>, pair: Pair)
    requires Exclusive(pairs) && pair.t != pair.u && pair.t !in Members(pairs) && pair.u !in Members(pairs)
    ensures Exclusive(pairs + [pair])
  {
    var more := pairs + [pair];
    forall i, j | 0 <= i < j < |more| ensures {more[i].t, more[i].u} !! {more[j].t, more[j].u} {
      if j == |pairs| {
        PairIsApart(pairs, pair, i);
      }
    }
  }

  /** Claims join a transaction to one of its own candidates, and never use a transaction twice. */
  lemma {:induction false} ClaimsAreExclusive(order: seq<TransactionId>,
                                              candidates: map<TransactionId, set<TransactionId>>)
    requires forall t :: t in order ==> t in candidates
    requires forall t :: t in candidates ==> t !in candidates[t]
    ensures var (pairs, used) := Claims(order, candidates);
      && Exclusive(pairs) && used == Members(pairs) && |used| == 2 * |pairs|
      && Bounded(order, candidates, pairs)
  {
    if order == [] {
      assert Members([]) == {};
    } else {
      var n := |order| - 1;
      var t := order[n];
      ClaimsAreExclusive(order[..n], candidates);
      var (pairs, used) := Claims(order[..n], candidates);
      var remaining := candidates[t] - used;
      assert Bounded(order, candidates, pairs);
      if t !in used && |remaining| == 1 {
        ClaimOneMore(order, candidates, pairs, used, t, Only(remaining));
      }
    }
  }

  lemma ClaimOneMore(order: seq<TransactionId>, candidates: map<TransactionId, set<TransactionId>>, pairs: seq<Pair>,
                     used: set<TransactionId>, t: TransactionId, u: TransactionId)
    requires Exclusive(pairs) && used == Members(pairs) && |used| == 2 * |pairs| && Bounded(order, candidates, pairs)
    requires t in order && t in candidates && u in candidates[t] && t != u && t !in used && u !in used
    ensures var more := pairs + [Pair(t, u)];
      && Exclusive(more) && used + {t, u} == Members(more) && |used + {t, u}| == 2 * |more|
      && Bounded(order, candidates, more)
  {
    ExclusiveSnoc(pairs, Pair(t, u));
    MembersSnoc(pairs, Pair(t, u));
    TwoMore(used, t, u);
  }

  lemma LinkJoinsPair(ledger: Ledger, pair: Pair, t: TransactionId)
    ensures Joins(LinkOf(ledger, pair), t) <==> t == pair.t || t == pair.u
  {
  }

  lemma CandidatesAreOthers(ledger: Ledger, links: seq<TransferLink>)
    ensures var candidates := CandidatesByTransaction(ledger, links);
      forall t :: t in candidates ==> t !in candidates[t]
  {
  }

  /**
   * One call, on a ledger whose links are a matching: the links it proposes join an unresolved transaction a rule
   * matches to an unresolved one on the rule's counterparty account with the opposite amount inside the window, carry
   * that rule, and together with the existing links are a matching still.
   */
  lemma ProposalsKeepTheMatching(ledger: Ledger, links: seq<TransferLink>, order: seq<TransactionId>)
    requires Matching(links)
    requires forall t :: t in order <==> t in CandidatesByTransaction(ledger, links)
    ensures var pairs := Claims(order, CandidatesByTransaction(ledger, links)).0;
      && Matching(links + LinksOf(ledger, pairs))
      && forall i :: 0 <= i < |pairs| ==> Candidate(ledger, links, pairs[i].t, pairs[i].u)
  {
    var candidates := CandidatesByTransaction(ledger, links);
    var pairs := Claims(order, candidates).0;
    CandidatesAreOthers(ledger, links);
    ClaimsAreExclusive(order, candidates);
    PairsAreCandidates(ledger, links, order, pairs);
    ExclusiveKeepsMatching(ledger, links, pairs);
  }

  lemma PairsAreCandidates(ledger: Ledger, links: seq<TransferLink>, order: seq<TransactionId>, pairs: seq<Pair>)
    requires Bounded(order, CandidatesByTransaction(ledger, links), pairs)
    ensures forall i :: 0 <= i < |pairs| ==> Candidate(ledger, links, pairs[i].t, pairs[i].u)
  {
  }

  lemma ExclusiveKeepsMatching(ledger: Ledger, links: seq<TransferLink>, pairs: seq<Pair>)
    requires Matching(links) && Exclusive(pairs)
    requires forall k :: 0 <= k < |pairs| ==> Candidate(ledger, links, pairs[k].t, pairs[k].u)
    ensures Matching(links + LinksOf(ledger, pairs))
  {
    var all := links + LinksOf(ledger, pairs);
    forall i, j, t | 0 <= i < j < |all| ensures !(Joins(all[i], t) && Joins(all[j], t)) {
      NoSharedMember(ledger, links, pairs, i, j, t);
    }
    forall i | 0 <= i < |all| ensures all[i].a != all[i].b {
      if i >= |links| {
        assert all[i] == LinkOf(ledger, pairs[i - |links|]);
      }
    }
  }

  lemma NoSharedMember(ledger: Ledger, links: seq<TransferLink>, pairs: seq<Pair>, i: nat, j: nat, t: TransactionId)
    requires Matching(links) && Exclusive(pairs)
    requires forall k :: 0 <= k < |pairs| ==> Candidate(ledger, links, pairs[k].t, pairs[k].u)
    requires i < j < |links + LinksOf(ledger, pairs)|
    ensures var all := links + LinksOf(ledger, pairs); !(Joins(all[i], t) && Joins(all[j], t))
  {
    var all := links + LinksOf(ledger, pairs);
    if j >= |links| {
      var q := pairs[j - |links|];
      assert all[j] == LinkOf(ledger, q);
      LinkJoinsPair(ledger, q, t);
      assert Candidate(ledger, links, q.t, q.u);
      if i >= |links| {
        var p := pairs[i - |links|];
        assert all[i] == LinkOf(ledger, p);
        LinkJoinsPair(ledger, p, t);
        assert {p.t, p.u} !! {q.t, q.u};
      } else {
        assert all[i] == links[i];
        assert Joins(links[i], t) ==> Linked(links, t);
      }
    }
  }

  // ---------- nothing safe is missed, and rounds end ----------

  /** No other match competes for either side, and the candidate itself, if a match, wants nobody else. */
  predicate Uncontested(order: seq<TransactionId>, candidates: map<TransactionId, set<TransactionId>>, t: TransactionId,
                        u: TransactionId)
    requires forall x :: x in order ==> x in candidates
  {
    && t in candidates && candidates[t] == {u}
    && (forall x :: x in order && x != t && x != u ==> t !in candidates[x] && u !in candidates[x])
    && (u in order ==> candidates[u] <= {t})
  }

  lemma {:induction false} UncontestedStaysFree(order: seq<TransactionId>,
                                                candidates: map<TransactionId, set<TransactionId>>, t: TransactionId,
                                                u: TransactionId)
    requires forall x :: x in order ==> x in candidates
    requires t != u && Uncontested(order, candidates, t, u) && candidates[t] == {u}
    requires forall x :: x in candidates ==> x !in candidates[x]
    ensures var (pairs, used) := Claims(order, candidates);
      && (t in used <==> u in used)
      && (t in used ==> Pair(t, u) in pairs || Pair(u, t) in pairs)
      && (t in order ==> t in used)
  {
    if order != [] {
      var n := |order| - 1;
      var x := order[n];
      assert order == order[..n] + [x];
      UncontestedStaysFree(order[..n], candidates, t, u);
      var (pairs, used) := Claims(order[..n], candidates);
      var remaining := candidates[x] - used;
      if x == t && t !in used {
        assert remaining == {u};
        SingletonSize(remaining, u);
        assert Only(remaining) == u;
        assert (pairs + [Pair(t, u)])[|pairs|] == Pair(t, u);
      } else if x !in used && |remaining| == 1 {
        var other := Only(remaining);
        assert other in remaining;
        if x == u {
          assert other == t;
        }
        assert (pairs + [Pair(x, other)])[|pairs|] == Pair(x, other);
        assert forall p :: p in pairs ==> p in pairs + [Pair(x, other)];
      }
    }
  }

  /** A match with a single candidate nobody competes for is always linked, wherever it falls in the order. */
  lemma UncontestedIsLinked(ledger: Ledger, links: seq<TransferLink>, order: seq<TransactionId>, t: TransactionId,
                            u: TransactionId)
    requires forall x :: x in order <==> x in CandidatesByTransaction(ledger, links)
    requires t in order && t != u && Uncontested(order, CandidatesByTransaction(ledger, links), t, u)
    ensures var pairs := Claims(order, CandidatesByTransaction(ledger, links)).0;
      Pair(t, u) in pairs || Pair(u, t) in pairs
  {
    CandidatesAreOthers(ledger, links);
    UncontestedStaysFree(order, CandidatesByTransaction(ledger, links), t, u);
  }

  /** The transactions a link could still be proposed for. */
  function Open(ledger: Ledger, links: seq<TransferLink>): set<TransactionId> {
    set t | t in Transactions(ledger.rows) && Unresolved(ledger.rows, links, ledger.splits, t)
  }

  lemma LinkedConcat(a: seq<TransferLink>, b: seq<TransferLink>, t: TransactionId)
    ensures Linked(a + b, t) <==> Linked(a, t) || Linked(b, t)
  {
    if Linked(a, t) {
      var i :| 0 <= i < |a| && Joins(a[i], t);
      assert (a + b)[i] == a[i];
    }
    if Linked(b, t) {
      var i :| 0 <= i < |b| && Joins(b[i], t);
      assert (a + b)[|a| + i] == b[i];
    }
  }

  lemma ProposedLinks(ledger: Ledger, pairs: seq<Pair>, t: TransactionId)
    ensures Linked(LinksOf(ledger, pairs), t) <==> t in Members(pairs)
  {
    var proposed := LinksOf(ledger, pairs);
    if Linked(proposed, t) {
      var i :| 0 <= i < |proposed| && Joins(proposed[i], t);
      LinkJoinsPair(ledger, pairs[i], t);
    }
    if t in Members(pairs) {
      var i :| 0 <= i < |pairs| && (pairs[i].t == t || pairs[i].u == t);
      LinkJoinsPair(ledger, pairs[i], t);
      assert Joins(proposed[i], t);
    }
  }

  /** The matches in some sorted order. */
  ghost predicate Sorts(sort: set<TransactionId> -> seq<TransactionId>) {
    forall s, t :: t in sort(s) <==> t in s
  }

  /** What one round proposes. */
  ghost function Round(ledger: Ledger, links: seq<TransferLink>,
                       sort: set<TransactionId> -> seq<TransactionId>): seq<TransferLink>
    requires Sorts(sort)
  {
    var candidates := CandidatesByTransaction(ledger, links);
    LinksOf(ledger, Claims(sort(candidates.Keys), candidates).0)
  }

  /** Each link a round proposes uses up exactly two open transactions. */
  lemma RoundUsesUp(ledger: Ledger, links: seq<TransferLink>, order: seq<TransactionId>)
    requires forall t :: t in order <==> t in CandidatesByTransaction(ledger, links)
    ensures var proposed := LinksOf(ledger, Claims(order, CandidatesByTransaction(ledger, links)).0);
      |Open(ledger, links + proposed)| + 2 * |proposed| == |Open(ledger, links)|
  {
    var candidates := CandidatesByTransaction(ledger, links);
    var pairs := Claims(order, candidates).0;
    CandidatesAreOthers(ledger, links);
    ClaimsAreExclusive(order, candidates);
    PairsAreCandidates(ledger, links, order, pairs);
    OpenAfter(ledger, links, pairs);
    MembersWereOpen(ledger, links, pairs);
    Partition(Open(ledger, links), Members(pairs));
  }

  lemma RoundShrinks(ledger: Ledger, links: seq<TransferLink>, sort: set<TransactionId> -> seq<TransactionId>)
    requires Sorts(sort)
    ensures var proposed := Round(ledger, links, sort);
      |Open(ledger, links + proposed)| + 2 * |proposed| == |Open(ledger, links)|
  {
    RoundUsesUp(ledger, links, sort(CandidatesByTransaction(ledger, links).Keys));
  }

  /**
   * The links after round upon round, each on the links of those before, until one proposes nothing; and how many did.
   */
  ghost function Settled(ledger: Ledger, links: seq<TransferLink>, sort: set<TransactionId> -> seq<TransactionId>)
    : (seq<TransferLink>, nat)
    requires Sorts(sort)
    decreases |Open(ledger, links)|
  {
    var proposed := Round(ledger, links, sort);
    RoundShrinks(ledger, links, sort);
    if proposed == [] then (links, 0)
    else
      var (settled, rounds) := Settled(ledger, links + proposed, sort);
      (settled, rounds + 1)
  }

  lemma RoundKeepsMatching(ledger: Ledger, links: seq<TransferLink>, sort: set<TransactionId> -> seq<TransactionId>)
    requires Sorts(sort) && Matching(links)
    ensures Matching(links + Round(ledger, links, sort))
  {
    ProposalsKeepTheMatching(ledger, links, sort(CandidatesByTransaction(ledger, links).Keys));
  }

  /**
   * Rounds come to an end within half as many as there are open transactions, in links that extend the first ones, are
   * a matching if those were, and on which another round proposes nothing.
   */
  lemma {:induction false} RoundsTerminate(ledger: Ledger, links: seq<TransferLink>,
                                           sort: set<TransactionId> -> seq<TransactionId>)
    requires Sorts(sort)
    ensures var (settled, rounds) := Settled(ledger, links, sort);
      && 2 * rounds <= |Open(ledger, links)|
      && Round(ledger, settled, sort) == []
      && links <= settled
      && |Open(ledger, settled)| + 2 * (|settled| - |links|) == |Open(ledger, links)|
      && (Matching(links) ==> Matching(settled))
    decreases |Open(ledger, links)|
  {
    var proposed := Round(ledger, links, sort);
    RoundShrinks(ledger, links, sort);
    if proposed != [] {
      RoundsTerminate(ledger, links + proposed, sort);
      if Matching(links) {
        RoundKeepsMatching(ledger, links, sort);
      }
    }
  }

  lemma Partition(all: set<TransactionId>, some: set<TransactionId>)
    requires some <= all
    ensures |all - some| + |some| == |all|
  {
    assert all == (all - some) + some;
  }

  lemma OpenAfter(ledger: Ledger, links: seq<TransferLink>, pairs: seq<Pair>)
    ensures Open(ledger, links + LinksOf(ledger, pairs)) == Open(ledger, links) - Members(pairs)
  {
    var proposed := LinksOf(ledger, pairs);
    forall t ensures t in Open(ledger, links + proposed) <==> t in Open(ledger, links) && t !in Members(pairs) {
      LinkedConcat(links, proposed, t);
      ProposedLinks(ledger, pairs, t);
    }
  }

  lemma MembersWereOpen(ledger: Ledger, links: seq<TransferLink>, pairs: seq<Pair>)
    requires forall k :: 0 <= k < |pairs| ==> Candidate(ledger, links, pairs[k].t, pairs[k].u)
    ensures Members(pairs) <= Open(ledger, links)
  {
    forall t | t in Members(pairs) ensures t in Open(ledger, links) {
      var i :| 0 <= i < |pairs| && (pairs[i].t == t || pairs[i].u == t);
      assert Candidate(ledger, links, pairs[i].t, pairs[i].u);
      LegIsListed(ledger.rows, t);
    }
  }

  lemma LegIsListed(rows: seq<Row>, t: TransactionId)
    requires RealLeg(rows, t).Some?
    ensures t in Transactions(rows)
  {
    assert Restrict(rows, {t}) != [];
    RestrictedIsListed(rows, t);
  }

  lemma {:induction false} RestrictedIsListed(rows: seq<Row>, t: TransactionId)
    requires Restrict(rows, {t}) != []
    ensures t in Transactions(rows)
  {
    if rows[0].transaction != t {
      RestrictedIsListed(rows[1..], t);
      var i :| 0 <= i < |rows[1..]| && rows[1..][i].transaction == t;
      assert rows[i + 1].transaction == t;
    }
  }

  // ---------- a ledger that needs two rounds ----------

  function LegOn(key: string, t: TransactionId, account: string, day: int, amount: int): Row {
    Row(Stored(key), t, account, day, amount, "USD", None, None, None, {}, "transfer", map[], None)
  }

  /** A transaction still on its placeholder: its real leg, and the placeholder's. */
  function Awaiting(key: string, t: TransactionId, account: string, day: int, amount: int): seq<Row> {
    [LegOn(key, t, account, day, amount), LegOn(key + "'", t, UNCATEGORIZED_EXPENSE, day, -amount)]
  }

  /** Money leaves checking on days 0 and 3, and reaches savings on days 0 and -3. */
  function FourRows(): seq<Row> {
    Awaiting("a", 1, "checking", 0, -100) + Awaiting("b", 2, "checking", 3, -100)
    + (Awaiting("c", 3, "savings", 0, 100) + Awaiting("d", 4, "savings", -3, 100))
  }

  const TO_SAVINGS := TransferRule("r", "transfer", Some("checking"), Some("savings"), 0, true, {})

  function FourLedger(): Ledger {
    Ledger(FourRows(), [TO_SAVINGS], map["checking" := Checking, "savings" := Savings], map[], 3)
  }

  lemma RestrictAwaiting(key: string, t: TransactionId, account: string, day: int, amount: int, u: TransactionId)
    ensures Restrict(Awaiting(key, t, account, day, amount), {u}) ==
      if t == u then Awaiting(key, t, account, day, amount) else []
  {
    var rows := Awaiting(key, t, account, day, amount);
    if t == u {
      RestrictAll(rows, {u});
    } else {
      RestrictNone(rows, {u});
    }
  }

  function LegOf(t: TransactionId): Row
    requires 1 <= t <= 4
  {
    if t == 1 then LegOn("a", 1, "checking", 0, -100)
    else if t == 2 then LegOn("b", 2, "checking", 3, -100)
    else if t == 3 then LegOn("c", 3, "savings", 0, 100)
    else LegOn("d", 4, "savings", -3, 100)
  }

  function LegsOf(t: TransactionId): seq<Row> {
    if t == 1 then Awaiting("a", 1, "checking", 0, -100)
    else if t == 2 then Awaiting("b", 2, "checking", 3, -100)
    else if t == 3 then Awaiting("c", 3, "savings", 0, 100)
    else if t == 4 then Awaiting("d", 4, "savings", -3, 100)
    else []
  }

  lemma FourRestricted(t: TransactionId)
    ensures Restrict(FourRows(), {t}) == LegsOf(t)
  {
    var a, b, c, d := LegsOf(1), LegsOf(2), LegsOf(3), LegsOf(4);
    RestrictConcat(a + b, c + d, {t});
    RestrictConcat(a, b, {t});
    RestrictConcat(c, d, {t});
    RestrictAwaiting("a", 1, "checking", 0, -100, t);
    RestrictAwaiting("b", 2, "checking", 3, -100, t);
    RestrictAwaiting("c", 3, "savings", 0, 100, t);
    RestrictAwaiting("d", 4, "savings", -3, 100, t);
  }

  lemma FourLegs(t: TransactionId)
    ensures RealLeg(FourRows(), t) == if 1 <= t <= 4 then Some(LegOf(t)) else None
  {
    FourRestricted(t);
  }

  lemma RuleFits(row: Row)
    requires row.description == "transfer"
    ensures RuleMatches(TO_SAVINGS, row) <==> row.account == "checking"
  {
    assert Lower(TO_SAVINGS.contains) == Lower(row.description);
  }

  lemma FourRules(t: TransactionId)
    ensures var ledger := FourLedger();
      ImportableRule(ledger.rows, ledger.rules, ledger.accounts, t) ==
        if t == 1 || t == 2 then Some(TO_SAVINGS) else None
  {
    FourLegs(t);
    if 1 <= t <= 4 {
      RuleFits(LegOf(t));
      assert BestRule([TO_SAVINGS][1..], LegOf(t)) == None;
    }
  }

  /** Who is a candidate of whom, while no link names either. */
  lemma FourCandidates(links: seq<TransferLink>, t: TransactionId, u: TransactionId)
    ensures Candidate(FourLedger(), links, t, u)
      <==> !Linked(links, t) && !Linked(links, u) && ((t == 1 && (u == 3 || u == 4)) || (t == 2 && u == 3))
  {
    FourRules(t);
    FourLegs(t);
    FourLegs(u);
  }

  lemma FourListed(t: TransactionId)
    requires 1 <= t <= 4
    ensures t in Transactions(FourRows())
  {
    FourLegs(t);
    LegIsListed(FourRows(), t);
  }

  lemma InCandidates(links: seq<TransferLink>, t: TransactionId, u: TransactionId)
    ensures u in Candidates(FourLedger(), links, t)
      <==> !Linked(links, t) && !Linked(links, u) && ((t == 1 && (u == 3 || u == 4)) || (t == 2 && u == 3))
  {
    FourCandidates(links, t, u);
    FourListed(3);
    FourListed(4);
  }

  /** A map with the right candidates for each transaction is the map the call builds. */
  lemma IsCandidateMap(links: seq<TransferLink>, m: map<TransactionId, set<TransactionId>>)
    requires forall t :: Candidates(FourLedger(), links, t) == if t in m then m[t] else {}
    requires forall t :: t in m ==> m[t] != {} && 1 <= t <= 4
    ensures CandidatesByTransaction(FourLedger(), links) == m
  {
    var built := CandidatesByTransaction(FourLedger(), links);
    forall t ensures (t in built <==> t in m) && (t in m ==> built[t] == m[t]) {
      if t in m {
        FourListed(t);
      }
      assert Candidates(FourLedger(), links, t) == if t in m then m[t] else {};
    }
  }

  const FIRST_LINK := TransferLink(2, 3, Rule, Some("r"))
  const SECOND_LINK := TransferLink(1, 4, Rule, Some("r"))

  lemma FirstCandidates()
    ensures CandidatesByTransaction(FourLedger(), []) == map[1 := {3, 4}, 2 := {3}]
  {
    var m: map<TransactionId, set<TransactionId>> := map[1 := {3, 4}, 2 := {3}];
    forall t ensures Candidates(FourLedger(), [], t) == if t in m then m[t] else {} {
      forall u ensures u in Candidates(FourLedger(), [], t) <==> u in (if t in m then m[t] else {}) {
        InCandidates([], t, u);
      }
    }
    IsCandidateMap([], m);
  }

  lemma FirstLinks(t: TransactionId)
    ensures Linked([FIRST_LINK], t) <==> t == 2 || t == 3
  {
    if t == 2 || t == 3 {
      assert Joins([FIRST_LINK][0], t);
    }
  }

  lemma SecondCandidates()
    ensures CandidatesByTransaction(FourLedger(), [FIRST_LINK]) == map[1 := {4}]
  {
    var m: map<TransactionId, set<TransactionId>> := map[1 := {4}];
    forall t ensures Candidates(FourLedger(), [FIRST_LINK], t) == if t in m then m[t] else {} {
      forall u ensures u in Candidates(FourLedger(), [FIRST_LINK], t) <==> u in (if t in m then m[t] else {}) {
        InCandidates([FIRST_LINK], t, u);
        FirstLinks(t);
        FirstLinks(u);
      }
    }
    IsCandidateMap([FIRST_LINK], m);
  }

  lemma FirstClaims()
    ensures Claims([1, 2], map[1 := {3, 4}, 2 := {3}]).0 == [Pair(2, 3)]
  {
    var candidates: map<TransactionId, set<TransactionId>> := map[1 := {3, 4}, 2 := {3}];
    assert [1, 2][..1] == [1] && [1][..0] == [];
    assert Claims([], candidates) == ([], {});
    assert candidates[1] - {} == {3, 4} && |{3, 4}| == 2;
    assert Claims([1], candidates) == ([], {});
    assert candidates[2] - {} == {3};
    SingletonSize(candidates[2] - {}, 3);
  }

  lemma SecondClaims()
    ensures Claims([1], map[1 := {4}]).0 == [Pair(1, 4)]
  {
    var candidates: map<TransactionId, set<TransactionId>> := map[1 := {4}];
    assert [1][..0] == [];
    assert Claims([], candidates) == ([], {});
    assert candidates[1] - {} == {4};
    SingletonSize(candidates[1] - {}, 4);
  }

  lemma LinkIs(pair: Pair, link: TransferLink)
    requires pair.t == 1 || pair.t == 2
    requires link == MakeTransferLink(pair.t, pair.u, Rule, Some("r"))
    ensures LinksOf(FourLedger(), [pair]) == [link]
  {
    FourRules(pair.t);
  }

  /**
   * One round is not always the last: on this ledger the first links only the unambiguous match, which leaves the other
   * with one candidate for the second.
   */
  lemma SecondRoundCanPropose()
    ensures var ledger := FourLedger();
      && CandidatesByTransaction(ledger, []) == map[1 := {3, 4}, 2 := {3}]
      && LinksOf(ledger, Claims([1, 2], map[1 := {3, 4}, 2 := {3}]).0) == [FIRST_LINK]
      && CandidatesByTransaction(ledger, [FIRST_LINK]) == map[1 := {4}]
      && LinksOf(ledger, Claims([1], map[1 := {4}]).0) == [SECOND_LINK]
  {
    FirstCandidates();
    FirstClaims();
    LinkIs(Pair(2, 3), FIRST_LINK);
    SecondCandidates();
    SecondClaims();
    LinkIs(Pair(1, 4), SECOND_LINK);
  }
}
