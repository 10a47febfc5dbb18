/**
 * Whom the reconciliation may link and in what order it does, told from the rows, the rules and the pairs alone
 * (accounting/ledger/transfers.py).
 */
module ReconcileLaws {
  import opened Frame
  import opened Categorization
  import opened Linking
  import opened OverlayLaws
  import opened Reconciling

  // ---------- candidates ----------

  /** In no link, and the real leg not split. */
  ghost predicate Free(ledger: Ledger, links: seq<TransferLink>, leg: Row) {
    && (forall link :: link in links ==> link.a != leg.transaction && link.b != leg.transaction)
    && !(leg.posting.Stored? && leg.posting.key in ledger.splits)
  }

  /**
   * The winning rule of one leg points at the other's account, a statement account, for the opposite amount in time.
   */
  ghost predicate Counterpart(ledger: Ledger, mine: Row, theirs: Row, best: TransferRule) {
    && Wins(ledger.rules, mine, best) && best.counterparty == Some(theirs.account)
    && theirs.account in ledger.accounts && HasStatements(ledger.accounts[theirs.account])
    && mine.amount == -theirs.amount
    && mine.postedAt - ledger.window <= theirs.postedAt <= mine.postedAt + ledger.window
  }

  /** The legs of an unresolved transaction: one real, one on a placeholder. */
  ghost predicate Legs(rows: seq<Row>, t: TransactionId, p: nat, q: nat) {
    && OnlyLegs(rows, p, q) && rows[p].transaction == t
    && Unfiled(rows[p]) && !Unfiled(rows[q])
  }

  lemma UnresolvedIsFree(ledger: Ledger, links: seq<TransferLink>, t: TransactionId, p: nat, q: nat)
    requires Legs(ledger.rows, t, p, q)
    ensures Unresolved(ledger.rows, links, ledger.splits, t) <==> Free(ledger, links, ledger.rows[q])
  {
    RealLegIsTheOther(ledger.rows, p, q);
    if Linked(links, t) {
      var i :| 0 <= i < |links| && Joins(links[i], t);
      assert links[i] in links;
    }
    if link :| link in links && (link.a == t || link.b == t) {
      var i :| 0 <= i < |links| && links[i] == link;
      assert Joins(links[i], t);
    }
  }

  lemma RuleOfLeg(ledger: Ledger, t: TransactionId, p: nat, q: nat)
    requires Legs(ledger.rows, t, p, q) && DistinctRules(ledger.rules)
    ensures var rule := RuleMatch(ledger.rows, ledger.rules, t);
      && (rule.Some? ==> Wins(ledger.rules, ledger.rows[q], rule.value))
      && forall best :: Wins(ledger.rules, ledger.rows[q], best) ==> rule == Some(best)
  {
    RealLegIsTheOther(ledger.rows, p, q);
    BestRuleWins(ledger.rules, ledger.rows[q]);
    forall best | Wins(ledger.rules, ledger.rows[q], best)
      ensures RuleMatch(ledger.rows, ledger.rules, t) == Some(best)
    {
      OneWinner(ledger.rules, ledger.rows[q], best);
    }
  }

  /** One transaction may be linked to another exactly if both are free and the other is its counterpart. */
  lemma CandidateExactly(ledger: Ledger, links: seq<TransferLink>, t: TransactionId, p: nat, q: nat, u: TransactionId,
                         a: nat, b: nat)
    requires Legs(ledger.rows, t, p, q) && Legs(ledger.rows, u, a, b) && DistinctRules(ledger.rules)
    ensures Candidate(ledger, links, t, u)
      <==> (t != u && Free(ledger, links, ledger.rows[q]) && Free(ledger, links, ledger.rows[b])
            && exists best :: Counterpart(ledger, ledger.rows[q], ledger.rows[b], best))
  {
    UnresolvedIsFree(ledger, links, t, p, q);
    UnresolvedIsFree(ledger, links, u, a, b);
    RealLegIsTheOther(ledger.rows, p, q);
    RealLegIsTheOther(ledger.rows, a, b);
    RuleOfLeg(ledger, t, p, q);
    if Candidate(ledger, links, t, u) {
      assert Counterpart(ledger, ledger.rows[q], ledger.rows[b], RuleMatch(ledger.rows, ledger.rules, t).value);
    }
  }

  /** A claimed pair is linked in canonical order, as a rule's doing, under the rule that won. */
  lemma ClaimIsLinked(ledger: Ledger, links: seq<TransferLink>, pair: Pair, p: nat, q: nat, best: TransferRule)
    requires Candidate(ledger, links, pair.t, pair.u) && Legs(ledger.rows, pair.t, p, q) && DistinctRules(ledger.rules)
    requires Wins(ledger.rules, ledger.rows[q], best)
    ensures var link := LinkOf(ledger, pair);
      && link.a < link.b && {link.a, link.b} == {pair.t, pair.u}
      && link.source == Rule && link.rule == Some(best.id)
  {
    RuleOfLeg(ledger, pair.t, p, q);
  }

  // ---------- claims ----------

  /** The one member of a set not used so far. */
  ghost predicate OnlyUnused(s: set<TransactionId>, used: set<TransactionId>, u: TransactionId) {
    u in s && u !in used && forall v :: v in s && v !in used ==> v == u
  }

  ghost predicate CanClaim(candidates: map<TransactionId, set<TransactionId>>, used: set<TransactionId>,
                           t: TransactionId)
  {
    t in candidates && t !in used && exists u :: OnlyUnused(candidates[t], used, u)
  }

  /** At its turn a match claims the one candidate no earlier claim has left unused, and nothing if there is not one. */
  ghost predicate TakesTurn(order: seq<TransactionId>, candidates: map<TransactionId, set<TransactionId>>,
                            pairs: seq<Pair>, starts: seq<nat>, n: int)
    requires |starts| == |order| + 1 && 0 <= n < |order|
  {
    && starts[n] <= starts[n + 1] <= |pairs|
    && var used := Members(pairs[..starts[n]]);
      if CanClaim(candidates, used, order[n]) then
        && starts[n + 1] == starts[n] + 1 && pairs[starts[n]].t == order[n]
        && OnlyUnused(candidates[order[n]], used, pairs[starts[n]].u)
      else starts[n + 1] == starts[n]
  }

  /** The turns taken are all there is. */
  ghost predicate InTurn(order: seq<TransactionId>, candidates: map<TransactionId, set<TransactionId>>,
                         pairs: seq<Pair>, starts: seq<nat>)
  {
    && |starts| == |order| + 1 && starts[0] == 0 && starts[|order|] == |pairs|
    && forall n :: 0 <= n < |order| ==> TakesTurn(order, candidates, pairs, starts, n)
  }

  lemma OneUnused(s: set<TransactionId>, used: set<TransactionId>)
    ensures |s - used| == 1 <==> exists u :: OnlyUnused(s, used, u)
    ensures |s - used| == 1 ==> OnlyUnused(s, used, Only(s - used))
  {
    if |s - used| == 1 {
      var u := Only(s - used);
      assert u in s - used;
      forall v: TransactionId | v in s && v !in used ensures v == u {
        assert v in s - used;
      }
      assert OnlyUnused(s, used, u);
    }
    if u: TransactionId :| OnlyUnused(s, used, u) {
      assert s - used == {u};
    }
  }

  lemma TurnStays(order: seq<TransactionId>, candidates: map<TransactionId, set<TransactionId>>, pairs: seq<Pair>,
                  starts: seq<nat>, t: TransactionId, more: seq<Pair>, last: nat, n: nat)
    requires |starts| == |order| + 1 && n < |order| && TakesTurn(order, candidates, pairs, starts, n) && pairs <= more
    ensures TakesTurn(order + [t], candidates, more, starts + [last], n)
  {
    assert more[..starts[n]] == pairs[..starts[n]];
  }

  /** What the last match of an order adds. */
  lemma LastTurn(front: seq<TransactionId>, t: TransactionId, candidates: map<TransactionId, set<TransactionId>>,
                 pairs: seq<Pair>, before: seq<nat>)
    returns (more: seq<Pair>)
    requires InTurn(front, candidates, pairs, before) && t in candidates
    ensures var remaining := candidates[t] - Members(pairs);
      more == if t in Members(pairs) || |remaining| != 1 then pairs else pairs + [Pair(t, Only(remaining))]
    ensures pairs <= more && TakesTurn(front + [t], candidates, more, before + [|more|], |front|)
  {
    var used := Members(pairs);
    OneUnused(candidates[t], used);
    more := if t in used || |candidates[t] - used| != 1 then pairs else pairs + [Pair(t, Only(candidates[t] - used))];
    assert more[..|pairs|] == pairs;
  }

  lemma TurnsJoin(front: seq<TransactionId>, t: TransactionId, candidates: map<TransactionId, set<TransactionId>>,
                  pairs: seq<Pair>, before: seq<nat>, more: seq<Pair>)
    requires InTurn(front, candidates, pairs, before) && pairs <= more
    requires TakesTurn(front + [t], candidates, more, before + [|more|], |front|)
    ensures InTurn(front + [t], candidates, more, before + [|more|])
  {
    forall n | 0 <= n < |front| ensures TakesTurn(front + [t], candidates, more, before + [|more|], n) {
      TurnStays(front, candidates, pairs, before, t, more, |more|, n);
    }
  }

  lemma ClaimsSnoc(front: seq<TransactionId>, t: TransactionId, candidates: map<TransactionId, set<TransactionId>>)
    requires t in candidates && forall x :: x in front ==> x in candidates
    requires forall x :: x in candidates ==> x !in candidates[x]
    ensures forall x :: x in front + [t] ==> x in candidates
    ensures var pairs := Claims(front, candidates).0;
      var remaining := candidates[t] - Members(pairs);
      Claims(front + [t], candidates).0
        == if t in Members(pairs) || |remaining| != 1 then pairs else pairs + [Pair(t, Only(remaining))]
  {
    ClaimsAreExclusive(front, candidates);
    assert (front + [t])[..|front|] == front;
  }

  /** The claims are made turn by turn in the order of the matches, and no match with just one choice is passed over. */
  lemma {:induction false} ClaimsInTurn(order: seq<TransactionId>, candidates: map<TransactionId, set<TransactionId>>)
    returns (starts: seq<nat>)
    requires forall t :: t in order ==> t in candidates
    requires forall t :: t in candidates ==> t !in candidates[t]
    ensures InTurn(order, candidates, Claims(order, candidates).0, starts)
  {
    if order == [] {
      return [0];
    }
    var front, t := order[..|order| - 1], order[|order| - 1];
    assert order == front + [t];
    var before := ClaimsInTurn(front, candidates);
    var more := LastTurn(front, t, candidates, Claims(front, candidates).0, before);
    ClaimsSnoc(front, t, candidates);
    TurnsJoin(front, t, candidates, Claims(front, candidates).0, before, more);
    starts := before + [|more|];
  }
}
