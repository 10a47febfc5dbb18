/** Rendering a resolution with the loops the transactions screen uses (accounting/ledger/resolution.py). */
module Display {
  import opened Frame
  import opened Categorization
  import opened Resolution
  import ResolvedIds

  /** The overrides in the order they were read: stored corrections by load order, pending suggestions anywhere. */
  ghost predicate LoadedInOrder(order: seq<PostingId>, overrides: Overrides) {
    && (forall id :: id in overrides <==> id in order)
    && (forall i, j :: 0 <= i < j < |order| && MovesAccount(order[i], overrides) && MovesAccount(order[j], overrides)
          ==> overrides[order[i]].loadOrder < overrides[order[j]].loadOrder)
  }

  /** An account override on one of a transaction's resolved legs. */
  ghost predicate Candidate(id: PostingId, rows: seq<Row>, t: TransactionId, overrides: Overrides) {
    MovesAccount(id, overrides) && exists row :: row in rows && row.posting == id && row.transaction == t
  }

  /** The manual override shown for a transaction is its latest-loaded candidate, if it has one. */
  lemma {:induction false} LatestCandidate(legs: seq<Row>, t: TransactionId, overrides: Overrides)
    requires forall row :: row in legs ==> row.transaction == t
    ensures var shown := ManualOverridePosting(legs, overrides);
      && (shown.Some? ==> Candidate(shown.value, legs, t, overrides))
      && (forall id :: Candidate(id, legs, t, overrides) ==>
            shown.Some? && overrides[id].loadOrder <= overrides[shown.value].loadOrder)
  {
    if legs != [] {
      LatestCandidate(legs[1..], t, overrides);
      assert legs == [legs[0]] + legs[1..];
      assert legs[0] in legs;
      var rest := ManualOverridePosting(legs[1..], overrides);
      if rest.Some? {
        var row :| row in legs[1..] && row.posting == rest.value && row.transaction == t;
        assert row in legs;
      }
      forall id | Candidate(id, legs, t, overrides) && id != legs[0].posting
        ensures Candidate(id, legs[1..], t, overrides)
      {
        var row :| row in legs && row.posting == id && row.transaction == t;
      }
    }
  }

  lemma CandidateInLegs(id: PostingId, rows: seq<Row>, t: TransactionId, overrides: Overrides)
    ensures Candidate(id, rows, t, overrides) <==> Candidate(id, Restrict(rows, {t}), t, overrides)
  {
    forall row ensures row in Restrict(rows, {t}) <==> row in rows && row.transaction == t {
      RestrictMembers(rows, {t}, row);
    }
  }

  /** What the dictionary keyed by transaction must end up holding. */
  ghost predicate ManualTable(table: map<TransactionId, PostingId>, rows: seq<Row>, overrides: Overrides,
                              seen: seq<PostingId>)
  {
    && (forall t :: t in table ==> table[t] in seen && Candidate(table[t], rows, t, overrides))
    && (forall t, id :: id in seen && Candidate(id, rows, t, overrides) ==>
          t in table && overrides[id].loadOrder <= overrides[table[t]].loadOrder)
  }

  lemma TableIsShown(table: map<TransactionId, PostingId>, rows: seq<Row>, overrides: Overrides, order: seq<PostingId>,
                     t: TransactionId)
    requires LoadedInOrder(order, overrides) && ManualTable(table, rows, overrides, order)
    ensures ManualOverridePosting(Restrict(rows, {t}), overrides) == if t in table then Some(table[t]) else None
  {
    var legs := Restrict(rows, {t});
    forall row | row in legs ensures row.transaction == t { RestrictMembers(rows, {t}, row); }
    LatestCandidate(legs, t, overrides);
    var shown := ManualOverridePosting(legs, overrides);
    if shown.Some? {
      CandidateInLegs(shown.value, rows, t, overrides);
    }
    if t in table {
      CandidateInLegs(table[t], rows, t, overrides);
    }
    if shown.Some? && t in table {
      var i :| 0 <= i < |order| && order[i] == shown.value;
      var j :| 0 <= j < |order| && order[j] == table[t];
      assert i == j by {
        assert overrides[order[i]].loadOrder == overrides[order[j]].loadOrder;
      }
    }
  }

  /** The owner of every resolved posting id. */
  ghost predicate OwnerTable(owner: map<PostingId, TransactionId>, rows: seq<Row>) {
    && (forall row :: row in rows ==> row.posting in owner && owner[row.posting] == row.transaction)
    && (forall id :: id in owner ==> exists row :: row in rows && row.posting == id)
  }

  method Owners(rows: seq<Row>) returns (owner: map<PostingId, TransactionId>)
    requires ResolvedIds.DistinctIds(rows)
    ensures OwnerTable(owner, rows)
  {
    owner := map[];
    for i := 0 to |rows|
      invariant OwnerTable(owner, rows[..i])
    {
      assert rows[..i + 1] == rows[..i] + [rows[i]];
      forall row | row in rows[..i] ensures row.posting != rows[i].posting {
        var k :| 0 <= k < i && rows[..i][k] == row;
      }
      ghost var before := owner;
      owner := owner[rows[i].posting := rows[i].transaction];
      forall id | id in owner ensures exists row :: row in rows[..i + 1] && row.posting == id {
        if id in before {
          var row :| row in rows[..i] && row.posting == id;
          assert row in rows[..i + 1];
        } else {
          assert rows[i] in rows[..i + 1];
        }
      }
    }
    assert rows[..|rows|] == rows;
  }

  /** Walk the overrides in load order; the last account override on a transaction's legs is the one it shows. */
  method ManualOverrides(rows: seq<Row>, overrides: Overrides, order: seq<PostingId>)
    returns (table: map<TransactionId, PostingId>)
    requires ResolvedIds.DistinctIds(rows) && LoadedInOrder(order, overrides)
    ensures ManualTable(table, rows, overrides, order)
  {
    var owner := Owners(rows);
    table := map[];
    for i := 0 to |order|
      invariant ManualTable(table, rows, overrides, order[..i])
    {
      var id := order[i];
      assert id in overrides;
      assert order[..i + 1] == order[..i] + [id];
      ghost var before := table;
      if overrides[id].account.Some? && id in owner {
        table := table[owner[id] := id];
        assert Candidate(id, rows, owner[id], overrides);
        forall seen | seen in order[..i] && MovesAccount(seen, overrides)
          ensures overrides[seen].loadOrder <= overrides[id].loadOrder
        {
          var k :| 0 <= k < i && order[..i][k] == seen;
        }
      }
      forall t, seen | seen in order[..i + 1] && Candidate(seen, rows, t, overrides)
        ensures t in table && overrides[seen].loadOrder <= overrides[table[t]].loadOrder
      {
        if seen == id {
          var row :| row in rows && row.posting == id && row.transaction == t;
          assert owner[id] == t;
        } else {
          assert seen in order[..i];
          assert t in before && overrides[seen].loadOrder <= overrides[before[t]].loadOrder;
        }
      }
    }
    assert order[..|order|] == order;
  }

  /** Transactions with at least one leg on a virtual account. */
  method VirtualTransactions(rows: seq<Row>, accounts: map<string, AccountKind>) returns (found: set<TransactionId>)
    ensures forall t :: t in found <==> HasVirtualLeg(Restrict(rows, {t}), accounts)
  {
    found := {};
    for i := 0 to |rows|
      invariant forall t ::
        t in found <==> exists k :: 0 <= k < i && rows[k].transaction == t && OnVirtualAccount(rows[k], accounts)
    {
      if OnVirtualAccount(rows[i], accounts) {
        found := found + {rows[i].transaction};
      }
    }
    forall t ensures t in found <==> HasVirtualLeg(Restrict(rows, {t}), accounts) {
      VirtualLegs(rows, accounts, t);
    }
  }

  lemma VirtualLegs(rows: seq<Row>, accounts: map<string, AccountKind>, t: TransactionId)
    ensures HasVirtualLeg(Restrict(rows, {t}), accounts)
      <==> exists k :: 0 <= k < |rows| && rows[k].transaction == t && OnVirtualAccount(rows[k], accounts)
  {
    var legs := Restrict(rows, {t});
    if HasVirtualLeg(legs, accounts) {
      var i :| 0 <= i < |legs| && OnVirtualAccount(legs[i], accounts);
      RestrictMembers(rows, {t}, legs[i]);
    }
    if k :| 0 <= k < |rows| && rows[k].transaction == t && OnVirtualAccount(rows[k], accounts) {
      RestrictMembers(rows, {t}, rows[k]);
      var i :| 0 <= i < |legs| && legs[i] == rows[k];
    }
  }

  method ExcludedTransactions(rules: seq<TransferRule>) returns (excluded: set<TransactionId>)
    ensures forall t :: t in excluded <==> ExcludedFromSomeRule(rules, t)
  {
    excluded := {};
    for i := 0 to |rules|
      invariant forall t :: t in excluded <==> exists k :: 0 <= k < i && t in rules[k].excluded
    {
      excluded := excluded + rules[i].excluded;
    }
  }

  lemma {:induction false} DisplayAllSnoc(rows: seq<Row>, n: nat, resolved: seq<Row>, raw: seq<Row>, context: Context,
                                          overrides: Overrides)
    requires n < |rows|
    ensures DisplayAll(rows[..n + 1], resolved, raw, context, overrides)
      == DisplayAll(rows[..n], resolved, raw, context, overrides)
        + [DisplayOf(rows[n], resolved, raw, context, overrides)]
  {
    if n == 0 {
      assert rows[..1] == [rows[0]] && rows[..1][1..] == [] && rows[..0] == [];
    } else {
      DisplayAllSnoc(rows[1..], n - 1, resolved, raw, context, overrides);
      assert rows[..n + 1][1..] == rows[1..][..n] && rows[..n][1..] == rows[1..][..n - 1];
    }
  }

  /** Every resolved row with its derived fields, from tables filled once per resolution. */
  method ResolvedDisplayRows(resolved: seq<Row>, raw: seq<Row>, context: Context, overrides: Overrides,
                             order: seq<PostingId>)
    returns (out: seq<DisplayRow>)
    requires ResolvedIds.DistinctIds(resolved) && LoadedInOrder(order, overrides)
    ensures out == DisplayAll(resolved, resolved, raw, context, overrides)
  {
    var manual := ManualOverrides(resolved, overrides, order);
    var virtual := VirtualTransactions(resolved, context.accounts);
    var excluded := ExcludedTransactions(context.rules);
    out := [];
    for i := 0 to |resolved|
      invariant out == DisplayAll(resolved[..i], resolved, raw, context, overrides)
    {
      var row := resolved[i];
      var t := row.transaction;
      TableIsShown(manual, resolved, overrides, order, t);
      var rule := SafeRule(raw, context.rules, context.accounts, t);
      var shown := if t in manual then Some(manual[t]) else None;
      DisplayAllSnoc(resolved, i, resolved, raw, context, overrides);
      out := out + [DisplayRow(
        row,
        if row.posting in overrides then overrides[row.posting].pendingSource else None,
        if row.posting in overrides then overrides[row.posting].pendingSelected else true,
        shown,
        if shown.Some? || rule.None? then None else Some(rule.value.id),
        !OnVirtualAccount(row, context.accounts) && t in virtual && row.link.None?,
        t in excluded)];
    }
    assert resolved[..|resolved|] == resolved;
  }
}
