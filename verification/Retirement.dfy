/** Retiring categories, with every redirect kept one hop long (accounting/repositories/taxonomy.py). */
module Retirement {
  import opened Frame
  import opened Taxonomy
  import opened CategoryEdits

  /** A stored category: live, or a tombstone naming what it folded into, if anything. */
  datatype CategoryRow = CategoryRow(retired: bool, successor: Option<string>)

  type Rows = map<string, CategoryRow>

  type Successors = map<string, Option<string>>

  // ---------- following the mapping ----------

  /** The key that is not itself being retired; a key met twice ends the walk. */
  function Terminal(successors: Successors, key: Option<string>, seen: set<string>): Option<string>
    decreases |successors.Keys - seen|
  {
    if key.Some? && key.value in successors && key.value !in seen then
      assert successors.Keys - (seen + {key.value}) < successors.Keys - seen;
      SmallerSet(successors.Keys - (seen + {key.value}), successors.Keys - seen);
      Terminal(successors, successors[key.value], seen + {key.value})
    else key
  }

  lemma SmallerSet<T>(small: set<T>, large: set<T>)
    requires small < large
    ensures |small| < |large|
  {
    assert large == small + (large - small);
  }

  function TerminalOf(successors: Successors, key: string): Option<string>
    requires key in successors
  {
    Terminal(successors, successors[key], {})
  }

  method TerminalSuccessor(successors: Successors, start: Option<string>) returns (key: Option<string>)
    ensures key == Terminal(successors, start, {})
  {
    var seen: set<string> := {};
    key := start;
    while key.Some? && key.value in successors && key.value !in seen
      invariant Terminal(successors, key, seen) == Terminal(successors, start, {})
      decreases |successors.Keys - seen|
    {
      SmallerSet(successors.Keys - (seen + {key.value}), successors.Keys - seen);
      seen := seen + {key.value};
      key := successors[key.value];
    }
  }

  /** A set of retired keys that lead only to one another. */
  predicate Closed(successors: Successors, ring: set<string>) {
    forall k :: k in ring ==> k in successors && successors[k].Some? && successors[k].value in ring
  }

  /** A walk that ends on a key being retired has gone round a ring. */
  lemma {:induction false} WalkedRound(successors: Successors, key: string, seen: set<string>)
    returns (ring: set<string>)
    requires forall k :: k in seen ==>
               k in successors && successors[k].Some? && (successors[k].value in seen || successors[k].value == key)
    requires Terminal(successors, Some(key), seen).Some? && Terminal(successors, Some(key), seen).value in successors
    ensures Closed(successors, ring) && key in ring && seen <= ring
    decreases |successors.Keys - seen|
  {
    if key in successors && key !in seen {
      SmallerSet(successors.Keys - (seen + {key}), successors.Keys - seen);
      ring := WalkedRound(successors, successors[key].value, seen + {key});
    } else {
      ring := seen;
    }
  }

  lemma {:induction false} RingsNeverEnd(successors: Successors, ring: set<string>, key: string, seen: set<string>)
    requires Closed(successors, ring) && key in ring
    ensures Terminal(successors, Some(key), seen).Some? && Terminal(successors, Some(key), seen).value in ring
    decreases |successors.Keys - seen|
  {
    if key !in seen {
      SmallerSet(successors.Keys - (seen + {key}), successors.Keys - seen);
      RingsNeverEnd(successors, ring, successors[key].value, seen + {key});
    }
  }

  /** A key whose walk ends on a key being retired: so does every such end's own walk. */
  lemma RoundAndRound(successors: Successors, key: string)
    requires key in successors && TerminalOf(successors, key).Some? && TerminalOf(successors, key).value in successors
    ensures var next := TerminalOf(successors, key).value;
      TerminalOf(successors, next).Some? && TerminalOf(successors, next).value in successors
  {
    var ring := WalkedRound(successors, successors[key].value, {});
    RingsNeverEnd(successors, ring, successors[key].value, {});
    var next := TerminalOf(successors, key).value;
    RingsNeverEnd(successors, ring, successors[next].value, {});
  }

  // ---------- the write ----------

  /** One category retired: whatever led to it, and the category itself, now leads to its terminal successor. */
  function RetireOne(rows: Rows, key: string, terminal: Option<string>): Rows {
    map k | k in rows :: if k == key then CategoryRow(true, terminal)
                         else if rows[k].successor == Some(key) then rows[k].(successor := terminal) else rows[k]
  }

  function RetireAll(rows: Rows, successors: Successors, order: seq<string>): Rows
    requires forall k :: k in order ==> k in successors
  {
    if order == [] then rows
    else
      var key := order[|order| - 1];
      var before := RetireAll(rows, successors, order[..|order| - 1]);
      if key in rows then RetireOne(before, key, TerminalOf(successors, key)) else before
  }

  /** No category being retired ends on a key that has no row; subscripting one would raise. */
  predicate EndsKnown(rows: Rows, successors: Successors) {
    forall k ::
      k in successors && k in rows && TerminalOf(successors, k).Some? ==> TerminalOf(successors, k).value in rows
  }

  class CategoryTable {
    var rows: Rows

    constructor (rows: Rows)
      ensures this.rows == rows
    {
      this.rows := rows;
    }

    /** Retire every category of the mapping; `order` is the mapping's own iteration order. */
    method RetireCategories(successors: Successors, order: seq<string>) returns (ok: bool)
      requires forall k :: k in order <==> k in successors
      modifies this
      ensures ok <==> EndsKnown(old(rows), successors)
      ensures ok ==> rows == RetireAll(old(rows), successors, order)
    {
      for n := 0 to |order|
        invariant rows == RetireAll(old(rows), successors, order[..n]) && rows.Keys == old(rows).Keys
        invariant forall m :: 0 <= m < n && order[m] in rows ==> !LeadsNowhere(rows, successors, order[m])
      {
        var key := order[n];
        assert order[..n + 1][..n] == order[..n] && order[..n + 1][n] == key;
        if key in rows {
          var terminal := TerminalSuccessor(successors, successors[key]);
          if terminal.Some? && terminal.value !in rows {
            return false;
          }
          rows := RetireOne(rows, key, terminal);
        }
      }
      assert order[..|order|] == order;
      forall k | k in successors && k in rows ensures !LeadsNowhere(rows, successors, k) {
        assert k in order;
      }
      ok := true;
    }
  }

  predicate LeadsNowhere(rows: Rows, successors: Successors, key: string)
    requires key in successors
  {
    TerminalOf(successors, key).Some? && TerminalOf(successors, key).value !in rows
  }

  // ---------- one hop is enough ----------

  /** Every tombstone names a live category or nothing. */
  predicate OneHop(rows: Rows) {
    forall k :: k in rows && rows[k].retired && rows[k].successor.Some? ==>
      rows[k].successor.value in rows && !rows[rows[k].successor.value].retired
  }

  /** A live category has no successor. */
  predicate LiveStandAlone(rows: Rows) {
    forall k :: k in rows && !rows[k].retired ==> rows[k].successor.None?
  }

  /** What a stored category resolves to, reading one hop. */
  function Resolved(rows: Rows, key: string): Option<string>
    requires key in rows
  {
    if rows[key].retired then rows[key].successor else Some(key)
  }

  /** A category being retired leads, in the end, to nothing or to a live category that stays. */
  predicate EndsWell(rows: Rows, successors: Successors, key: string)
    requires key in successors
  {
    var end := TerminalOf(successors, key);
    end.Some? ==> end.value in rows && !rows[end.value].retired && end.value !in successors
  }

  /** What a resolution becomes once the mapping has been applied. */
  function Redirected(rows: Rows, successors: Successors, end: Option<string>): Option<string> {
    if end.Some? && end.value in successors && end.value in rows then TerminalOf(successors, end.value) else end
  }

  /** The rows part-way: which keys are retired, and where each leads. */
  lemma {:induction false} RetiredSoFar(rows: Rows, successors: Successors, order: seq<string>, k: string)
    requires LiveStandAlone(rows) && k in rows && forall x :: x in order ==> x in successors
    requires forall x :: x in successors && x in rows ==> EndsWell(rows, successors, x)
    ensures var after := RetireAll(rows, successors, order);
      && after.Keys == rows.Keys
      && after[k].retired == (rows[k].retired || k in order)
      && after[k].successor ==
           (if k in order then TerminalOf(successors, k)
            else if rows[k].successor.Some? && rows[k].successor.value in order && rows[k].successor.value in rows
            then TerminalOf(successors, rows[k].successor.value) else rows[k].successor)
  {
    if order != [] {
      var n := |order| - 1;
      RetiredSoFar(rows, successors, order[..n], k);
      assert order == order[..n] + [order[n]];
      assert forall x :: x in order <==> x in order[..n] || x == order[n];
    }
  }

  /**
   * Where every mapped category ends well, retiring keeps redirects one hop long, and what any stored category resolves
   * to is what it resolved to before, carried on to the end of the mapping. Neither depends on the mapping's order.
   */
  lemma RetiringKeepsOneHop(rows: Rows, successors: Successors, order: seq<string>)
    requires OneHop(rows) && LiveStandAlone(rows)
    requires forall x :: x in order <==> x in successors
    requires forall x :: x in successors && x in rows ==> EndsWell(rows, successors, x)
    requires forall x :: x in successors && x in rows ==> !rows[x].retired
    ensures var after := RetireAll(rows, successors, order);
      && OneHop(after) && LiveStandAlone(after) && after.Keys == rows.Keys
      && forall k :: k in rows ==> Resolved(after, k) == Redirected(rows, successors, Resolved(rows, k))
  {
    var after := RetireAll(rows, successors, order);
    RetiredKeys(rows, successors, order);
    forall k | k in rows
      ensures Resolved(after, k) == Redirected(rows, successors, Resolved(rows, k))
      ensures !after[k].retired ==> after[k].successor.None?
      ensures after[k].retired && after[k].successor.Some? ==>
                after[k].successor.value in after && !after[after[k].successor.value].retired
    {
      RetiredSoFar(rows, successors, order, k);
      if after[k].successor.Some? && after[k].successor.value in rows {
        RetiredSoFar(rows, successors, order, after[k].successor.value);
      }
    }
  }

  lemma {:induction false} RetiredKeys(rows: Rows, successors: Successors, order: seq<string>)
    requires forall x :: x in order ==> x in successors
    ensures RetireAll(rows, successors, order).Keys == rows.Keys
  {
    if order != [] {
      RetiredKeys(rows, successors, order[..|order| - 1]);
    }
  }

  // ---------- exactly when it fails ----------

  /** A tombstone for a key in a ring stays on keys being retired, however the writes are ordered. */
  lemma {:induction false} RetiredInOrder(rows: Rows, successors: Successors, order: seq<string>, k: string)
    requires k in rows && k in order && forall x :: x in order ==> x in successors
    ensures var after := RetireAll(rows, successors, order);
      && after.Keys == rows.Keys && after[k].retired
      && (EndsInside(successors, k) ==> after[k].successor.Some? && after[k].successor.value in successors)
      && (!EndsInside(successors, k) ==> after[k].successor == TerminalOf(successors, k))
  {
    var n := |order| - 1;
    var before := RetireAll(rows, successors, order[..n]);
    RetiredKeys(rows, successors, order[..n]);
    assert order == order[..n] + [order[n]];
    if k in order[..n] {
      RetiredInOrder(rows, successors, order[..n], k);
      if before[k].successor.Some? && before[k].successor.value in successors && EndsInside(successors, k) {
        AllInside(rows, successors, order[..n], k);
      }
    }
  }

  /** The mapping leads this key back to a key being retired. */
  predicate EndsInside(successors: Successors, key: string)
    requires key in successors
  {
    TerminalOf(successors, key).Some? && TerminalOf(successors, key).value in successors
  }

  lemma {:induction false} AllInside(rows: Rows, successors: Successors, order: seq<string>, k: string)
    requires k in rows && k in order && (forall x :: x in order ==> x in successors) && EndsInside(successors, k)
    ensures k in RetireAll(rows, successors, order)
    ensures var end := RetireAll(rows, successors, order)[k].successor;
      end.Some? && end.value in successors && EndsInside(successors, end.value)
  {
    var n := |order| - 1;
    RetiredKeys(rows, successors, order);
    RetiredKeys(rows, successors, order[..n]);
    assert order == order[..n] + [order[n]];
    RoundAndRound(successors, k);
    if k in order[..n] {
      AllInside(rows, successors, order[..n], k);
      RoundAndRound(successors, RetireAll(rows, successors, order[..n])[k].successor.value);
    }
  }

  /**
   * Redirects stay one hop long if and only if no mapped category leads back into the mapping and none ends on a
   * category already retired or unknown. A ring of merges does lead back, whatever its order: the claim that a
   * tombstone can never name another tombstone fails exactly there.
   */
  lemma OneHopExactly(rows: Rows, successors: Successors, order: seq<string>)
    requires OneHop(rows) && LiveStandAlone(rows)
    requires forall x :: x in order <==> x in successors
    requires forall x :: x in successors && x in rows ==> !rows[x].retired
    requires EndsKnown(rows, successors)
    ensures OneHop(RetireAll(rows, successors, order))
            <==> forall x :: x in successors && x in rows ==> EndsWell(rows, successors, x)
  {
    var after := RetireAll(rows, successors, order);
    RetiredKeys(rows, successors, order);
    if forall x :: x in successors && x in rows ==> EndsWell(rows, successors, x) {
      RetiringKeepsOneHop(rows, successors, order);
    }
    if OneHop(after) {
      forall x | x in successors && x in rows ensures EndsWell(rows, successors, x) {
        BadEndShows(rows, successors, order, x);
      }
    }
  }

  lemma BadEndShows(rows: Rows, successors: Successors, order: seq<string>, x: string)
    requires forall k :: k in order <==> k in successors
    requires x in successors && x in rows && EndsKnown(rows, successors)
    ensures OneHop(RetireAll(rows, successors, order)) ==> EndsWell(rows, successors, x)
  {
    var after := RetireAll(rows, successors, order);
    RetiredInOrder(rows, successors, order, x);
    var end := after[x].successor;
    if end.Some? && end.value in rows {
      if end.value in order {
        RetiredInOrder(rows, successors, order, end.value);
      }
      RetiredStayRetired(rows, successors, order, end.value);
    }
  }

  lemma {:induction false} RetiredStayRetired(rows: Rows, successors: Successors, order: seq<string>, k: string)
    requires k in rows && forall x :: x in order ==> x in successors
    ensures k in RetireAll(rows, successors, order)
    ensures rows[k].retired ==> RetireAll(rows, successors, order)[k].retired
  {
    RetiredKeys(rows, successors, order);
    if order != [] {
      RetiredStayRetired(rows, successors, order[..|order| - 1], k);
    }
  }

  // ---------- the mappings the application makes ----------

  /** A merge's remapping as successors. */
  function AsSuccessors(remap: map<string, string>): Successors {
    map k | k in remap :: Some(remap[k])
  }

  /** A category merge never makes a ring: every id it merges away ends on a live category it keeps. */
  lemma MergesEndWell(rows: Rows, tree: Tree, id: string, newName: string, target: string, fold: string -> string,
                      byName: map<string, string>)
    requires MergeSetting(tree, id, newName, target, fold, byName)
    requires forall k :: k in Merged(tree, id, target, fold, byName).tree ==> k in rows && !rows[k].retired
    ensures var successors := AsSuccessors(Merged(tree, id, target, fold, byName).remap);
      forall x :: x in successors ==> EndsWell(rows, successors, x)
  {
    var plan := Merged(tree, id, target, fold, byName);
    MergeKeepsTheTree(tree, id, newName, target, fold, byName);
    var successors := AsSuccessors(plan.remap);
    forall x | x in successors ensures EndsWell(rows, successors, x) {
      assert plan.remap[x] in plan.tree && plan.remap[x] !in successors;
    }
  }

  /** So a merge leaves every redirect one hop long, and moves each to where the merge sends it. */
  lemma MergesKeepOneHop(rows: Rows, tree: Tree, id: string, newName: string, target: string, fold: string -> string,
                         byName: map<string, string>, order: seq<string>)
    requires MergeSetting(tree, id, newName, target, fold, byName) && OneHop(rows) && LiveStandAlone(rows)
    requires var plan := Merged(tree, id, target, fold, byName);
      && (forall k :: k in plan.tree ==> k in rows && !rows[k].retired)
      && (forall k :: k in plan.remap && k in rows ==> !rows[k].retired)
      && (forall k :: k in order <==> k in plan.remap)
    ensures OneHop(RetireAll(rows, AsSuccessors(Merged(tree, id, target, fold, byName).remap), order))
  {
    var successors := AsSuccessors(Merged(tree, id, target, fold, byName).remap);
    MergesEndWell(rows, tree, id, newName, target, fold, byName);
    RetiringKeepsOneHop(rows, successors, order);
  }

  function Deleted(gone: set<string>): Successors {
    map k | k in gone :: None
  }

  /** A delete leaves every redirect one hop long; what led to a deleted category leads to nothing. */
  lemma DeletesKeepOneHop(rows: Rows, gone: set<string>, order: seq<string>)
    requires OneHop(rows) && LiveStandAlone(rows)
    requires gone <= rows.Keys && (forall k :: k in order <==> k in gone) && forall k :: k in gone ==> !rows[k].retired
    ensures var after := RetireAll(rows, Deleted(gone), order);
      && OneHop(after) && after.Keys == rows.Keys
      && forall k :: k in rows ==>
           var end := Resolved(rows, k);
           Resolved(after, k) == if end.Some? && end.value in gone then None else end
  {
    forall x | x in Deleted(gone) ensures EndsWell(rows, Deleted(gone), x) && TerminalOf(Deleted(gone), x) == None {
    }
    RetiringKeepsOneHop(rows, Deleted(gone), order);
  }

  /** Two categories retired into each other: one ends up a tombstone of itself. */
  lemma RingBreaksOneHop()
    ensures var rows: Rows := map["a" := CategoryRow(false, None), "b" := CategoryRow(false, None)];
      var successors: Successors := map["a" := Some("b"), "b" := Some("a")];
      && OneHop(rows) && LiveStandAlone(rows) && EndsKnown(rows, successors)
      && !OneHop(RetireAll(rows, successors, ["a", "b"]))
  {
    var rows: Rows := map["a" := CategoryRow(false, None), "b" := CategoryRow(false, None)];
    var successors: Successors := map["a" := Some("b"), "b" := Some("a")];
    var order := ["a", "b"];
    RingsNeverEnd(successors, {"a", "b"}, "a", {});
    RingsNeverEnd(successors, {"a", "b"}, "b", {});
    OneHopExactly(rows, successors, order);
    assert "a" in successors && "a" in rows && !EndsWell(rows, successors, "a");
  }
}
