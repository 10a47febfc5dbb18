/**
 * Repointing or clearing what names a category after a merge or a delete (accounting/taxonomy.py,
 * api/routers/categories.py).
 */
module CategoryReferences {
  import opened Frame
  import opened Taxonomy
  import opened CategoryEdits

  // ---------- renames that merge nothing, and the catch-all ----------

  /** Two trees that differ in names only. */
  predicate SameShape(a: Tree, b: Tree) {
    a.Keys == b.Keys
      && forall id :: id in a ==> a[id].parent == b[id].parent && a[id].classification == b[id].classification
  }

  lemma SameShapeSameReal(a: Tree, b: Tree, p: string)
    requires SameShape(a, b) && HasReal(a, p)
    ensures HasReal(b, p)
  {
    var c :| c in a && a[c].parent == Some(p) && !IsOther(c);
    assert b[c].parent == Some(p);
  }

  lemma SameShapeIsNormal(a: Tree, b: Tree)
    requires SameShape(a, b) && SameShape(b, a) && NormalTree(a)
    ensures NormalTree(b)
  {
    forall p | p in b && b[p].parent.None? ensures OtherOf(p) in b <==> HasReal(b, p) {
      if HasReal(a, p) {
        SameShapeSameReal(a, b, p);
      }
      if HasReal(b, p) {
        SameShapeSameReal(b, a, p);
      }
    }
  }

  /** Renaming where there is nothing to merge into changes one name: a normal tree stays normal with the same ids. */
  lemma PlainRenameKeepsTheTree(tree: Tree, id: string, newName: string)
    requires NormalTree(tree) && id in tree
    ensures Renamed(tree, id, newName).tree == tree[id := tree[id].(name := newName)]
    ensures NormalTree(Renamed(tree, id, newName).tree)
    ensures SameShape(tree, Renamed(tree, id, newName).tree)
  {
    var renamed := tree[id := tree[id].(name := newName)];
    SameShapeIsNormal(tree, renamed);
    NormalTreesAreFixed(renamed);
  }

  /**
   * Merging removes the merged category from the tree exactly when it is not a catch-all, which is at once re-created.
   */
  lemma MergedIdLeavesUnlessCatchAll(tree: Tree, id: string, newName: string, target: string, fold: string -> string,
                                     byName: map<string, string>)
    requires NormalTree(tree) && id in tree && IsMergeTarget(tree, id, newName, fold, target)
    requires tree[id].parent.None? ==> NamesChildren(tree, target, fold, byName)
    ensures id !in Merged(tree, id, target, fold, byName).tree <==> !IsOther(id)
  {
    if IsOther(id) {
      var p := Stem(id);
      var folded := Folded(tree, id, target, fold, byName, {});
      assert folded == tree - {id};
      assert folded[target].parent == Some(p);
      assert HasReal(folded, p);
      assert tree[p].parent.None? && !IsOther(p);
      NormalizedOther(folded, p);
      assert OtherOf(p) == id;
    } else {
      MergeKeepsTheTree(tree, id, newName, target, fold, byName);
      assert id in Merged(tree, id, target, fold, byName).remap;
    }
  }

  // ---------- budgets ----------

  /** A spending target; its id is its key. */
  datatype Budget = Budget(month: Option<string>, category: string, subcategory: Option<string>, amount: int)

  datatype BudgetKey = BudgetKey(month: Option<string>, category: string, subcategory: Option<string>)

  function KeyOf(budget: Budget): BudgetKey {
    BudgetKey(budget.month, budget.category, budget.subcategory)
  }

  predicate UniqueKeys(budgets: seq<Budget>) {
    forall i, j :: 0 <= i < j < |budgets| ==> KeyOf(budgets[i]) != KeyOf(budgets[j])
  }

  function Select(budgets: seq<Budget>, keep: Budget -> bool): seq<Budget> {
    if budgets == [] then []
    else (if keep(budgets[0]) then [budgets[0]] else []) + Select(budgets[1..], keep)
  }

  lemma {:induction false} SelectMembers(budgets: seq<Budget>, keep: Budget -> bool)
    ensures forall b :: b in Select(budgets, keep) <==> b in budgets && keep(b)
  {
    if budgets != [] {
      SelectMembers(budgets[1..], keep);
      assert budgets == [budgets[0]] + budgets[1..];
    }
  }

  lemma {:induction false} SelectUnique(budgets: seq<Budget>, keep: Budget -> bool)
    requires UniqueKeys(budgets)
    ensures UniqueKeys(Select(budgets, keep))
  {
    if budgets != [] {
      var rest := budgets[1..];
      SelectUnique(rest, keep);
      SelectMembers(rest, keep);
      var kept := Select(rest, keep);
      forall j | 0 <= j < |kept| ensures KeyOf(kept[j]) != KeyOf(budgets[0]) {
        assert kept[j] in rest;
        var i :| 0 <= i < |rest| && rest[i] == kept[j];
        assert budgets[i + 1] == kept[j];
      }
    }
  }

  /** The stable sort by "is touched": the untouched first. */
  function UntouchedFirst(budgets: seq<Budget>, touched: Budget -> bool): seq<Budget> {
    Select(budgets, b => !touched(b)) + Select(budgets, touched)
  }

  predicate HasBudget(budgets: seq<Budget>, key: BudgetKey) {
    exists i :: 0 <= i < |budgets| && KeyOf(budgets[i]) == key
  }

  /** What the arbitration leaves of some budgets: each key once, held by the first that claims it. */
  ghost predicate Arbitrated(sorted: seq<Budget>, change: Budget -> Budget, drop: Budget -> bool, out: seq<Budget>) {
    && UniqueKeys(out)
    && (forall b ::
        b in out ==> exists i :: 0 <= i < |sorted| && FirstClaim(sorted, change, drop, i) && change(sorted[i]) == b)
    && (forall i :: 0 <= i < |sorted| && !drop(sorted[i]) ==> HasBudget(out, KeyOf(change(sorted[i]))))
    && (forall i :: 0 <= i < |sorted| && FirstClaim(sorted, change, drop, i) ==> change(sorted[i]) in out)
  }

  predicate FirstClaim(sorted: seq<Budget>, change: Budget -> Budget, drop: Budget -> bool, i: nat)
    requires i < |sorted|
  {
    && !drop(sorted[i])
    && forall j :: 0 <= j < i && !drop(sorted[j]) ==> KeyOf(change(sorted[j])) != KeyOf(change(sorted[i]))
  }

  lemma ArbitratedSnoc(sorted: seq<Budget>, b: Budget, change: Budget -> Budget, drop: Budget -> bool, out: seq<Budget>)
    requires Arbitrated(sorted, change, drop, out)
    ensures drop(b) || HasBudget(out, KeyOf(change(b))) ==> Arbitrated(sorted + [b], change, drop, out)
    ensures !drop(b) && !HasBudget(out, KeyOf(change(b))) ==> Arbitrated(sorted + [b], change, drop, out + [change(b)])
  {
    var more := sorted + [b];
    var next := if drop(b) || HasBudget(out, KeyOf(change(b))) then out else out + [change(b)];
    forall i | 0 <= i < |sorted| ensures FirstClaim(more, change, drop, i) <==> FirstClaim(sorted, change, drop, i) {
      assert forall j :: 0 <= j <= i ==> more[j] == sorted[j];
    }
    forall key | HasBudget(out, key) ensures HasBudget(next, key) {
      var i :| 0 <= i < |out| && KeyOf(out[i]) == key;
      assert KeyOf(next[i]) == key;
    }
    ClaimsSnoc(sorted, b, change, drop, out);
    forall x | x in next
      ensures exists i :: 0 <= i < |more| && FirstClaim(more, change, drop, i) && change(more[i]) == x
    {
      if x in out {
        var i :| 0 <= i < |sorted| && FirstClaim(sorted, change, drop, i) && change(sorted[i]) == x;
        assert FirstClaim(more, change, drop, i) && change(more[i]) == x;
      } else {
        assert FirstClaim(more, change, drop, |sorted|) && change(more[|sorted|]) == x;
      }
    }
    if !drop(b) && !HasBudget(out, KeyOf(change(b))) {
      assert next[|out|] == change(b);
    }
  }

  lemma ClaimsSnoc(sorted: seq<Budget>, b: Budget, change: Budget -> Budget, drop: Budget -> bool, out: seq<Budget>)
    requires Arbitrated(sorted, change, drop, out)
    ensures FirstClaim(sorted + [b], change, drop, |sorted|) <==> !drop(b) && !HasBudget(out, KeyOf(change(b)))
  {
    var more := sorted + [b];
    assert forall j :: 0 <= j < |sorted| ==> more[j] == sorted[j];
    if !drop(b) {
      if HasBudget(out, KeyOf(change(b))) {
        var k :| 0 <= k < |out| && KeyOf(out[k]) == KeyOf(change(b));
        assert out[k] in out;
        var i :| 0 <= i < |sorted| && FirstClaim(sorted, change, drop, i) && change(sorted[i]) == out[k];
        assert !drop(more[i]) && KeyOf(change(more[i])) == KeyOf(change(more[|sorted|]));
      }
      if !FirstClaim(more, change, drop, |sorted|) {
        var j :| 0 <= j < |sorted| && !drop(more[j]) && KeyOf(change(more[j])) == KeyOf(change(b));
        assert HasBudget(out, KeyOf(change(sorted[j])));
      }
    }
  }

  /** Change every budget, the untouched ones claiming their keys first; a later claim of a taken key is skipped. */
  method ArbitrateBudgets(budgets: seq<Budget>, touched: Budget -> bool, drop: Budget -> bool, change: Budget -> Budget)
    returns (out: seq<Budget>)
    ensures Arbitrated(UntouchedFirst(budgets, touched), change, drop, out)
  {
    var sorted := UntouchedFirst(budgets, touched);
    out := [];
    var taken: set<BudgetKey> := {};
    for i := 0 to |sorted|
      invariant Arbitrated(sorted[..i], change, drop, out)
      invariant forall key :: key in taken <==> HasBudget(out, key)
    {
      assert sorted[..i + 1] == sorted[..i] + [sorted[i]];
      ArbitratedSnoc(sorted[..i], sorted[i], change, drop, out);
      if !drop(sorted[i]) && KeyOf(change(sorted[i])) !in taken {
        forall key
          ensures HasBudget(out + [change(sorted[i])], key) <==> HasBudget(out, key) || key == KeyOf(change(sorted[i]))
        {
          HasBudgetSnoc(out, change(sorted[i]), key);
        }
        out := out + [change(sorted[i])];
        taken := taken + {KeyOf(change(sorted[i]))};
      }
    }
    assert sorted[..|sorted|] == sorted;
  }

  lemma HasBudgetSnoc(out: seq<Budget>, b: Budget, key: BudgetKey)
    ensures HasBudget(out + [b], key) <==> HasBudget(out, key) || key == KeyOf(b)
  {
    var more := out + [b];
    if HasBudget(out, key) {
      var i :| 0 <= i < |out| && KeyOf(out[i]) == key;
      assert KeyOf(more[i]) == key;
    }
    assert more[|out|] == b;
  }

  /** An untouched budget comes first and keeps its own key, so nothing can displace it. */
  lemma UntouchedClaimsItsKey(budgets: seq<Budget>, touched: Budget -> bool, drop: Budget -> bool,
                              change: Budget -> Budget, out: seq<Budget>, b: Budget)
    requires UniqueKeys(budgets) && b in budgets && !touched(b) && !drop(b)
    requires forall x :: x in budgets && !touched(x) ==> change(x) == x
    requires Arbitrated(UntouchedFirst(budgets, touched), change, drop, out)
    ensures b in out
  {
    var sorted := UntouchedFirst(budgets, touched);
    var front := Select(budgets, x => !touched(x));
    SelectMembers(budgets, x => !touched(x));
    SelectUnique(budgets, x => !touched(x));
    assert b in front;
    var i :| 0 <= i < |front| && front[i] == b;
    forall j | 0 <= j < i ensures KeyOf(change(sorted[j])) != KeyOf(change(sorted[i])) {
      assert front[j] in front && sorted[j] == front[j];
    }
    assert FirstClaim(sorted, change, drop, i);
  }

  lemma SortedMembers(budgets: seq<Budget>, touched: Budget -> bool)
    ensures forall b :: b in UntouchedFirst(budgets, touched) <==> b in budgets
  {
    SelectMembers(budgets, b => !touched(b));
    SelectMembers(budgets, touched);
  }

  /** Where a budget that is left came from. */
  lemma BudgetOrigin(budgets: seq<Budget>, touched: Budget -> bool, drop: Budget -> bool, change: Budget -> Budget,
                     out: seq<Budget>, b: Budget) returns (origin: Budget)
    requires Arbitrated(UntouchedFirst(budgets, touched), change, drop, out) && b in out
    ensures origin in budgets && !drop(origin) && change(origin) == b
  {
    var sorted := UntouchedFirst(budgets, touched);
    var i :| 0 <= i < |sorted| && FirstClaim(sorted, change, drop, i) && change(sorted[i]) == b;
    origin := sorted[i];
    assert origin in sorted;
    SortedMembers(budgets, touched);
  }

  lemma KeySurvives(budgets: seq<Budget>, touched: Budget -> bool, drop: Budget -> bool, change: Budget -> Budget,
                    out: seq<Budget>, b: Budget)
    requires Arbitrated(UntouchedFirst(budgets, touched), change, drop, out) && b in budgets && !drop(b)
    ensures HasBudget(out, KeyOf(change(b)))
  {
    var sorted := UntouchedFirst(budgets, touched);
    SortedMembers(budgets, touched);
    var i :| 0 <= i < |sorted| && sorted[i] == b;
  }

  /** Arbitration in one line: unique keys, nothing invented, the untouched survive, and no key is lost. */
  ghost predicate Repointed(budgets: seq<Budget>, touched: Budget -> bool, drop: Budget -> bool,
                            change: Budget -> Budget, out: seq<Budget>) {
    && UniqueKeys(out)
    && (forall b :: b in out ==> exists origin :: origin in budgets && !drop(origin) && change(origin) == b)
    && (forall b :: b in budgets && !touched(b) && !drop(b) ==> b in out)
    && (forall b :: b in budgets && !drop(b) ==> HasBudget(out, KeyOf(change(b))))
  }

  lemma ArbitrationRepoints(budgets: seq<Budget>, touched: Budget -> bool, drop: Budget -> bool,
                            change: Budget -> Budget, out: seq<Budget>)
    requires UniqueKeys(budgets) && Arbitrated(UntouchedFirst(budgets, touched), change, drop, out)
    requires forall x :: x in budgets && !touched(x) ==> change(x) == x
    ensures Repointed(budgets, touched, drop, change, out)
  {
    forall b | b in out ensures exists origin :: origin in budgets && !drop(origin) && change(origin) == b {
      var origin := BudgetOrigin(budgets, touched, drop, change, out, b);
    }
    forall b | b in budgets && !touched(b) && !drop(b) ensures b in out {
      UntouchedClaimsItsKey(budgets, touched, drop, change, out, b);
    }
    forall b | b in budgets && !drop(b) ensures HasBudget(out, KeyOf(change(b))) {
      KeySurvives(budgets, touched, drop, change, out, b);
    }
  }

  function Never(): Budget -> bool {
    (b: Budget) => false
  }

  // ---------- after a merge ----------

  function RemappedBudget(remap: map<string, string>): Budget -> Budget {
    (b: Budget) => b.(category := Remapped(remap, b.category), subcategory := RemappedOption(remap, b.subcategory))
  }

  function WasRemapped(remap: map<string, string>): Budget -> bool {
    (b: Budget) => b.category in remap || (b.subcategory.Some? && b.subcategory.value in remap)
  }

  /** The new name of a category or subcategory is the one the remap gives it, or the one it had. */
  ghost predicate NameFollows(remap: map<string, string>, old_: string, new_: string) {
    (old_ in remap ==> new_ == remap[old_]) && (old_ !in remap ==> new_ == old_)
  }

  /** The same amount for the same month, under the new names. */
  ghost predicate BudgetFollows(remap: map<string, string>, origin: Budget, b: Budget) {
    && b.month == origin.month && b.amount == origin.amount && NameFollows(remap, origin.category, b.category)
    && (b.subcategory.Some? <==> origin.subcategory.Some?)
    && (b.subcategory.Some? ==> NameFollows(remap, origin.subcategory.value, b.subcategory.value))
  }

  /** Repoint every budget after a merge; the survivor's own entry wins a collision. */
  method RemapBudgets(budgets: seq<Budget>, remap: map<string, string>) returns (out: seq<Budget>)
    requires UniqueKeys(budgets)
    ensures Repointed(budgets, WasRemapped(remap), Never(), RemappedBudget(remap), out)
    ensures forall b :: b in out ==> exists origin :: origin in budgets && BudgetFollows(remap, origin, b)
  {
    out := ArbitrateBudgets(budgets, WasRemapped(remap), Never(), RemappedBudget(remap));
    ArbitrationRepoints(budgets, WasRemapped(remap), Never(), RemappedBudget(remap), out);
    forall b | b in out ensures exists origin :: origin in budgets && BudgetFollows(remap, origin, b) {
      var origin :| origin in budgets && RemappedBudget(remap)(origin) == b;
      assert BudgetFollows(remap, origin, b);
    }
  }

  /** After a merge the budgets name only live, coherent categories. */
  lemma MergedBudgets(budgets: seq<Budget>, out: seq<Budget>, tree: Tree, id: string, newName: string, target: string,
                      fold: string -> string, byName: map<string, string>)
    requires MergeSetting(tree, id, newName, target, fold, byName)
    requires forall b :: b in budgets ==> Coherent(tree, Some(b.category), b.subcategory)
    requires var remap := Merged(tree, id, target, fold, byName).remap;
      Repointed(budgets, WasRemapped(remap), Never(), RemappedBudget(remap), out)
    ensures forall b ::
      b in out ==> Coherent(Merged(tree, id, target, fold, byName).tree, Some(b.category), b.subcategory)
  {
    var plan := Merged(tree, id, target, fold, byName);
    forall b | b in out ensures Coherent(plan.tree, Some(b.category), b.subcategory) {
      var origin :| origin in budgets && RemappedBudget(plan.remap)(origin) == b;
      MergeKeepsReferences(tree, id, newName, target, fold, byName, Some(origin.category), origin.subcategory);
    }
  }

  // ---------- deleting ----------

  /** What a delete names: the category, and every subcategory of a top-level one. */
  function CategoryIdsToDelete(tree: Tree, id: string): set<string>
    requires id in tree
  {
    if tree[id].parent.Some? then {id} else {id} + ChildrenOf(tree, id)
  }

  /** The tree that survives a delete; a catch-all left alone goes with it. */
  function Remaining(tree: Tree, id: string): Tree
    requires id in tree
  {
    Normalized(tree - CategoryIdsToDelete(tree, id))
  }

  function Leaving(tree: Tree, id: string): set<string>
    requires id in tree
  {
    tree.Keys - Remaining(tree, id).Keys
  }

  function Cleared(ids: set<string>, id: Option<string>): Option<string> {
    if id.Some? && id.value in ids then None else id
  }

  lemma DeletedIsTwoLevel(tree: Tree, id: string)
    requires NormalTree(tree) && id in tree
    ensures TwoLevel(tree - CategoryIdsToDelete(tree, id)) && OtherShape(tree - CategoryIdsToDelete(tree, id))
  {
    var named := CategoryIdsToDelete(tree, id);
    forall c | c in tree && c !in named && tree[c].parent.Some? ensures tree[c].parent.value !in named {
      if tree[id].parent.None? {
        assert c !in ChildrenOf(tree, id);
      }
    }
  }

  /** Nothing is added by a delete: a parent whose catch-all is wanted had it before. */
  lemma DeleteAddsNothing(tree: Tree, id: string, c: string)
    requires NormalTree(tree) && id in tree && c in Remaining(tree, id)
    ensures (c in tree && c !in CategoryIdsToDelete(tree, id) && Remaining(tree, id)[c] == tree[c])
      || (c == id && IsOther(id))
  {
    var rest := tree - CategoryIdsToDelete(tree, id);
    if IsOther(c) {
      DeletedIsTwoLevel(tree, id);
      OtherBelongs(rest, c);
      NormalizedOther(rest, Stem(c));
      var kid :| kid in rest && rest[kid].parent == Some(Stem(c)) && !IsOther(kid);
      assert tree[kid].parent == Some(Stem(c));
      assert HasReal(tree, Stem(c));
      assert c in tree && tree[c].parent == Some(Stem(c));
    } else {
      NormalizedKeepsReal(rest, c);
    }
  }

  /**
   * Of the real categories a delete takes just the one deleted and its subcategories, and leaves the rest as they were.
   */
  lemma DeleteTakesExactly(tree: Tree, id: string, c: string)
    requires NormalTree(tree) && id in tree && !IsOther(c)
    ensures c in Remaining(tree, id) <==> c in tree && c != id && tree[c].parent != Some(id)
    ensures c in Remaining(tree, id) ==> Remaining(tree, id)[c] == tree[c]
  {
    NormalizedKeepsReal(tree - CategoryIdsToDelete(tree, id), c);
  }

  /** A delete leaves a normal tree, and takes with the named ids at most one lone catch-all. */
  lemma DeleteKeepsTheTree(tree: Tree, id: string)
    requires NormalTree(tree) && id in tree
    ensures NormalTree(Remaining(tree, id))
    ensures Remaining(tree, id).Keys <= tree.Keys
    ensures !IsOther(id) ==> CategoryIdsToDelete(tree, id) <= Leaving(tree, id)
    ensures forall c :: c in Leaving(tree, id) && c !in CategoryIdsToDelete(tree, id) ==>
              tree[id].parent.Some? && c == OtherOf(tree[id].parent.value)
  {
    var rest := tree - CategoryIdsToDelete(tree, id);
    DeletedIsTwoLevel(tree, id);
    NormalizedIsNormal(rest);
    forall c | c in Remaining(tree, id) ensures c in tree && (!IsOther(id) ==> c !in CategoryIdsToDelete(tree, id)) {
      DeleteAddsNothing(tree, id, c);
    }
    forall c | c in Leaving(tree, id) && c !in CategoryIdsToDelete(tree, id)
      ensures tree[id].parent.Some? && c == OtherOf(tree[id].parent.value)
    {
      LeavingUnnamed(tree, id, c);
    }
  }

  lemma RealChildShows(tree: Tree, kid: string, p: string)
    ensures kid in tree && tree[kid].parent == Some(p) && !IsOther(kid) ==> HasReal(tree, p)
  {
  }

  /** Only the catch-all beside the last real subcategory leaves without being named. */
  lemma LeavingUnnamed(tree: Tree, id: string, c: string)
    requires NormalTree(tree) && id in tree && c in Leaving(tree, id) && c !in CategoryIdsToDelete(tree, id)
    ensures tree[id].parent.Some? && c == OtherOf(tree[id].parent.value)
  {
    var rest := tree - CategoryIdsToDelete(tree, id);
    if !IsOther(c) {
      NormalizedKeepsReal(rest, c);
    }
    assert IsOther(c) && tree[c].parent == Some(Stem(c));
    var p := Stem(c);
    DeletedIsTwoLevel(tree, id);
    assert p in rest && rest[p].parent.None?;
    NormalizedOther(rest, p);
    assert OtherOf(p) == c && HasReal(tree, p);
    var kid :| kid in tree && tree[kid].parent == Some(p) && !IsOther(kid);
    RealChildShows(rest, kid, p);
  }

  /** Every coherent reference, cleared of what left the tree, is coherent in what remains. */
  lemma DeleteKeepsReferences(tree: Tree, id: string, category: Option<string>, subcategory: Option<string>)
    requires NormalTree(tree) && id in tree && Coherent(tree, category, subcategory)
    ensures var gone := Leaving(tree, id);
      Coherent(Remaining(tree, id), Cleared(gone, category), Cleared(gone, subcategory))
  {
    var gone, remaining := Leaving(tree, id), Remaining(tree, id);
    DeleteKeepsTheTree(tree, id);
    if category.Some? && category.value !in gone {
      SurvivorUnchanged(tree, id, category.value);
    }
    if subcategory.Some? && subcategory.value !in gone {
      SurvivorUnchanged(tree, id, subcategory.value);
      assert remaining[subcategory.value].parent == category;
    }
  }

  lemma SurvivorUnchanged(tree: Tree, id: string, c: string)
    requires NormalTree(tree) && id in tree && c in tree && c in Remaining(tree, id)
    ensures Remaining(tree, id)[c].parent == tree[c].parent
  {
    DeleteKeepsTheTree(tree, id);
    DeleteAddsNothing(tree, id, c);
    if IsOther(c) {
      assert tree[c].parent == Some(Stem(c)) && Remaining(tree, id)[c].parent == Some(Stem(c));
    }
  }

  function ClearedBudget(ids: set<string>): Budget -> Budget {
    (b: Budget) => b.(subcategory := Cleared(ids, b.subcategory))
  }

  function ClearsBudget(ids: set<string>): Budget -> bool {
    (b: Budget) => b.subcategory.Some? && b.subcategory.value in ids
  }

  function DropsBudget(ids: set<string>): Budget -> bool {
    (b: Budget) => b.category in ids
  }

  /** The same amount for the same month and category, its subcategory gone if that was deleted. */
  ghost predicate BudgetCleared(ids: set<string>, origin: Budget, b: Budget) {
    && origin.category !in ids
    && b.month == origin.month && b.amount == origin.amount && b.category == origin.category
    && (origin.subcategory.Some? && origin.subcategory.value in ids ==> b.subcategory == None)
    && (origin.subcategory.None? || origin.subcategory.value !in ids ==> b.subcategory == origin.subcategory)
  }

  /** Strip deleted categories from the budgets; one of a deleted category goes, a subcategory reference is cleared. */
  method UncategorizeBudgets(budgets: seq<Budget>, ids: set<string>) returns (out: seq<Budget>)
    requires UniqueKeys(budgets)
    ensures Repointed(budgets, ClearsBudget(ids), DropsBudget(ids), ClearedBudget(ids), out)
    ensures forall b :: b in out ==> exists origin :: origin in budgets && BudgetCleared(ids, origin, b)
  {
    out := ArbitrateBudgets(budgets, ClearsBudget(ids), DropsBudget(ids), ClearedBudget(ids));
    ArbitrationRepoints(budgets, ClearsBudget(ids), DropsBudget(ids), ClearedBudget(ids), out);
    forall b | b in out ensures exists origin :: origin in budgets && BudgetCleared(ids, origin, b) {
      var origin :| origin in budgets && !DropsBudget(ids)(origin) && ClearedBudget(ids)(origin) == b;
      assert BudgetCleared(ids, origin, b);
    }
  }

  /** After a delete the budgets name only categories that remain. */
  lemma BudgetsAfterDelete(budgets: seq<Budget>, out: seq<Budget>, tree: Tree, id: string)
    requires NormalTree(tree) && id in tree
    requires forall b :: b in budgets ==> Coherent(tree, Some(b.category), b.subcategory)
    requires var gone := Leaving(tree, id);
      Repointed(budgets, ClearsBudget(gone), DropsBudget(gone), ClearedBudget(gone), out)
    ensures forall b :: b in out ==> Coherent(Remaining(tree, id), Some(b.category), b.subcategory)
  {
    var gone := Leaving(tree, id);
    forall b | b in out ensures Coherent(Remaining(tree, id), Some(b.category), b.subcategory) {
      var origin :| origin in budgets && !DropsBudget(gone)(origin) && ClearedBudget(gone)(origin) == b;
      DeleteKeepsReferences(tree, id, Some(origin.category), origin.subcategory);
    }
  }
}
