/**
 * What a rename does with names: same-named categories become one, and no two siblings come to share a name
 * (accounting/taxonomy.py).
 */
module CategoryNames {
  import opened Frame
  import opened Taxonomy
  import opened CategoryEdits

  /** Two real categories side by side: under one parent, or at the top with one classification. */
  ghost predicate Siblings(tree: Tree, a: string, b: string) {
    && a in tree && b in tree && !IsOther(a) && !IsOther(b)
    && tree[a].parent == tree[b].parent
    && (tree[a].parent.None? ==> tree[a].classification == tree[b].classification)
  }

  /** No two siblings have one name, blanks around it and case aside. */
  ghost predicate NamesDiffer(tree: Tree, fold: string -> string) {
    forall a, b :: Siblings(tree, a, b) && a != b ==> fold(tree[a].name) != fold(tree[b].name)
  }

  ghost predicate TakenBy(tree: Tree, id: string, newName: string, fold: string -> string, other: string) {
    Siblings(tree, id, other) && other != id && fold(tree[other].name) == fold(newName)
  }

  lemma TakenIsTarget(tree: Tree, id: string, newName: string, fold: string -> string, other: string)
    requires NormalTree(tree) && id in tree && !IsOther(id)
    ensures IsMergeTarget(tree, id, newName, fold, other) <==> TakenBy(tree, id, newName, fold, other)
  {
  }

  /** A rename merges exactly when a sibling has the new name, into such a sibling; else it changes the name alone. */
  lemma MergesIffTaken(tree: Tree, id: string, newName: string, fold: string -> string, plan: Plan)
    requires NormalTree(tree) && id in tree && !IsOther(id) && IsPlan(tree, id, newName, fold, plan)
    ensures id in plan.remap <==> exists other :: TakenBy(tree, id, newName, fold, other)
    ensures id in plan.remap ==> id !in plan.tree && TakenBy(tree, id, newName, fold, plan.remap[id])
    ensures id !in plan.remap ==>
      plan.remap == map[] && id in plan.tree && plan.tree[id] == tree[id].(name := newName)
  {
    forall other ensures IsMergeTarget(tree, id, newName, fold, other) <==> TakenBy(tree, id, newName, fold, other) {
      TakenIsTarget(tree, id, newName, fold, other);
    }
    if forall c :: !IsMergeTarget(tree, id, newName, fold, c) {
      NormalizedKeepsReal(tree[id := tree[id].(name := newName)], id);
    } else {
      var target, byName :| MergesInto(tree, id, newName, fold, plan, target, byName);
      MergeKeepsTheTree(tree, id, newName, target, fold, byName);
      assert TakenBy(tree, id, newName, fold, target);
    }
  }

  // ---------- what becomes of the subcategories ----------

  /** A real subcategory of the target with the name of `c`. */
  ghost predicate NamedAlike(tree: Tree, target: string, fold: string -> string, c: string, d: string) {
    c in tree && IsChild(tree, d, target) && !IsOther(d) && fold(tree[d].name) == fold(tree[c].name)
  }

  /** A real subcategory with a namesake under the target becomes that; any other moves under the target. */
  lemma SameNamesMerge(tree: Tree, id: string, newName: string, target: string, fold: string -> string,
                       byName: map<string, string>, c: string)
    requires MergeSetting(tree, id, newName, target, fold, byName) && tree[id].parent.None?
    requires IsChild(tree, c, id) && !IsOther(c)
    ensures var plan := Merged(tree, id, target, fold, byName);
      && (c in plan.remap <==> exists d :: NamedAlike(tree, target, fold, c, d))
      && (c in plan.remap ==> NamedAlike(tree, target, fold, c, plan.remap[c]) && c !in plan.tree)
      && (c !in plan.remap ==> c in plan.tree && plan.tree[c] == tree[c].(parent := Some(target)))
  {
    var plan := Merged(tree, id, target, fold, byName);
    FoldedParts(tree, id, newName, target, fold, byName, c);
    NormalizedKeepsReal(Folded(tree, id, target, fold, byName, MovedChildren(tree, id)), c);
    if d :| NamedAlike(tree, target, fold, c, d) {
      assert fold(tree[d].name) in byName;
    }
    if c in plan.remap {
      assert NamedAlike(tree, target, fold, c, plan.remap[c]);
    }
  }

  /** Every other real category is left as it is. */
  lemma OthersStay(tree: Tree, id: string, newName: string, target: string, fold: string -> string,
                   byName: map<string, string>, c: string)
    requires MergeSetting(tree, id, newName, target, fold, byName) && !IsOther(c)
    requires c != id && !(tree[id].parent.None? && IsChild(tree, c, id))
    ensures var plan := Merged(tree, id, target, fold, byName);
      && c !in plan.remap && (c in plan.tree <==> c in tree)
      && (c in tree ==> plan.tree[c] == tree[c])
  {
    FoldedParts(tree, id, newName, target, fold, byName, c);
    NormalizedKeepsReal(Folded(tree, id, target, fold, byName, MovedChildren(tree, id)), c);
  }

  // ---------- names stay apart ----------

  /**
   * What a real category of the merged tree was before: a category left alone, or a subcategory moved to the target.
   */
  lemma WasBefore(tree: Tree, id: string, newName: string, target: string, fold: string -> string,
                  byName: map<string, string>, c: string)
    requires MergeSetting(tree, id, newName, target, fold, byName) && !IsOther(c)
    requires c in Merged(tree, id, target, fold, byName).tree
    ensures c in tree && c != id
    ensures var now := Merged(tree, id, target, fold, byName).tree[c];
      if tree[id].parent.None? && IsChild(tree, c, id)
      then now == tree[c].(parent := Some(target)) && !exists d :: NamedAlike(tree, target, fold, c, d)
      else now == tree[c]
  {
    MergeKeepsTheTree(tree, id, newName, target, fold, byName);
    if tree[id].parent.None? && IsChild(tree, c, id) {
      SameNamesMerge(tree, id, newName, target, fold, byName, c);
    } else if c != id {
      OthersStay(tree, id, newName, target, fold, byName, c);
    }
  }

  lemma MergedPairDiffers(tree: Tree, id: string, newName: string, target: string, fold: string -> string,
                          byName: map<string, string>, a: string, b: string)
    requires MergeSetting(tree, id, newName, target, fold, byName) && NamesDiffer(tree, fold)
    requires Siblings(Merged(tree, id, target, fold, byName).tree, a, b) && a != b
    ensures var after := Merged(tree, id, target, fold, byName).tree;
      fold(after[a].name) != fold(after[b].name)
  {
    WasBefore(tree, id, newName, target, fold, byName, a);
    WasBefore(tree, id, newName, target, fold, byName, b);
    if Siblings(tree, a, b) {
    } else if IsChild(tree, a, id) {
      assert !NamedAlike(tree, target, fold, a, b);
    } else {
      assert !NamedAlike(tree, target, fold, b, a);
    }
  }

  lemma RenamedPairDiffers(tree: Tree, id: string, newName: string, fold: string -> string, a: string, b: string)
    requires id in tree && !IsOther(id) && NormalTree(tree) && NamesDiffer(tree, fold)
    requires forall other :: !TakenBy(tree, id, newName, fold, other)
    requires Siblings(Renamed(tree, id, newName).tree, a, b) && a != b
    ensures var after := Renamed(tree, id, newName).tree;
      fold(after[a].name) != fold(after[b].name)
  {
    var renamed := tree[id := tree[id].(name := newName)];
    NormalizedKeepsReal(renamed, a);
    NormalizedKeepsReal(renamed, b);
    assert Siblings(tree, a, b) && Siblings(tree, b, a);
    if a == id {
      assert !TakenBy(tree, id, newName, fold, b);
    } else if b == id {
      assert !TakenBy(tree, id, newName, fold, a);
    }
  }

  /** If no two siblings share a name before a rename, none do after it, whether it merges or not. */
  lemma NamesStayApart(tree: Tree, id: string, newName: string, fold: string -> string, plan: Plan)
    requires NormalTree(tree) && id in tree && !IsOther(id) && IsPlan(tree, id, newName, fold, plan)
    requires NamesDiffer(tree, fold)
    ensures NamesDiffer(plan.tree, fold)
  {
    forall other ensures IsMergeTarget(tree, id, newName, fold, other) <==> TakenBy(tree, id, newName, fold, other) {
      TakenIsTarget(tree, id, newName, fold, other);
    }
    if forall c :: !IsMergeTarget(tree, id, newName, fold, c) {
      forall a, b | Siblings(plan.tree, a, b) && a != b ensures fold(plan.tree[a].name) != fold(plan.tree[b].name) {
        RenamedPairDiffers(tree, id, newName, fold, a, b);
      }
    } else {
      var target, byName :| MergesInto(tree, id, newName, fold, plan, target, byName);
      forall a, b | Siblings(plan.tree, a, b) && a != b ensures fold(plan.tree[a].name) != fold(plan.tree[b].name) {
        MergedPairDiffers(tree, id, newName, target, fold, byName, a, b);
      }
    }
  }
}
