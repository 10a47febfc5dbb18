/**
 * What a category rename, merge or delete does to the tree and to everything that names a category
 * (accounting/taxonomy.py).
 */
module CategoryEdits {
  import opened Frame
  import opened Taxonomy

  // ---------- renaming ----------

  /** The tree after a rename, and the new id of every id merged away. */
  datatype Plan = Plan(tree: Tree, remap: map<string, string>)

  /** An existing, different category a rename would merge into; `fold` trims and lower-cases a name. */
  predicate IsMergeTarget(tree: Tree, id: string, newName: string, fold: string -> string, candidate: string)
    requires id in tree
  {
    && candidate in tree && candidate != id && !IsOther(candidate)
    && fold(tree[candidate].name) == fold(newName)
    && (if tree[id].parent.None?
        then tree[candidate].parent.None? && tree[candidate].classification == tree[id].classification
        else tree[candidate].parent == tree[id].parent)
  }

  /** The target's real subcategories by folded name. */
  ghost predicate NamesChildren(tree: Tree, target: string, fold: string -> string, byName: map<string, string>) {
    && (forall name :: name in byName ==>
          IsChild(tree, byName[name], target) && !IsOther(byName[name]) && fold(tree[byName[name]].name) == name)
    && (forall c :: IsChild(tree, c, target) && !IsOther(c) ==> fold(tree[c].name) in byName)
  }

  /** Where a subcategory of the merged-away category goes, if it does not just move. */
  predicate MergesAway(tree: Tree, c: string, fold: string -> string, byName: map<string, string>)
    requires c in tree
  {
    IsOther(c) || fold(tree[c].name) in byName
  }

  function Remapping(tree: Tree, id: string, target: string, fold: string -> string, byName: map<string, string>,
                     children: set<string>): map<string, string>
  {
    map c | c in children + {id} && c in tree && (c == id || MergesAway(tree, c, fold, byName))
      :: if c == id then target else if IsOther(c) then OtherOf(target) else byName[fold(tree[c].name)]
  }

  /** The tree before the catch-all rule is applied again. */
  function Folded(tree: Tree, id: string, target: string, fold: string -> string, byName: map<string, string>,
                  children: set<string>): Tree
  {
    map c | c in tree && c !in Remapping(tree, id, target, fold, byName, children)
      :: if c in children then tree[c].(parent := Some(target)) else tree[c]
  }

  function ChildrenOf(tree: Tree, id: string): set<string> {
    set c | c in tree && tree[c].parent == Some(id)
  }

  function Merged(tree: Tree, id: string, target: string, fold: string -> string, byName: map<string, string>): Plan
    requires id in tree
  {
    var children := if tree[id].parent.None? then ChildrenOf(tree, id) else {};
    Plan(Normalized(Folded(tree, id, target, fold, byName, children)),
         Remapping(tree, id, target, fold, byName, children))
  }

  function Renamed(tree: Tree, id: string, newName: string): Plan
    requires id in tree
  {
    Plan(Normalized(tree[id := tree[id].(name := newName)]), map[])
  }

  /** Index the target's real subcategories by folded name. */
  method IndexByName(tree: Tree, target: string, fold: string -> string) returns (byName: map<string, string>)
    ensures NamesChildren(tree, target, fold, byName)
  {
    byName := map[];
    var pending := tree.Keys;
    while pending != {}
      invariant pending <= tree.Keys
      invariant forall name :: name in byName ==>
        IsChild(tree, byName[name], target) && !IsOther(byName[name]) && fold(tree[byName[name]].name) == name
      invariant forall c :: IsChild(tree, c, target) && !IsOther(c) && c !in pending ==> fold(tree[c].name) in byName
    {
      var c :| c in pending;
      if IsChild(tree, c, target) && !IsOther(c) {
        byName := byName[fold(tree[c].name) := c];
      }
      pending := pending - {c};
    }
  }

  lemma RemappingOneMore(tree: Tree, id: string, target: string, fold: string -> string, byName: map<string, string>,
                         done: set<string>, c: string)
    requires c in tree && c != id && c !in done
    ensures Remapping(tree, id, target, fold, byName, done + {c})
         == if !MergesAway(tree, c, fold, byName) then Remapping(tree, id, target, fold, byName, done)
            else Remapping(tree, id, target, fold, byName,
                           done)[c := if IsOther(c) then OtherOf(target) else byName[fold(tree[c].name)]]
  {
  }

  lemma FoldedOneMore(tree: Tree, id: string, target: string, fold: string -> string, byName: map<string, string>,
                      done: set<string>, c: string)
    requires c in tree && c != id && c !in done
    ensures MergesAway(tree, c, fold, byName) ==>
              Folded(tree, id, target, fold, byName, done + {c}) == Folded(tree, id, target, fold, byName, done) - {c}
    ensures !MergesAway(tree, c, fold, byName) ==>
              Folded(tree, id, target, fold, byName, done + {c})
              == Folded(tree, id, target, fold, byName, done)[c := tree[c].(parent := Some(target))]
  {
    RemappingOneMore(tree, id, target, fold, byName, done, c);
  }

  /** Move or merge every subcategory of the category merged away. */
  method FoldChildren(tree: Tree, id: string, target: string, fold: string -> string, byName: map<string, string>)
    returns (result: Tree, remap: map<string, string>)
    requires id in tree && tree[id].parent != Some(id)
    ensures result == Folded(tree, id, target, fold, byName, ChildrenOf(tree, id))
    ensures remap == Remapping(tree, id, target, fold, byName, ChildrenOf(tree, id))
  {
    result, remap := tree - {id}, map[id := target];
    var pending := ChildrenOf(tree, id);
    ghost var done := {};
    while pending != {}
      invariant done + pending == ChildrenOf(tree, id) && done !! pending
      invariant result == Folded(tree, id, target, fold, byName, done)
      invariant remap == Remapping(tree, id, target, fold, byName, done)
    {
      var c :| c in pending;
      RemappingOneMore(tree, id, target, fold, byName, done, c);
      FoldedOneMore(tree, id, target, fold, byName, done, c);
      if IsOther(c) {
        remap := remap[c := OtherOf(target)];
        result := result - {c};
      } else if fold(tree[c].name) in byName {
        remap := remap[c := byName[fold(tree[c].name)]];
        result := result - {c};
      } else {
        result := result[c := tree[c].(parent := Some(target))];
      }
      pending, done := pending - {c}, done + {c};
    }
    assert done == ChildrenOf(tree, id);
  }

  /** A plan that merges into some merge target. */
  ghost predicate MergesInto(tree: Tree, id: string, newName: string, fold: string -> string, plan: Plan,
                             target: string, byName: map<string, string>)
    requires id in tree
  {
    && IsMergeTarget(tree, id, newName, fold, target)
    && (tree[id].parent.None? ==> NamesChildren(tree, target, fold, byName))
    && plan == Merged(tree, id, target, fold, byName)
  }

  /** Merge where there is a category to merge into, else only rename. */
  ghost predicate IsPlan(tree: Tree, id: string, newName: string, fold: string -> string, plan: Plan)
    requires id in tree
  {
    || ((forall c :: !IsMergeTarget(tree, id, newName, fold, c)) && plan == Renamed(tree, id, newName))
    || exists target, byName :: MergesInto(tree, id, newName, fold, plan, target, byName)
  }

  /** Rename a category, merging it into a same-named one where there is one to merge into. */
  method PlanCategoryRename(tree: Tree, id: string, newName: string, fold: string -> string) returns (plan: Plan)
    requires id in tree && tree[id].parent != Some(id)
    ensures IsPlan(tree, id, newName, fold, plan)
  {
    if exists c :: c in tree && IsMergeTarget(tree, id, newName, fold, c) {
      var target := FirstTarget(tree, id, newName, fold);
      var result, remap := tree - {id}, map[id := target];
      var byName: map<string, string> := map[];
      if tree[id].parent.None? {
        byName := IndexByName(tree, target, fold);
        result, remap := FoldChildren(tree, id, target, fold, byName);
      } else {
        assert result == Folded(tree, id, target, fold, byName, {});
        assert remap == Remapping(tree, id, target, fold, byName, {});
      }
      var normalized := NormalizeCategories(result);
      plan := Plan(normalized, remap);
      assert MergesInto(tree, id, newName, fold, plan, target, byName);
    } else {
      var normalized := NormalizeCategories(tree[id := tree[id].(name := newName)]);
      plan := Plan(normalized, map[]);
    }
  }

  /** Some merge target; which of several is met first depends on the order the tree was loaded in. */
  method FirstTarget(tree: Tree, id: string, newName: string, fold: string -> string) returns (target: string)
    requires id in tree && exists c :: c in tree && IsMergeTarget(tree, id, newName, fold, c)
    ensures IsMergeTarget(tree, id, newName, fold, target)
  {
    target :| target in tree && IsMergeTarget(tree, id, newName, fold, target);
  }

  // ---------- what a rename keeps ----------

  function Remapped(remap: map<string, string>, id: string): string {
    if id in remap then remap[id] else id
  }

  function RemappedOption(remap: map<string, string>, id: Option<string>): Option<string> {
    if id.Some? then Some(Remapped(remap, id.value)) else None
  }

  /** A category reference that makes sense: a top-level category, and a subcategory of it if any. */
  predicate Coherent(tree: Tree, category: Option<string>, subcategory: Option<string>) {
    && (category.Some? ==> category.value in tree && tree[category.value].parent.None?)
    && (subcategory.Some? ==> category.Some? && IsChild(tree, subcategory.value, category.value))
  }

  /** The state of a merge: the tree is normal, the merged category is no catch-all, and the target was found in it. */
  ghost predicate MergeSetting(tree: Tree, id: string, newName: string, target: string, fold: string -> string,
                               byName: map<string, string>) {
    && NormalTree(tree) && id in tree && !IsOther(id)
    && IsMergeTarget(tree, id, newName, fold, target)
    && (tree[id].parent.None? ==> NamesChildren(tree, target, fold, byName))
  }

  function MovedChildren(tree: Tree, id: string): set<string>
    requires id in tree
  {
    if tree[id].parent.None? then ChildrenOf(tree, id) else {}
  }

  /** Every remapped id goes to a real sibling, to the target, or to the target's catch-all. */
  lemma RemapTargets(tree: Tree, id: string, newName: string, target: string, fold: string -> string,
                     byName: map<string, string>, c: string)
    requires MergeSetting(tree, id, newName, target, fold, byName)
    requires c in Remapping(tree, id, target, fold, byName, MovedChildren(tree, id))
    ensures var remap := Remapping(tree, id, target, fold, byName, MovedChildren(tree, id));
      && (c == id ==> remap[c] == target)
      && (c != id ==> tree[id].parent.None? && IsChild(tree, c, id))
      && (c != id && IsOther(c) ==> remap[c] == OtherOf(target))
      && (c != id && !IsOther(c) ==> IsChild(tree, remap[c], target) && !IsOther(remap[c]))
  {
  }

  lemma FoldedParts(tree: Tree, id: string, newName: string, target: string, fold: string -> string,
                    byName: map<string, string>, c: string)
    requires MergeSetting(tree, id, newName, target, fold, byName)
    ensures var children := MovedChildren(tree, id);
      var folded := Folded(tree, id, target, fold, byName, children);
      var remap := Remapping(tree, id, target, fold, byName, children);
      && (c in folded <==> c in tree && c !in remap)
      && (c in folded ==>
            var moved := tree[id].parent.None? && IsChild(tree, c, id);
            folded[c] == if moved then tree[c].(parent := Some(target)) else tree[c])
  {
  }

  /** Folding a category's children into another of its classification leaves a two-level tree. */
  lemma FoldedChildFits(tree: Tree, id: string, newName: string, target: string, fold: string -> string,
                        byName: map<string, string>, c: string)
    requires MergeSetting(tree, id, newName, target, fold, byName)
    requires var folded := Folded(tree, id, target, fold, byName, MovedChildren(tree, id));
      c in folded && folded[c].parent.Some?
    ensures var folded := Folded(tree, id, target, fold, byName, MovedChildren(tree, id));
      var parent := folded[c].parent.value;
      parent in folded && folded[parent].parent.None? && folded[parent].classification == folded[c].classification
  {
    FoldedParts(tree, id, newName, target, fold, byName, target);
    FoldedParts(tree, id, newName, target, fold, byName, c);
    FoldedParts(tree, id, newName, target, fold, byName, tree[c].parent.value);
  }

  lemma FoldedIsTwoLevel(tree: Tree, id: string, newName: string, target: string, fold: string -> string,
                         byName: map<string, string>)
    requires MergeSetting(tree, id, newName, target, fold, byName)
    ensures var folded := Folded(tree, id, target, fold, byName, MovedChildren(tree, id));
      TwoLevel(folded) && OtherShape(folded)
  {
    var folded := Folded(tree, id, target, fold, byName, MovedChildren(tree, id));
    forall c | c in folded && folded[c].parent.Some?
      ensures folded[c].parent.value in folded && folded[folded[c].parent.value].parent.None?
      ensures folded[folded[c].parent.value].classification == folded[c].classification
    {
      FoldedChildFits(tree, id, newName, target, fold, byName, c);
    }
    forall c | c in folded && IsOther(c) ensures folded[c].parent == Some(Stem(c)) {
      FoldedParts(tree, id, newName, target, fold, byName, c);
    }
  }

  /** Where the merged category had a real subcategory, the target has one afterwards. */
  lemma TargetGainsReal(tree: Tree, id: string, newName: string, target: string, fold: string -> string,
                        byName: map<string, string>)
    requires MergeSetting(tree, id, newName, target, fold, byName) && tree[id].parent.None? && HasReal(tree, id)
    ensures HasReal(Folded(tree, id, target, fold, byName, MovedChildren(tree, id)), target)
  {
    var c :| c in tree && tree[c].parent == Some(id) && !IsOther(c);
    if fold(tree[c].name) in byName {
      TargetsChildStays(tree, id, newName, target, fold, byName, byName[fold(tree[c].name)]);
    } else {
      FoldedParts(tree, id, newName, target, fold, byName, c);
      assert Folded(tree, id, target, fold, byName, MovedChildren(tree, id))[c].parent == Some(target);
    }
  }

  lemma TargetsChildStays(tree: Tree, id: string, newName: string, target: string, fold: string -> string,
                          byName: map<string, string>, c: string)
    requires MergeSetting(tree, id, newName, target, fold, byName) && tree[id].parent.None?
    requires IsChild(tree, c, target) && !IsOther(c)
    ensures HasReal(Folded(tree, id, target, fold, byName, MovedChildren(tree, id)), target)
  {
    FoldedParts(tree, id, newName, target, fold, byName, c);
    assert Folded(tree, id, target, fold, byName, MovedChildren(tree, id))[c].parent == Some(target);
  }

  /**
   * Merging on a normal tree: the result is normal, no merged-away id is left in it, every id it should remap to is
   * there, every other id is still there, and every coherent reference maps to a coherent reference.
   */
  lemma MergeKeepsTheTree(tree: Tree, id: string, newName: string, target: string, fold: string -> string,
                          byName: map<string, string>)
    requires MergeSetting(tree, id, newName, target, fold, byName)
    ensures var plan := Merged(tree, id, target, fold, byName);
      && NormalTree(plan.tree)
      && plan.remap.Keys !! plan.tree.Keys
      && tree.Keys - plan.remap.Keys <= plan.tree.Keys
      && (forall c :: c in plan.remap ==> plan.remap[c] in plan.tree)
  {
    var plan := Merged(tree, id, target, fold, byName);
    FoldedIsTwoLevel(tree, id, newName, target, fold, byName);
    NormalizedIsNormal(Folded(tree, id, target, fold, byName, MovedChildren(tree, id)));
    forall c | c in plan.remap ensures c !in plan.tree && plan.remap[c] in plan.tree {
      RemovedStays(tree, id, newName, target, fold, byName, c);
      RemapTargetExists(tree, id, newName, target, fold, byName, c);
    }
    forall c | c in tree && c !in plan.remap ensures c in plan.tree {
      KeptStays(tree, id, newName, target, fold, byName, c);
    }
  }

  lemma RemapTargetExists(tree: Tree, id: string, newName: string, target: string, fold: string -> string,
                          byName: map<string, string>, c: string)
    requires MergeSetting(tree, id, newName, target, fold, byName)
    requires c in Remapping(tree, id, target, fold, byName, MovedChildren(tree, id))
    ensures Remapping(tree, id, target, fold, byName, MovedChildren(tree, id))[c]
            in Normalized(Folded(tree, id, target, fold, byName, MovedChildren(tree, id)))
  {
    var now := Remapping(tree, id, target, fold, byName, MovedChildren(tree, id))[c];
    RemapTargets(tree, id, newName, target, fold, byName, c);
    if c != id && IsOther(c) {
      OtherOfMerged(tree, id, newName, target, fold, byName, c);
    } else {
      FoldedParts(tree, id, newName, target, fold, byName, now);
      NormalizedKeepsReal(Folded(tree, id, target, fold, byName, MovedChildren(tree, id)), now);
    }
  }

  lemma RemovedStays(tree: Tree, id: string, newName: string, target: string, fold: string -> string,
                     byName: map<string, string>, c: string)
    requires MergeSetting(tree, id, newName, target, fold, byName)
    requires c in Remapping(tree, id, target, fold, byName, MovedChildren(tree, id))
    ensures c !in Normalized(Folded(tree, id, target, fold, byName, MovedChildren(tree, id)))
  {
    var folded := Folded(tree, id, target, fold, byName, MovedChildren(tree, id));
    RemapTargets(tree, id, newName, target, fold, byName, c);
    FoldedParts(tree, id, newName, target, fold, byName, c);
    if c != id && IsOther(c) {
      FoldedParts(tree, id, newName, target, fold, byName, id);
      FoldedIsTwoLevel(tree, id, newName, target, fold, byName);
      StemMustExist(folded, c);
    } else {
      NormalizedKeepsReal(folded, c);
    }
  }

  lemma StemMustExist(tree: Tree, c: string)
    requires TwoLevel(tree) && OtherShape(tree) && IsOther(c) && Stem(c) !in tree
    ensures c !in Normalized(tree)
  {
    if c in Normalized(tree) {
      OtherBelongs(tree, c);
    }
  }

  lemma OtherOfMerged(tree: Tree, id: string, newName: string, target: string, fold: string -> string,
                      byName: map<string, string>, c: string)
    requires MergeSetting(tree, id, newName, target, fold, byName) && tree[id].parent.None?
    requires IsChild(tree, c, id) && IsOther(c)
    ensures OtherOf(target) in Normalized(Folded(tree, id, target, fold, byName, MovedChildren(tree, id)))
  {
    var folded := Folded(tree, id, target, fold, byName, MovedChildren(tree, id));
    assert OtherOf(id) == c;
    TargetGainsReal(tree, id, newName, target, fold, byName);
    FoldedIsTwoLevel(tree, id, newName, target, fold, byName);
    FoldedParts(tree, id, newName, target, fold, byName, target);
    NormalizedOther(folded, target);
  }

  lemma KeptStays(tree: Tree, id: string, newName: string, target: string, fold: string -> string,
                  byName: map<string, string>, c: string)
    requires MergeSetting(tree, id, newName, target, fold, byName)
    requires c in tree && c !in Remapping(tree, id, target, fold, byName, MovedChildren(tree, id))
    ensures c in Normalized(Folded(tree, id, target, fold, byName, MovedChildren(tree, id)))
  {
    var folded := Folded(tree, id, target, fold, byName, MovedChildren(tree, id));
    FoldedParts(tree, id, newName, target, fold, byName, c);
    if IsOther(c) {
      KeptOther(tree, id, newName, target, fold, byName, c);
    } else {
      NormalizedKeepsReal(folded, c);
    }
  }

  /** A catch-all that is not merged away still has a real sibling. */
  lemma KeptOther(tree: Tree, id: string, newName: string, target: string, fold: string -> string,
                  byName: map<string, string>, c: string)
    requires MergeSetting(tree, id, newName, target, fold, byName)
    requires c in tree && IsOther(c) && c !in Remapping(tree, id, target, fold, byName, MovedChildren(tree, id))
    ensures c in Normalized(Folded(tree, id, target, fold, byName, MovedChildren(tree, id)))
  {
    var folded := Folded(tree, id, target, fold, byName, MovedChildren(tree, id));
    var p := Stem(c);
    assert IsChild(tree, c, p) && OtherOf(p) == c;
    FoldedIsTwoLevel(tree, id, newName, target, fold, byName);
    FoldedParts(tree, id, newName, target, fold, byName, p);
    RealSiblingStays(tree, id, newName, target, fold, byName, c);
    NormalizedOther(folded, p);
  }

  lemma RealSiblingStays(tree: Tree, id: string, newName: string, target: string, fold: string -> string,
                         byName: map<string, string>, c: string)
    requires MergeSetting(tree, id, newName, target, fold, byName)
    requires c in tree && IsOther(c) && c !in Remapping(tree, id, target, fold, byName, MovedChildren(tree, id))
    ensures HasReal(Folded(tree, id, target, fold, byName, MovedChildren(tree, id)), Stem(c))
  {
    var folded := Folded(tree, id, target, fold, byName, MovedChildren(tree, id));
    var p := Stem(c);
    assert IsChild(tree, c, p) && OtherOf(p) == c && HasReal(tree, p);
    var kid :| kid in tree && tree[kid].parent == Some(p) && !IsOther(kid);
    FoldedParts(tree, id, newName, target, fold, byName, kid);
    FoldedParts(tree, id, newName, target, fold, byName, target);
    if kid in folded {
      assert folded[kid].parent == Some(p);
    } else {
      assert kid == id;
      assert folded[target].parent == Some(p);
    }
  }

  /** Every coherent reference into the old tree, remapped, is coherent in the new one. */
  lemma MergeKeepsReferences(tree: Tree, id: string, newName: string, target: string, fold: string -> string,
                             byName: map<string, string>, category: Option<string>, subcategory: Option<string>)
    requires MergeSetting(tree, id, newName, target, fold, byName) && Coherent(tree, category, subcategory)
    ensures var plan := Merged(tree, id, target, fold, byName);
      Coherent(plan.tree, RemappedOption(plan.remap, category), RemappedOption(plan.remap, subcategory))
  {
    var plan := Merged(tree, id, target, fold, byName);
    MergeKeepsTheTree(tree, id, newName, target, fold, byName);
    if category.Some? {
      TopLevelStays(tree, id, newName, target, fold, byName, category.value);
    }
    if subcategory.Some? {
      ChildFollows(tree, id, newName, target, fold, byName, category.value, subcategory.value);
    }
  }

  lemma TopLevelStays(tree: Tree, id: string, newName: string, target: string, fold: string -> string,
                      byName: map<string, string>, c: string)
    requires MergeSetting(tree, id, newName, target, fold, byName) && c in tree && tree[c].parent.None?
    ensures var plan := Merged(tree, id, target, fold, byName);
      var now := Remapped(plan.remap, c);
      now in plan.tree && plan.tree[now].parent.None? && (now == if c == id then target else c)
  {
    var folded := Folded(tree, id, target, fold, byName, MovedChildren(tree, id));
    var now := if c == id then target else c;
    FoldedParts(tree, id, newName, target, fold, byName, now);
    NormalizedKeepsReal(folded, now);
  }

  lemma ChildFollows(tree: Tree, id: string, newName: string, target: string, fold: string -> string,
                     byName: map<string, string>, p: string, c: string)
    requires MergeSetting(tree, id, newName, target, fold, byName) && IsChild(tree, c, p)
    requires p in tree && tree[p].parent.None?
    ensures var plan := Merged(tree, id, target, fold, byName);
      IsChild(plan.tree, Remapped(plan.remap, c), Remapped(plan.remap, p))
  {
    var plan := Merged(tree, id, target, fold, byName);
    var now := Remapped(plan.remap, c);
    MergeKeepsTheTree(tree, id, newName, target, fold, byName);
    TopLevelStays(tree, id, newName, target, fold, byName, p);
    assert now in plan.tree;
    if IsOther(now) {
      OtherFollows(tree, id, newName, target, fold, byName, p, c);
      assert plan.tree[now].parent == Some(Stem(now));
    } else {
      RealFollows(tree, id, newName, target, fold, byName, p, c);
    }
  }

  lemma OtherFollows(tree: Tree, id: string, newName: string, target: string, fold: string -> string,
                     byName: map<string, string>, p: string, c: string)
    requires MergeSetting(tree, id, newName, target, fold, byName) && IsChild(tree, c, p)
    requires IsOther(Remapped(Merged(tree, id, target, fold, byName).remap, c))
    ensures Stem(Remapped(Merged(tree, id, target, fold, byName).remap, c))
         == if p == id && tree[id].parent.None? then target else p
  {
    var remap := Merged(tree, id, target, fold, byName).remap;
    if c in remap {
      RemapTargets(tree, id, newName, target, fold, byName, c);
    } else {
      assert tree[c].parent == Some(Stem(c));
    }
  }

  lemma RealFollows(tree: Tree, id: string, newName: string, target: string, fold: string -> string,
                    byName: map<string, string>, p: string, c: string)
    requires MergeSetting(tree, id, newName, target, fold, byName) && IsChild(tree, c, p)
    requires p in tree && tree[p].parent.None?
    requires !IsOther(Remapped(Merged(tree, id, target, fold, byName).remap, c))
    ensures IsChild(Merged(tree, id, target, fold, byName).tree,
                    Remapped(Merged(tree, id, target, fold, byName).remap, c),
                    if p == id then target else p)
  {
    var folded := Folded(tree, id, target, fold, byName, MovedChildren(tree, id));
    var now := Remapped(Merged(tree, id, target, fold, byName).remap, c);
    RealFollowsInTree(tree, id, newName, target, fold, byName, p, c);
    FoldedParts(tree, id, newName, target, fold, byName, now);
    NormalizedKeepsReal(folded, now);
  }

  /** A real subcategory stays where it was, moves with its parent, or has become a real one of the same parent. */
  lemma RealFollowsInTree(tree: Tree, id: string, newName: string, target: string, fold: string -> string,
                          byName: map<string, string>, p: string, c: string)
    requires MergeSetting(tree, id, newName, target, fold, byName) && IsChild(tree, c, p)
    requires p in tree && tree[p].parent.None?
    requires !IsOther(Remapped(Merged(tree, id, target, fold, byName).remap, c))
    ensures var remap := Merged(tree, id, target, fold, byName).remap;
      var now := Remapped(remap, c);
      && now !in remap
      && (if c in remap then IsChild(tree, now, if p == id then target else p) else now == c)
  {
    var remap := Merged(tree, id, target, fold, byName).remap;
    if c in remap {
      RemapTargets(tree, id, newName, target, fold, byName, c);
      NotRemappedAgain(tree, id, newName, target, fold, byName, remap[c]);
    }
  }

  lemma NotRemappedAgain(tree: Tree, id: string, newName: string, target: string, fold: string -> string,
                         byName: map<string, string>, c: string)
    requires MergeSetting(tree, id, newName, target, fold, byName)
    requires c == target || IsChild(tree, c, target)
    ensures tree[id].parent.None? || c == target
      ==> c !in Remapping(tree, id, target, fold, byName, MovedChildren(tree, id))
  {
  }
}
