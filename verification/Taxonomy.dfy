/**
 * Renaming, merging and deleting categories of a two-level tree, and the references that follow
 * (accounting/taxonomy.py).
 */
module Taxonomy {
  import opened Frame

  datatype Category = Category(name: string, classification: string, parent: Option<string>)

  type Tree = map<string, Category>

  const OTHER_SUBCATEGORY_SUFFIX := ":other"

  predicate IsOther(id: string) {
    |id| >= 6 && id[|id| - 6..] == OTHER_SUBCATEGORY_SUFFIX
  }

  function OtherOf(parent: string): (id: string)
    ensures IsOther(id) && Stem(id) == parent
  {
    parent + OTHER_SUBCATEGORY_SUFFIX
  }

  /** The id a catch-all's id was built from. */
  function Stem(id: string): (parent: string)
    requires IsOther(id)
    ensures parent + OTHER_SUBCATEGORY_SUFFIX == id
  {
    id[..|id| - 6]
  }

  predicate IsChild(tree: Tree, id: string, parent: string) {
    id in tree && tree[id].parent == Some(parent)
  }

  predicate HasReal(tree: Tree, parent: string) {
    exists id :: id in tree && tree[id].parent == Some(parent) && !IsOther(id)
  }

  function Parents(tree: Tree): set<string> {
    set id | id in tree && tree[id].parent.Some? :: tree[id].parent.value
  }

  // ---------- the catch-all rule ----------

  /** The subcategory added for a parent with real ones. */
  function CatchAll(tree: Tree, parent: string): Category
    requires parent in tree
  {
    Category("Other", tree[parent].classification, Some(parent))
  }

  /** The catch-alls of some parents that have real subcategories. */
  function Wanted(tree: Tree, parents: set<string>): set<string> {
    set p | p in parents && p in tree && HasReal(tree, p) :: OtherOf(p)
  }

  /** A catch-all of a parent that has subcategories, but no real one. */
  predicate Lonely(tree: Tree, parents: set<string>, id: string) {
    IsOther(id) && Stem(id) in parents && Stem(id) in tree && !HasReal(tree, Stem(id))
  }

  /** The tree once the rule has been applied to some of its parents. */
  function NormalizedFor(tree: Tree, parents: set<string>): Tree {
    map id | id in tree.Keys + Wanted(tree, parents) && !Lonely(tree, parents, id)
      :: if id in tree then tree[id] else CatchAll(tree, Stem(id))
  }

  function Normalized(tree: Tree): Tree {
    NormalizedFor(tree, Parents(tree))
  }

  lemma IsWanted(tree: Tree, parents: set<string>, id: string)
    ensures id in Wanted(tree, parents)
      <==> exists p :: p in parents && p in tree && HasReal(tree, p) && OtherOf(p) == id
  {
  }

  lemma WantedOneMore(tree: Tree, parents: set<string>, p: string, id: string)
    requires p in tree
    ensures id in Wanted(tree, parents + {p}) <==> id in Wanted(tree, parents) || (id == OtherOf(p) && HasReal(tree, p))
  {
    IsWanted(tree, parents, id);
    IsWanted(tree, parents + {p}, id);
    if HasReal(tree, p) && OtherOf(p) == id {
      assert p in parents + {p};
    }
    if q :| q in parents && q in tree && HasReal(tree, q) && OtherOf(q) == id {
      assert q in parents + {p};
    }

  }

  lemma LonelyOneMore(tree: Tree, parents: set<string>, p: string, id: string)
    requires p in tree
    ensures Lonely(tree, parents + {p}, id) <==> Lonely(tree, parents, id) || (id == OtherOf(p) && !HasReal(tree, p))
  {
    assert Stem(OtherOf(p)) == p;
  }

  /** What one more parent changes is its own catch-all. */
  lemma NormalizedForAt(tree: Tree, parents: set<string>, p: string, id: string)
    requires p !in parents && p in tree
    ensures var before, after := NormalizedFor(tree, parents), NormalizedFor(tree, parents + {p});
      && (id != OtherOf(p) ==> (id in after <==> id in before) && (id in before ==> after[id] == before[id]))
      && (id == OtherOf(p) ==> (id in after <==> HasReal(tree, p)))
      && (id == OtherOf(p) && id in before && id in after ==> after[id] == before[id])
      && (id == OtherOf(p) && id !in before && id in after ==> after[id] == CatchAll(tree, p))
  {
    assert Stem(OtherOf(p)) == p;
    WantedOneMore(tree, parents, p, id);
    LonelyOneMore(tree, parents, p, id);
    NotLonelyYet(tree, parents, p);
  }

  lemma NotLonelyYet(tree: Tree, parents: set<string>, p: string)
    requires p !in parents
    ensures !Lonely(tree, parents, OtherOf(p))
  {
    assert Stem(OtherOf(p)) == p;
  }

  lemma NormalizedForOneMore(tree: Tree, parents: set<string>, p: string)
    requires p !in parents && p in tree
    ensures HasReal(tree, p) && OtherOf(p) in NormalizedFor(tree, parents) ==>
              NormalizedFor(tree, parents + {p}) == NormalizedFor(tree, parents)
    ensures HasReal(tree, p) && OtherOf(p) !in NormalizedFor(tree, parents) ==>
              NormalizedFor(tree, parents + {p}) == NormalizedFor(tree, parents)[OtherOf(p) := CatchAll(tree, p)]
    ensures !HasReal(tree, p) ==> NormalizedFor(tree, parents + {p}) == NormalizedFor(tree, parents) - {OtherOf(p)}
  {
    var before, after := NormalizedFor(tree, parents), NormalizedFor(tree, parents + {p});
    NormalizedForAt(tree, parents, p, OtherOf(p));
    forall id | id != OtherOf(p) ensures (id in after <==> id in before) && (id in before ==> after[id] == before[id]) {
      NormalizedForAt(tree, parents, p, id);
    }
    SameButOne(before, after, OtherOf(p));
  }

  /** Two trees that differ in one id at most. */
  lemma SameButOne(before: Tree, after: Tree, id: string)
    requires forall other :: other != id ==>
      (other in after <==> other in before) && (other in before ==> after[other] == before[other])
    ensures id in before && id in after && after[id] == before[id] ==> after == before
    ensures id in after ==> after == before[id := after[id]]
    ensures id !in after ==> after == before - {id}
  {
  }

  /** Add the catch-all where real subcategories lack one, and drop it where it is left alone. */
  method NormalizeCategories(tree: Tree) returns (result: Tree)
    ensures result == Normalized(tree)
  {
    result := tree;
    var pending := Parents(tree);
    assert NormalizedFor(tree, {}) == tree;
    ghost var done := {};
    while pending != {}
      invariant done + pending == Parents(tree) && done !! pending
      invariant result == NormalizedFor(tree, done)
    {
      var p :| p in pending;
      if p in tree {
        NormalizedForOneMore(tree, done, p);
        var otherId := OtherOf(p);
        if HasReal(tree, p) && otherId !in result {
          result := result[otherId := CatchAll(tree, p)];
        } else if !HasReal(tree, p) && otherId in result {
          result := result - {otherId};
        }
      } else {
        SkipsUnknownParent(tree, done, p);
      }
      pending, done := pending - {p}, done + {p};
    }
    assert done == Parents(tree);
  }

  lemma SkipsUnknownParent(tree: Tree, parents: set<string>, p: string)
    requires p !in tree
    ensures NormalizedFor(tree, parents + {p}) == NormalizedFor(tree, parents)
  {
    assert Wanted(tree, parents + {p}) == Wanted(tree, parents);
  }

  // ---------- well-formed trees ----------

  /** Subcategories sit under top-level categories of their own classification. */
  predicate TwoLevel(tree: Tree) {
    forall id :: id in tree && tree[id].parent.Some? ==>
      && tree[id].parent.value in tree
      && tree[tree[id].parent.value].parent.None?
      && tree[tree[id].parent.value].classification == tree[id].classification
  }

  /** Only a catch-all has a catch-all's id, and it sits under the category it is named after. */
  predicate OtherShape(tree: Tree) {
    forall id :: id in tree && IsOther(id) ==> tree[id].parent == Some(Stem(id))
  }

  predicate CatchAllsMatch(tree: Tree) {
    forall p :: p in tree && tree[p].parent.None? ==> (OtherOf(p) in tree <==> HasReal(tree, p))
  }

  predicate NormalTree(tree: Tree) {
    TwoLevel(tree) && OtherShape(tree) && CatchAllsMatch(tree)
  }

  lemma ParentIsListed(tree: Tree, id: string)
    requires id in tree && tree[id].parent.Some?
    ensures tree[id].parent.value in Parents(tree)
  {
  }

  /** Normalizing touches nothing but catch-alls. */
  lemma NormalizedKeepsReal(tree: Tree, id: string)
    requires !IsOther(id)
    ensures id in Normalized(tree) <==> id in tree
    ensures id in tree ==> Normalized(tree)[id] == tree[id]
  {
  }

  lemma NormalizedHasReal(tree: Tree, p: string)
    ensures HasReal(Normalized(tree), p) <==> HasReal(tree, p)
  {
    forall id | !IsOther(id)
      ensures (id in tree <==> id in Normalized(tree)) && (id in tree ==> Normalized(tree)[id] == tree[id])
    {
      NormalizedKeepsReal(tree, id);
    }
    if HasReal(tree, p) {
      var id :| id in tree && tree[id].parent == Some(p) && !IsOther(id);
      assert Normalized(tree)[id].parent == Some(p);
    }
    if HasReal(Normalized(tree), p) {
      var id :| id in Normalized(tree) && Normalized(tree)[id].parent == Some(p) && !IsOther(id);
      assert tree[id].parent == Some(p);
    }
  }

  /** In a two-level tree a catch-all is in the normalized tree exactly when its parent has a real subcategory. */
  lemma NormalizedOther(tree: Tree, p: string)
    requires TwoLevel(tree) && OtherShape(tree) && p in tree && tree[p].parent.None?
    ensures OtherOf(p) in Normalized(tree) <==> HasReal(tree, p)
    ensures OtherOf(p) in Normalized(tree) ==>
              Normalized(tree)[OtherOf(p)].parent == Some(p)
              && (Normalized(tree)[OtherOf(p)].classification == tree[p].classification)
  {
    if HasReal(tree, p) {
      var id :| id in tree && tree[id].parent == Some(p) && !IsOther(id);
      ParentIsListed(tree, id);
      assert OtherOf(p) in Wanted(tree, Parents(tree));
    } else if OtherOf(p) in tree {
      ParentIsListed(tree, OtherOf(p));
    }
  }

  lemma WantedStem(tree: Tree, id: string)
    requires id in Normalized(tree) && id !in tree
    ensures IsOther(id) && Stem(id) in tree && HasReal(tree, Stem(id))
  {
  }

  /** Every catch-all of the normalized tree belongs to one of its top-level categories. */
  lemma OtherBelongs(tree: Tree, id: string)
    requires TwoLevel(tree) && OtherShape(tree) && id in Normalized(tree) && IsOther(id)
    ensures Stem(id) in tree && tree[Stem(id)].parent.None? && !IsOther(Stem(id))
    ensures id == OtherOf(Stem(id))
  {
    if id in tree {
      assert tree[id].parent == Some(Stem(id));
    } else {
      WantedStem(tree, id);
      var child :| child in tree && tree[child].parent == Some(Stem(id)) && !IsOther(child);
    }
  }

  /** Normalizing a two-level tree establishes the catch-all rule. */
  lemma NormalizedIsNormal(tree: Tree)
    requires TwoLevel(tree) && OtherShape(tree)
    ensures NormalTree(Normalized(tree))
    ensures forall id :: id in tree && id in Normalized(tree) ==> Normalized(tree)[id] == tree[id]
    ensures forall id :: id in Normalized(tree) && id !in tree ==> IsOther(id) && Normalized(tree)[id].name == "Other"
  {
    var result := Normalized(tree);
    forall id | id in result && result[id].parent.Some?
      ensures result[id].parent.value in result && result[result[id].parent.value].parent.None?
      ensures result[result[id].parent.value].classification == result[id].classification
    {
      if IsOther(id) {
        OtherBelongs(tree, id);
        NormalizedOther(tree, Stem(id));
        NormalizedKeepsReal(tree, Stem(id));
      } else {
        NormalizedKeepsReal(tree, id);
        NormalizedKeepsReal(tree, tree[id].parent.value);
      }
    }
    forall id | id in result && IsOther(id) ensures result[id].parent == Some(Stem(id)) {
      OtherBelongs(tree, id);
      NormalizedOther(tree, Stem(id));
    }
    forall p | p in result && result[p].parent.None? ensures OtherOf(p) in result <==> HasReal(result, p) {
      assert !IsOther(p);
      NormalizedKeepsReal(tree, p);
      NormalizedOther(tree, p);
      NormalizedHasReal(tree, p);
    }
  }

  /** A normal tree is left exactly as it is. */
  lemma NormalTreesAreFixed(tree: Tree)
    requires NormalTree(tree)
    ensures Normalized(tree) == tree
  {
    forall id ensures id in Normalized(tree) <==> id in tree {
      if IsOther(id) {
        if id in Normalized(tree) {
          OtherBelongs(tree, id);
          NormalizedOther(tree, Stem(id));
        }
        if id in tree {
          assert tree[id].parent == Some(Stem(id));
          NormalizedOther(tree, Stem(id));
        }
      } else {
        NormalizedKeepsReal(tree, id);
      }
    }
  }
}
