/**
 * Statements that write one table only, and which transactions their triggers enqueue (accounting/db/projection.py).
 */
module QuietWrites {
  import opened Tables
  import opened Footprint

  /** At most the categories and the link memberships differ. */
  predicate NamesOnly(a: Tables, b: Tables) {
    b == a.(categories := b.categories, linkMembers := b.linkMembers)
  }

  lemma SameIsUnchanged<K, V>(m: map<K, V>)
    ensures Changed(m, m) == {}
  {
  }

  lemma NothingVia(tb: Tables, postings: set<string>)
    requires postings == {}
    ensures ViaPosting(tb, postings) == {}
  {
  }

  lemma PostingsQuiet(a: Tables, b: Tables)
    requires NamesOnly(a, b)
    ensures FromPostings(a, b) == {} && FromPostingTags(a, b) == {} && FromOverrides(a, b) == {}
    ensures FromOverrideTags(a, b) == {}
  {
    SameIsUnchanged(a.postings);
    SameIsUnchanged(a.overrides);
    NothingVia(b, Firsts(ChangedPairs(a.postingTags, b.postingTags)));
    NothingVia(b, Changed(a.overrides, b.overrides));
    NothingVia(b, Firsts(ChangedPairs(a.overrideTags, b.overrideTags)) * b.overrides.Keys);
  }

  lemma SplitsQuiet(a: Tables, b: Tables)
    requires NamesOnly(a, b)
    ensures FromSplits(a, b) == {} && FromSplitLegs(a, b) == {} && FromSuggestions(a, b) == {}
  {
    SameIsUnchanged(a.splitLegs);
    SameIsUnchanged(a.suggestions);
    NothingVia(b, ChangedPairs(a.splits, b.splits));
    NothingVia(b, Firsts(Changed(a.splitLegs, b.splitLegs)) * b.splits);
    var changed := Changed(a.suggestions, b.suggestions);
    NothingVia(b, SuggestedPostings(a, changed) + SuggestedPostings(b, changed));
  }

  lemma MergesQuiet(a: Tables, b: Tables)
    requires NamesOnly(a, b)
    ensures FromExclusions(a, b) == {} && FromMerges(a, b) == {} && FromMergeDuplicates(a, b) == {}
    ensures FromLinks(a, b) == {}
  {
    SameIsUnchanged(a.merges);
    SameIsUnchanged(a.links);
    assert ChangedPairs(a.exclusions, b.exclusions) == {} && ChangedPairs(a.mergeDuplicates, b.mergeDuplicates) == {};
  }

  lemma TagsQuiet(a: Tables, b: Tables)
    requires NamesOnly(a, b)
    ensures FromTags(a, b) == {}
  {
    SameIsUnchanged(a.tags);
    var tags := Changed(a.tags, b.tags);
    NothingVia(b, set pair | pair in b.postingTags && pair.1 in tags :: pair.0);
    NothingVia(b, set pair | pair in b.overrideTags && pair.1 in tags && pair.0 in b.overrides :: pair.0);
  }

  lemma OthersQuiet(a: Tables, b: Tables)
    requires NamesOnly(a, b)
    ensures Enqueued(a, b) == FromLinkMembers(a, b) + FromCategories(a, b)
  {
    PostingsQuiet(a, b);
    SplitsQuiet(a, b);
    MergesQuiet(a, b);
    TagsQuiet(a, b);
    SameIsUnchanged(a.transactions);
    SameIsUnchanged(a.accounts);
    SameIsUnchanged(a.rules);
  }

  /** A statement that writes categories only enqueues what is filed under the changed ones. */
  lemma CategoriesEnqueue(a: Tables, b: Tables)
    requires b == a.(categories := b.categories)
    ensures Enqueued(a, b) == FromCategories(a, b)
  {
    OthersQuiet(a, b);
    assert ChangedPairs(a.linkMembers, b.linkMembers) == {};
  }

  lemma NoCategoryChanges(a: Tables, b: Tables)
    requires b == a.(linkMembers := b.linkMembers)
    ensures FromCategories(a, b) == {}
  {
    SameIsUnchanged(a.categories);
  }

  /** A statement that writes link memberships only enqueues the members in the changed rows. */
  lemma MembershipsEnqueue(a: Tables, b: Tables)
    requires b == a.(linkMembers := b.linkMembers)
    ensures Enqueued(a, b) == FromLinkMembers(a, b)
  {
    OthersQuiet(a, b);
    NoCategoryChanges(a, b);
  }
}
