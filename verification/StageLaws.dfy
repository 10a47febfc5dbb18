/**
 * What lookups, splits, overrides, merges and links leave in each column of a posting
 * (accounting/ledger/categorization.py, transfers.py).
 */
module StageLaws {
  import opened Frame
  import opened Categorization
  import opened Linking

  /** The columns no stage before linking ever changes. */
  ghost predicate SameEvent(row: Row, out: Row) {
    && out.transaction == row.transaction && out.postedAt == row.postedAt && out.currency == row.currency
    && out.budget == row.budget && out.meta == row.meta
  }

  /** Nothing but the link columns may differ. */
  ghost predicate Untouched(row: Row, out: Row) {
    out.(link := row.link) == row
  }

  // ---------- taxonomy lookup ----------

  /** A retired category reads as what it leads to, which may be nothing; any other as itself. */
  ghost predicate ReadsAs(category: Option<string>, redirects: Redirects, now: Option<string>) {
    && (category.Some? && category.value in redirects ==> now == redirects[category.value])
    && (category.None? || category.value !in redirects ==> now == category)
  }

  ghost predicate LookedUp(row: Row, redirects: Redirects, out: Row) {
    && out == row.(category := out.category, subcategory := out.subcategory)
    && ReadsAs(row.category, redirects, out.category) && ReadsAs(row.subcategory, redirects, out.subcategory)
  }

  lemma LookupReads(rows: seq<Row>, redirects: Redirects)
    ensures forall out :: out in ApplyCategoryRedirects(rows, redirects) ==>
      exists row :: row in rows && LookedUp(row, redirects, out)
    ensures forall row :: row in rows ==>
      exists out :: out in ApplyCategoryRedirects(rows, redirects) && LookedUp(row, redirects, out)
  {
    var result := ApplyCategoryRedirects(rows, redirects);
    forall out | out in result ensures exists row :: row in rows && LookedUp(row, redirects, out) {
      if redirects == map[] || rows == [] {
        assert LookedUp(out, redirects, out);
      } else {
        ExpandMembers(RedirectStage(redirects), rows, out);
        var row :| row in rows && out in RedirectStage(redirects)(row);
        assert LookedUp(row, redirects, out);
      }
    }
    forall row | row in rows ensures exists out :: out in result && LookedUp(row, redirects, out) {
      if redirects == map[] || rows == [] {
        assert LookedUp(row, redirects, row);
      } else {
        var out := RedirectRow(row, redirects);
        assert out in RedirectStage(redirects)(row);
        ExpandMembers(RedirectStage(redirects), rows, out);
        assert LookedUp(row, redirects, out);
      }
    }
  }

  // ---------- splits ----------

  /** The n-th leg of a split posting: its own amount and categories, the posting's everything else. */
  ghost predicate IsLeg(row: Row, legs: seq<Leg>, n: int, out: Row) {
    && 0 <= n < |legs| && row.posting.Stored?
    && SameEvent(row, out) && out.account == row.account && out.tags == row.tags
    && out.posting == SplitLeg(row.posting.key, n)
    && out.amount == legs[n].amount
    && out.category == legs[n].category && out.subcategory == legs[n].subcategory
    && (legs[n].description != "" ==> out.description == legs[n].description)
    && (legs[n].description == "" ==> out.description == row.description)
  }

  ghost predicate AfterSplit(row: Row, splits: Splits, out: Row) {
    if row.posting.Stored? && row.posting.key in splits then exists n :: IsLeg(row, splits[row.posting.key], n, out)
    else Untouched(row, out)
  }

  lemma LegsOf(row: Row, legs: seq<Leg>, out: Row)
    requires row.posting.Stored? && out in LegRows(row, legs, 0)
    ensures exists n :: IsLeg(row, legs, n, out)
  {
    var n :| 0 <= n < |LegRows(row, legs, 0)| && LegRows(row, legs, 0)[n] == out;
    if legs != [] {
      LegRowsAt(row, legs, 0, 0);
      LegRowsAt(row, legs, 0, n);
      assert IsLeg(row, legs, n, out);
    }
  }

  lemma SplitMember(rows: seq<Row>, splits: Splits, out: Row)
    ensures splits != map[] ==>
      (out in SplitRows(rows, splits) <==> exists row :: row in rows && out in SplitStage(splits)(row))
  {
    SortMembers(Expand(SplitStage(splits), rows), out);
    ExpandMembers(SplitStage(splits), rows, out);
  }

  /** The posting is split and has an n-th leg. */
  ghost predicate HasLeg(row: Row, splits: Splits, n: int) {
    row.posting.Stored? && row.posting.key in splits && 0 <= n < |splits[row.posting.key]|
  }

  ghost predicate Holds(rows: seq<Row>, row: Row, splits: Splits, n: int)
    requires HasLeg(row, splits, n)
  {
    exists out :: out in rows && IsLeg(row, splits[row.posting.key], n, out)
  }

  /** Each leg of a split posting is there, in place of the posting; other postings are left alone. */
  lemma SplitsBecomeLegs(rows: seq<Row>, splits: Splits)
    ensures forall out :: out in SplitRows(rows, splits) ==>
      exists row :: row in rows && AfterSplit(row, splits, out)
    ensures forall row, n :: row in rows && HasLeg(row, splits, n) ==> Holds(SplitRows(rows, splits), row, splits, n)
    ensures forall row :: row in rows && !(row.posting.Stored? && row.posting.key in splits) ==>
      exists out :: out in SplitRows(rows, splits) && Untouched(row, out)
  {
    var result := SplitRows(rows, splits);
    forall out | out in result ensures exists row :: row in rows && AfterSplit(row, splits, out) {
      SplitComesFrom(rows, splits, out);
    }
    forall row, n | row in rows && HasLeg(row, splits, n) ensures Holds(result, row, splits, n) {
      LegIsThere(rows, splits, row, n);
    }
    forall row | row in rows && !(row.posting.Stored? && row.posting.key in splits)
      ensures exists out :: out in result && Untouched(row, out)
    {
      UnsplitStays(rows, splits, row);
    }
  }

  lemma SplitComesFrom(rows: seq<Row>, splits: Splits, out: Row)
    requires out in SplitRows(rows, splits)
    ensures exists row :: row in rows && AfterSplit(row, splits, out)
  {
    SplitMember(rows, splits, out);
    if splits == map[] {
      assert AfterSplit(out, splits, out);
    } else {
      var row :| row in rows && out in SplitStage(splits)(row);
      if row.posting.Stored? && row.posting.key in splits {
        LegsOf(row, splits[row.posting.key], out);
      }
      assert AfterSplit(row, splits, out);
    }
  }

  lemma LegIsThere(rows: seq<Row>, splits: Splits, row: Row, n: nat)
    requires row in rows && HasLeg(row, splits, n)
    ensures Holds(SplitRows(rows, splits), row, splits, n)
  {
    var legs := splits[row.posting.key];
    var out := LegRow(row, legs[n], n);
    LegRowsAt(row, legs, 0, n);
    assert LegRows(row, legs, 0)[n] in LegRows(row, legs, 0);
    SplitMember(rows, splits, out);
    assert out in SplitStage(splits)(row);
    assert IsLeg(row, legs, n, out);
  }

  lemma UnsplitStays(rows: seq<Row>, splits: Splits, row: Row)
    requires row in rows && !(row.posting.Stored? && row.posting.key in splits)
    ensures exists out :: out in SplitRows(rows, splits) && Untouched(row, out)
  {
    if splits == map[] {
      assert row in SplitRows(rows, splits) && Untouched(row, row);
    } else {
      var out := row.(link := None);
      assert out in SplitStage(splits)(row);
      SplitMember(rows, splits, out);
      assert Untouched(row, out);
    }
  }

  // ---------- overrides ----------

  /** Each of the four fields an override sets is its own; each it leaves open, and every other, is the row's. */
  ghost predicate Corrected(row: Row, edit: Override, out: Row) {
    && SameEvent(row, out)
    && out.posting == row.posting && out.amount == row.amount && out.description == row.description
    && (edit.account.Some? ==> out.account == edit.account.value)
    && (edit.account.None? ==> out.account == row.account)
    && (edit.category.Some? ==> out.category == edit.category)
    && (edit.category.None? ==> out.category == row.category)
    && (edit.subcategory.Some? ==> out.subcategory == edit.subcategory)
    && (edit.subcategory.None? ==> out.subcategory == row.subcategory)
    && (edit.tags.Some? ==> out.tags == edit.tags.value)
    && (edit.tags.None? ==> out.tags == row.tags)
  }

  ghost predicate AfterOverride(row: Row, overrides: Overrides, out: Row) {
    if row.posting in overrides then Corrected(row, overrides[row.posting], out) else Untouched(row, out)
  }

  lemma OverrideMember(rows: seq<Row>, overrides: Overrides, out: Row)
    ensures overrides != map[] ==>
      (out in OverrideRows(rows, overrides) <==> exists row :: row in rows && out == OverrideRow(row, overrides))
  {
    var f := OverrideStage(overrides);
    SortMembers(Expand(f, rows), out);
    ExpandMembers(f, rows, out);
    if row :| row in rows && out in f(row) {
      assert out == OverrideRow(row, overrides);
    }
    if row :| row in rows && out == OverrideRow(row, overrides) {
      assert out in f(row);
    }
  }

  /** Every row is there once more, with what its override sets and nothing else changed. */
  lemma OverridesCorrect(rows: seq<Row>, overrides: Overrides)
    ensures forall out :: out in OverrideRows(rows, overrides) ==>
      exists row :: row in rows && AfterOverride(row, overrides, out)
    ensures forall row :: row in rows ==>
      exists out :: out in OverrideRows(rows, overrides) && AfterOverride(row, overrides, out)
  {
    var result := OverrideRows(rows, overrides);
    forall out | out in result ensures exists row :: row in rows && AfterOverride(row, overrides, out) {
      OverrideMember(rows, overrides, out);
      if overrides == map[] {
        assert AfterOverride(out, overrides, out);
      } else {
        var row :| row in rows && out == OverrideRow(row, overrides);
        assert AfterOverride(row, overrides, out);
      }
    }
    forall row | row in rows ensures exists out :: out in result && AfterOverride(row, overrides, out) {
      var out := if overrides == map[] then row else OverrideRow(row, overrides);
      OverrideMember(rows, overrides, out);
      assert out in result && AfterOverride(row, overrides, out);
    }
  }

  // ---------- merges ----------

  /** The last merge that names the transaction as the one kept and gives it a description. */
  ghost predicate Titles(merges: seq<Merge>, t: TransactionId, i: int) {
    && 0 <= i < |merges| && merges[i].kept == t && merges[i].description.Some?
    && forall k :: i < k < |merges| ==> !(merges[k].kept == t && merges[k].description.Some?)
  }

  ghost predicate AfterMerge(row: Row, merges: seq<Merge>, out: Row) {
    && Untouched(row, out.(description := row.description))
    && (forall i :: Titles(merges, row.transaction, i) ==> Some(out.description) == merges[i].description)
    && ((forall i :: !Titles(merges, row.transaction, i)) ==> out.description == row.description)
  }

  ghost predicate IsDuplicate(merges: seq<Merge>, t: TransactionId) {
    exists i :: 0 <= i < |merges| && t in merges[i].duplicates
  }

  lemma {:induction false} DroppedAreDuplicates(merges: seq<Merge>, t: TransactionId)
    ensures t in Dropped(merges) <==> IsDuplicate(merges, t)
  {
    if merges != [] {
      var n := |merges| - 1;
      DroppedAreDuplicates(merges[..n], t);
      if i :| 0 <= i < n && t in merges[..n][i].duplicates {
        assert t in merges[i].duplicates;
      }
      if i :| 0 <= i < n && t in merges[i].duplicates {
        assert t in merges[..n][i].duplicates;
      }
    }
  }

  lemma {:induction false} TitleIsLast(merges: seq<Merge>, t: TransactionId)
    ensures t in Descriptions(merges) <==> exists i :: Titles(merges, t, i)
    ensures forall i :: Titles(merges, t, i) ==>
      t in Descriptions(merges) && merges[i].description == Some(Descriptions(merges)[t])
  {
    if merges != [] {
      var n := |merges| - 1;
      TitleIsLast(merges[..n], t);
      if merges[n].kept == t && merges[n].description.Some? {
        assert Titles(merges, t, n);
      } else {
        forall i | i != n ensures Titles(merges, t, i) <==> Titles(merges[..n], t, i) {
          TitleBefore(merges, t, i);
        }
        assert !Titles(merges, t, n);
        if i :| Titles(merges[..n], t, i) {
          assert Titles(merges, t, i);
        }
      }
    }
  }

  lemma TitleBefore(merges: seq<Merge>, t: TransactionId, i: int)
    requires merges != [] && i != |merges| - 1
    requires !(merges[|merges| - 1].kept == t && merges[|merges| - 1].description.Some?)
    ensures Titles(merges, t, i) <==> Titles(merges[..|merges| - 1], t, i)
  {
    var front := merges[..|merges| - 1];
    assert forall k :: 0 <= k < |front| ==> front[k] == merges[k];
  }

  lemma MergeMember(rows: seq<Row>, merges: seq<Merge>, out: Row)
    ensures merges != [] ==>
      (out in MergeRows(rows, merges)
       <==> exists row :: row in rows && out in MergeStage(Dropped(merges), Descriptions(merges))(row))
  {
    var f := MergeStage(Dropped(merges), Descriptions(merges));
    SortMembers(Expand(f, rows), out);
    ExpandMembers(f, rows, out);
  }

  lemma MergedRow(row: Row, merges: seq<Merge>, out: Row)
    ensures out in MergeStage(Dropped(merges), Descriptions(merges))(row) ==>
      !IsDuplicate(merges, row.transaction) && AfterMerge(row, merges, out)
  {
    DroppedAreDuplicates(merges, row.transaction);
    TitleIsLast(merges, row.transaction);
  }

  /** Just the rows no merge calls duplicates are there, a kept transaction's under the last description given to it. */
  lemma MergesDropAndTitle(rows: seq<Row>, merges: seq<Merge>)
    ensures forall out :: out in MergeRows(rows, merges) ==>
      exists row :: row in rows && !IsDuplicate(merges, row.transaction) && AfterMerge(row, merges, out)
    ensures forall row :: row in rows && !IsDuplicate(merges, row.transaction) ==>
      exists out :: out in MergeRows(rows, merges) && AfterMerge(row, merges, out)
  {
    var result, f := MergeRows(rows, merges), MergeStage(Dropped(merges), Descriptions(merges));
    forall out | out in result
      ensures exists row :: row in rows && !IsDuplicate(merges, row.transaction) && AfterMerge(row, merges, out)
    {
      MergeMember(rows, merges, out);
      var row := if merges == [] then out else var was :| was in rows && out in f(was); was;
      MergedRow(row, merges, out);
      assert row in rows && !IsDuplicate(merges, row.transaction) && AfterMerge(row, merges, out);
    }
    forall row | row in rows && !IsDuplicate(merges, row.transaction)
      ensures exists out :: out in result && AfterMerge(row, merges, out)
    {
      DroppedAreDuplicates(merges, row.transaction);
      var out := f(row)[0];
      assert out in f(row);
      MergeMember(rows, merges, out);
      MergedRow(row, merges, out);
    }
  }

  // ---------- links ----------

  /** The other transaction of a link, and where the link came from. */
  ghost predicate MarkedBy(link: TransferLink, t: TransactionId, mark: Option<LinkMark>) {
    && mark.Some?
    && (t == link.a ==> mark.value.partner == link.b) && (t == link.b ==> mark.value.partner == link.a)
    && mark.value.source == (if link.source.Manual? then "manual" else "rule")
  }

  /** On a matching each row comes out in place, marked by the link its transaction is in, if it is in one. */
  lemma LinksMark(rows: seq<Row>, links: seq<TransferLink>, n: nat)
    requires Matching(links) && n < |rows|
    ensures var out := ApplyTransferLinks(rows, links);
      && |out| == |rows| && Untouched(rows[n], out[n])
      && (forall i :: 0 <= i < |links| && (links[i].a == rows[n].transaction || links[i].b == rows[n].transaction) ==>
            MarkedBy(links[i], rows[n].transaction, out[n].link))
      && ((forall i :: 0 <= i < |links| ==> links[i].a != rows[n].transaction && links[i].b != rows[n].transaction) ==>
            out[n].link == None)
  {
    var t := rows[n].transaction;
    LinkingOnlyMarks(rows, links);
    LinkForFinds(links, t);
    forall i | 0 <= i < |links| && (links[i].a == t || links[i].b == t)
      ensures MarkedBy(links[i], t, LinkFor(links, t))
    {
      assert Joins(links[i], t);
      var j :| 0 <= j < |links| && Joins(links[j], t) && LinkFor(links, t).value == MarkFrom(links[j], t);
      assert i == j;
    }
  }
}
