/** No two resolved rows share a posting id, and each belongs to the transaction its posting belongs to. */
module ResolvedIds {
  import opened Frame
  import opened Categorization
  import opened Linking
  import opened Resolution
  import opened Tables
  import Agreement
  import Slices

  ghost predicate DistinctIds(rows: seq<Row>) {
    forall i, j :: 0 <= i < j < |rows| ==> rows[i].posting != rows[j].posting
  }

  /** Stored postings only, each once. */
  ghost predicate DistinctBases(rows: seq<Row>) {
    forall i, j :: 0 <= i < j < |rows| ==> Base(rows[i].posting) != Base(rows[j].posting)
  }

  lemma {:induction false} InsertDistinctBases(row: Row, rows: seq<Row>)
    requires DistinctBases(rows) && forall other :: other in rows ==> Base(other.posting) != Base(row.posting)
    ensures DistinctBases(Insert(row, rows))
  {
    if rows != [] && !RowLe(row, rows[0]) {
      InsertDistinctBases(row, rows[1..]);
      var tail := Insert(row, rows[1..]);
      forall j | 0 <= j < |tail| ensures Base(tail[j].posting) != Base(rows[0].posting) {
        InsertContents(row, rows[1..]);
        assert tail[j] in multiset(tail);
        assert tail[j] == row || tail[j] in rows[1..];
        assert rows[0] in rows;
      }
    }
  }

  lemma {:induction false} SortDistinctBases(rows: seq<Row>)
    requires DistinctBases(rows)
    ensures DistinctBases(Sort(rows))
  {
    if rows != [] {
      SortDistinctBases(rows[1..]);
      forall other | other in Sort(rows[1..]) ensures Base(other.posting) != Base(rows[0].posting) {
        SortMembers(rows[1..], other);
      }
      InsertDistinctBases(rows[0], Sort(rows[1..]));
    }
  }

  lemma {:induction false} InsertDistinctIds(row: Row, rows: seq<Row>)
    requires DistinctIds(rows) && forall other :: other in rows ==> other.posting != row.posting
    ensures DistinctIds(Insert(row, rows))
  {
    if rows != [] && !RowLe(row, rows[0]) {
      InsertDistinctIds(row, rows[1..]);
      var tail := Insert(row, rows[1..]);
      forall j | 0 <= j < |tail| ensures tail[j].posting != rows[0].posting {
        InsertContents(row, rows[1..]);
        assert tail[j] in multiset(tail);
        assert tail[j] == row || tail[j] in rows[1..];
        assert rows[0] in rows;
      }
    }
  }

  lemma {:induction false} SortDistinctIds(rows: seq<Row>)
    requires DistinctIds(rows)
    ensures DistinctIds(Sort(rows))
  {
    if rows != [] {
      SortDistinctIds(rows[1..]);
      forall other | other in Sort(rows[1..]) ensures other.posting != rows[0].posting {
        SortMembers(rows[1..], other);
      }
      InsertDistinctIds(rows[0], Sort(rows[1..]));
    }
  }

  /** One row each, under the same id. */
  ghost predicate KeepsId(f: Row -> seq<Row>) {
    forall row :: |f(row)| <= 1 && forall out :: out in f(row) ==> out.posting == row.posting
  }

  lemma ExpandOrigin(f: Row -> seq<Row>, rows: seq<Row>, out: Row)
    requires KeepsId(f) && out in Expand(f, rows)
    ensures exists k :: 0 <= k < |rows| && rows[k].posting == out.posting
  {
    ExpandMembers(f, rows, out);
    var row :| row in rows && out in f(row);
    var k :| 0 <= k < |rows| && rows[k] == row;
    assert rows[k].posting == out.posting;
  }

  lemma {:induction false} ExpandKeepsDistinctIds(f: Row -> seq<Row>, rows: seq<Row>)
    requires KeepsId(f) && DistinctIds(rows)
    ensures DistinctIds(Expand(f, rows))
  {
    if rows != [] {
      var rest := rows[1..];
      ExpandKeepsDistinctIds(f, rest);
      var head, tail := f(rows[0]), Expand(f, rest);
      forall j | 0 <= j < |tail| && head != [] ensures tail[j].posting != head[0].posting {
        assert head[0] in head;
        ExpandOrigin(f, rest, tail[j]);
        var k :| 0 <= k < |rest| && rest[k].posting == tail[j].posting;
        assert rows[k + 1].posting != rows[0].posting;
      }
    }
  }

  lemma {:induction false} ExpandKeepsDistinctBases(f: Row -> seq<Row>, rows: seq<Row>)
    requires KeepsId(f) && DistinctBases(rows)
    ensures DistinctBases(Expand(f, rows))
  {
    if rows != [] {
      var rest := rows[1..];
      ExpandKeepsDistinctBases(f, rest);
      var head, tail := f(rows[0]), Expand(f, rest);
      forall j | 0 <= j < |tail| && head != [] ensures Base(tail[j].posting) != Base(head[0].posting) {
        assert head[0] in head;
        ExpandOrigin(f, rest, tail[j]);
        var k :| 0 <= k < |rest| && rest[k].posting == tail[j].posting;
        assert Base(rows[k + 1].posting) != Base(rows[0].posting);
      }
    }
  }

  lemma LegIds(row: Row, legs: seq<Leg>)
    ensures DistinctIds(LegRows(row, legs, 0))
  {
    var out := LegRows(row, legs, 0);
    if legs != [] { LegRowsAt(row, legs, 0, 0); }
    forall i, j | 0 <= i < j < |out| ensures out[i].posting != out[j].posting {
      LegRowsAt(row, legs, 0, i);
      LegRowsAt(row, legs, 0, j);
    }
  }

  /** Rows of distinct stored postings split into rows with distinct ids. */
  lemma {:induction false} SplitIds(rows: seq<Row>, splits: Splits)
    requires DistinctBases(rows)
    ensures DistinctIds(Expand(SplitStage(splits), rows))
  {
    if rows != [] {
      var f := SplitStage(splits);
      SplitIds(rows[1..], splits);
      Agreement.SplitKeepsOrigin(splits);
      var head, tail := f(rows[0]), Expand(f, rows[1..]);
      if rows[0].posting.Stored? && rows[0].posting.key in splits {
        LegIds(rows[0], splits[rows[0].posting.key]);
      }
      forall i, j | 0 <= i < |head| && 0 <= j < |tail| ensures head[i].posting != tail[j].posting {
        ExpandMembers(f, rows[1..], tail[j]);
        var row :| row in rows[1..] && tail[j] in f(row);
        var k :| 0 <= k < |rows[1..]| && rows[1..][k] == row;
        assert rows[k + 1] == row;
        assert head[i] in head;
      }
    }
  }

  lemma RedirectIds(rows: seq<Row>, redirects: Redirects)
    requires DistinctBases(rows)
    ensures DistinctBases(ApplyCategoryRedirects(rows, redirects))
  {
    Agreement.RedirectsNormal(rows, redirects);
    ExpandKeepsDistinctBases(RedirectStage(redirects), rows);
  }

  lemma SplitStageIds(rows: seq<Row>, splits: Splits)
    requires DistinctBases(rows)
    ensures DistinctIds(SplitRows(rows, splits))
  {
    SplitIds(rows, splits);
    SortDistinctIds(Expand(SplitStage(splits), rows));
  }

  lemma OverrideIds(rows: seq<Row>, overrides: Overrides)
    requires DistinctIds(rows)
    ensures DistinctIds(OverrideRows(rows, overrides))
  {
    ExpandKeepsDistinctIds(OverrideStage(overrides), rows);
    SortDistinctIds(Expand(OverrideStage(overrides), rows));
  }

  lemma LinkIds(rows: seq<Row>, links: seq<TransferLink>)
    requires DistinctIds(rows)
    ensures DistinctIds(ApplyTransferLinks(rows, links))
  {
    ExpandKeepsDistinctIds(LinkStage(links), rows);
  }

  lemma ResolveIds(raw: seq<Row>, context: Context, overrides: Overrides)
    requires DistinctBases(raw)
    ensures DistinctIds(Resolve(raw, context, overrides))
  {
    Agreement.ResolveUnfolds(raw, context, overrides);
    RedirectIds(raw, context.redirects);
    var r0 := ApplyCategoryRedirects(raw, context.redirects);
    RuleIds(r0, context);
    var r1 := ApplyRules(r0, context.rules, context.accounts);
    SplitStageIds(r1, context.splits);
    var r2 := SplitRows(r1, context.splits);
    OverrideIds(r2, overrides);
    var r3 := OverrideRows(r2, overrides);
    MergeIds(r3, context.merges);
    LinkIds(MergeRows(r3, context.merges), context.links);
  }

  lemma RuleIds(rows: seq<Row>, context: Context)
    requires DistinctBases(rows)
    ensures DistinctBases(ApplyRules(rows, context.rules, context.accounts))
  {
    var f := CounterpartyStage(rows, context.rules, context.accounts);
    ExpandKeepsDistinctBases(f, rows);
    SortDistinctBases(Expand(f, rows));
  }

  lemma MergeIds(rows: seq<Row>, merges: seq<Merge>)
    requires DistinctIds(rows)
    ensures DistinctIds(MergeRows(rows, merges))
  {
    var f := MergeStage(Dropped(merges), Descriptions(merges));
    ExpandKeepsDistinctIds(f, rows);
    SortDistinctIds(Expand(f, rows));
  }

  // ---------- out of the tables ----------

  lemma {:induction false} SortedKeysDistinct(keys: set<string>)
    ensures forall i, j :: 0 <= i < j < |SortedKeys(keys)| ==> SortedKeys(keys)[i] != SortedKeys(keys)[j]
  {
    if keys != {} {
      var least := LeastKey(keys);
      SortedKeysDistinct(keys - {least});
      var tail := SortedKeys(keys - {least});
      forall j | 0 <= j < |tail| ensures tail[j] != least {
        SortedKeysMembers(keys - {least}, tail[j]);
      }
    }
  }

  lemma {:induction false} RowsAtIds(tb: Tables, keys: seq<string>)
    requires ForeignKeys(tb) && forall k :: k in keys ==> k in tb.postings
    ensures |RowsAt(tb, keys)| == |keys|
    ensures forall i :: 0 <= i < |keys| ==> RowsAt(tb, keys)[i].posting == Stored(keys[i])
  {
    if keys != [] {
      RowsAtIds(tb, keys[1..]);
    }
  }

  lemma LedgerIds(tb: Tables, ts: set<TransactionId>)
    requires ForeignKeys(tb)
    ensures DistinctBases(LoadLedger(tb, ts))
  {
    SortedPostingKeysKnown(tb, ts);
    var keys := SortedKeys(PostingKeys(tb, ts));
    SortedKeysDistinct(PostingKeys(tb, ts));
    RowsAtIds(tb, keys);
    SortDistinctBases(RowsAt(tb, keys));
  }

  lemma {:induction false} DisplayAllRows(rows: seq<Row>, resolved: seq<Row>, raw: seq<Row>, context: Context,
                                          overrides: Overrides)
    ensures var out := DisplayAll(rows, resolved, raw, context, overrides);
      forall i :: 0 <= i < |rows| ==> out[i].row == rows[i]
  {
    if rows != [] {
      DisplayAllRows(rows[1..], resolved, raw, context, overrides);
    }
  }

  ghost predicate DistinctDisplayIds(rows: seq<DisplayRow>) {
    forall i, j :: 0 <= i < j < |rows| ==> rows[i].row.posting != rows[j].row.posting
  }

  /** A batch's resolved ids are distinct, so a recompute never collides with itself. */
  lemma BatchIds(tb: Tables, ts: set<TransactionId>)
    requires Committed(tb)
    ensures DistinctDisplayIds(ResolveBatch(tb, ts))
  {
    var raw, c, o := LoadLedger(tb, ts), LoadContext(tb), LoadOverrides(tb, PostingKeys(tb, ts));
    LedgerIds(tb, ts);
    ResolveIds(raw, c, o);
    var resolved := Resolve(raw, c, o);
    DisplayAllRows(resolved, resolved, raw, c, o);
  }

  /** Every resolved row stands for a stored posting of its own transaction, and only of the batch's. */
  lemma BatchOwners(tb: Tables, ts: set<TransactionId>, d: DisplayRow)
    requires Committed(tb) && d in ResolveBatch(tb, ts)
    ensures Base(d.row.posting) in tb.postings
    ensures tb.postings[Base(d.row.posting)].transaction == d.row.transaction && d.row.transaction in ts
  {
    var raw, c, o := LoadLedger(tb, ts), LoadContext(tb), LoadOverrides(tb, PostingKeys(tb, ts));
    var resolved := Resolve(raw, c, o);
    ResolvedTraces(tb, ts);
    DisplayAllRows(resolved, resolved, raw, c, o);
    var i :| 0 <= i < |resolved| && ResolveBatch(tb, ts)[i] == d;
    assert resolved[i] in resolved;
    assert Agreement.Traces(resolved[i], raw);
    var row :| row in raw && d.row.transaction == row.transaction && Base(d.row.posting) == Base(row.posting);
    Slices.LedgerMembers(tb, ts, row);
  }

  lemma ResolvedTraces(tb: Tables, ts: set<TransactionId>)
    requires Committed(tb)
    ensures var raw, c, o := LoadLedger(tb, ts), LoadContext(tb), LoadOverrides(tb, PostingKeys(tb, ts));
      Agreement.From(Resolve(raw, c, o), raw)
  {
    var raw, c, o := LoadLedger(tb, ts), LoadContext(tb), LoadOverrides(tb, PostingKeys(tb, ts));
    forall row | row in raw ensures Agreement.RowAgrees(row, ts, c, o, c, o) {
      Slices.LedgerMembers(tb, ts, row);
    }
    Slices.AgreesWithItself(raw, ts, c, o, o);
    Agreement.ResolveAgrees(raw, ts, c, o, c, o);
  }
}
