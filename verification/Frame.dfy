/** The posting frame every ledger module reads, and the order it is kept in. */
module Frame {

  datatype Option<+T> = None | Some(value: T)

  /** A transaction is only ever compared with another one, never looked inside. */
  type TransactionId = nat

  /** A stored posting's natural key, or the synthetic id of one leg of its split. */
  datatype PostingId = Stored(key: string) | SplitLeg(of: string, index: nat)

  /** The stored posting an id stands for. */
  function Base(id: PostingId): string {
    match id
    case Stored(key) => key
    case SplitLeg(of, _) => of
  }

  /** The three columns the last overlay stage adds, absent until it runs. */
  datatype LinkMark = LinkMark(partner: TransactionId, source: string)

  datatype Row = Row(
    posting: PostingId,
    transaction: TransactionId,
    account: string,
    postedAt: int,
    amount: int,
    currency: string,
    category: Option<string>,
    subcategory: Option<string>,
    budget: Option<string>,
    tags: set<string>,
    description: string,
    meta: map<string, string>,
    link: Option<LinkMark>)

  // ---------- text order ----------

  function Digits(n: nat): string {
    if n < 10 then ['0' + n as char] else Digits(n / 10) + ['0' + (n % 10) as char]
  }

  function Render(id: PostingId): string {
    match id
    case Stored(key) => key
    case SplitLeg(of, index) => of + ":split:" + Digits(index)
  }

  /** Code-point order on text. */
  predicate TextLe(a: string, b: string) {
    a == [] || (b != [] && (a[0] < b[0] || (a[0] == b[0] && TextLe(a[1..], b[1..]))))
  }

  lemma {:induction false} TextLeTotal(a: string, b: string)
    ensures TextLe(a, b) || TextLe(b, a)
  {
    if a != [] && b != [] && a[0] == b[0] {
      TextLeTotal(a[1..], b[1..]);
    }
  }

  lemma {:induction false} TextLeTransitive(a: string, b: string, c: string)
    requires TextLe(a, b) && TextLe(b, c)
    ensures TextLe(a, c)
  {
    if a != [] && a[0] == b[0] && b[0] == c[0] {
      TextLeTransitive(a[1..], b[1..], c[1..]);
    }
  }

  lemma {:induction false} TextLeAntisymmetric(a: string, b: string)
    requires TextLe(a, b) && TextLe(b, a)
    ensures a == b
  {
    if a != [] {
      TextLeAntisymmetric(a[1..], b[1..]);
      assert a == [a[0]] + a[1..] && b == [b[0]] + b[1..];
    }
  }

  // ---------- frame order ----------

  /** The frame's sort key: date first, then posting id. */
  predicate RowLe(a: Row, b: Row) {
    a.postedAt < b.postedAt || (a.postedAt == b.postedAt && TextLe(Render(a.posting), Render(b.posting)))
  }

  lemma RowLeTotal(a: Row, b: Row)
    ensures RowLe(a, b) || RowLe(b, a)
  {
    TextLeTotal(Render(a.posting), Render(b.posting));
  }

  lemma RowLeTransitive(a: Row, b: Row, c: Row)
    requires RowLe(a, b) && RowLe(b, c)
    ensures RowLe(a, c)
  {
    if a.postedAt == b.postedAt == c.postedAt {
      TextLeTransitive(Render(a.posting), Render(b.posting), Render(c.posting));
    }
  }

  ghost predicate Sorted(rows: seq<Row>) {
    forall i, j :: 0 <= i < j < |rows| ==> RowLe(rows[i], rows[j])
  }

  function Insert(row: Row, rows: seq<Row>): seq<Row> {
    if rows == [] then [row]
    else if RowLe(row, rows[0]) then [row] + rows
    else [rows[0]] + Insert(row, rows[1..])
  }

  /** Stable sort by `RowLe`. */
  function Sort(rows: seq<Row>): seq<Row> {
    if rows == [] then [] else Insert(rows[0], Sort(rows[1..]))
  }

  lemma {:induction false} InsertContents(row: Row, rows: seq<Row>)
    ensures multiset(Insert(row, rows)) == multiset{row} + multiset(rows)
  {
    if rows == [] || RowLe(row, rows[0]) {
    } else {
      InsertContents(row, rows[1..]);
      assert rows == [rows[0]] + rows[1..];
    }
  }

  lemma {:induction false} SortContents(rows: seq<Row>)
    ensures multiset(Sort(rows)) == multiset(rows)
  {
    if rows != [] {
      SortContents(rows[1..]);
      InsertContents(rows[0], Sort(rows[1..]));
      assert rows == [rows[0]] + rows[1..];
    }
  }

  lemma SortMembers(rows: seq<Row>, row: Row)
    ensures row in Sort(rows) <==> row in rows
  {
    SortContents(rows);
    assert row in Sort(rows) <==> row in multiset(Sort(rows));
    assert row in rows <==> row in multiset(rows);
  }

  lemma {:induction false} InsertSorted(row: Row, rows: seq<Row>)
    requires Sorted(rows)
    ensures Sorted(Insert(row, rows))
  {
    if rows == [] {
    } else if RowLe(row, rows[0]) {
      forall j | 0 <= j < |rows| ensures RowLe(row, rows[j]) {
        if j > 0 { RowLeTransitive(row, rows[0], rows[j]); }
      }
    } else {
      InsertSorted(row, rows[1..]);
      RowLeTotal(row, rows[0]);
      var tail := Insert(row, rows[1..]);
      InsertContents(row, rows[1..]);
      forall j | 0 <= j < |tail| ensures RowLe(rows[0], tail[j]) {
        assert tail[j] in multiset(tail);
        if tail[j] != row {
          assert tail[j] in rows[1..];
        }
      }
    }
  }

  lemma {:induction false} SortSorted(rows: seq<Row>)
    ensures Sorted(Sort(rows))
  {
    if rows != [] {
      SortSorted(rows[1..]);
      InsertSorted(rows[0], Sort(rows[1..]));
    }
  }

  lemma {:induction false} SortOfSorted(rows: seq<Row>)
    requires Sorted(rows)
    ensures Sort(rows) == rows
  {
    if rows != [] {
      SortOfSorted(rows[1..]);
      if |rows| > 1 { assert RowLe(rows[0], rows[1..][0]); }
    }
  }

  // ---------- restricting a frame to whole transactions ----------

  function Restrict(rows: seq<Row>, keep: set<TransactionId>): seq<Row> {
    if rows == [] then []
    else if rows[0].transaction in keep then [rows[0]] + Restrict(rows[1..], keep)
    else Restrict(rows[1..], keep)
  }

  lemma {:induction false} RestrictMembers(rows: seq<Row>, keep: set<TransactionId>, row: Row)
    ensures row in Restrict(rows, keep) <==> row in rows && row.transaction in keep
  {
    if rows != [] {
      RestrictMembers(rows[1..], keep, row);
      assert rows == [rows[0]] + rows[1..];
    }
  }

  lemma {:induction false} RestrictConcat(a: seq<Row>, b: seq<Row>, keep: set<TransactionId>)
    ensures Restrict(a + b, keep) == Restrict(a, keep) + Restrict(b, keep)
  {
    if a == [] {
      assert a + b == b;
    } else {
      RestrictConcat(a[1..], b, keep);
      assert (a + b)[1..] == a[1..] + b;
    }
  }

  lemma {:induction false} RestrictTwice(rows: seq<Row>, outer: set<TransactionId>, inner: set<TransactionId>)
    requires inner <= outer
    ensures Restrict(Restrict(rows, outer), inner) == Restrict(rows, inner)
  {
    if rows != [] {
      RestrictTwice(rows[1..], outer, inner);
      if rows[0].transaction in outer {
        assert Restrict(rows, outer)[1..] == Restrict(rows[1..], outer);
      }
    }
  }

  lemma {:induction false} RestrictInsert(row: Row, rows: seq<Row>, keep: set<TransactionId>)
    requires Sorted(rows)
    ensures Restrict(Insert(row, rows), keep)
            == if row.transaction in keep then Insert(row, Restrict(rows, keep)) else Restrict(rows, keep)
  {
    if rows == [] {
    } else if RowLe(row, rows[0]) {
      assert ([row] + rows)[1..] == rows;
      var rest := Restrict(rows, keep);
      if rest != [] {
        RestrictMembers(rows, keep, rest[0]);
        var j :| 0 <= j < |rows| && rows[j] == rest[0];
        if j > 0 { RowLeTransitive(row, rows[0], rows[j]); }
      }
    } else {
      RestrictInsert(row, rows[1..], keep);
      assert ([rows[0]] + Insert(row, rows[1..]))[1..] == Insert(row, rows[1..]);
      if rows[0].transaction in keep {
        assert Restrict(rows, keep)[1..] == Restrict(rows[1..], keep);
      }
    }
  }

  /** Sorting and keeping whole transactions commute, row for row. */
  lemma {:induction false} RestrictSort(rows: seq<Row>, keep: set<TransactionId>)
    ensures Restrict(Sort(rows), keep) == Sort(Restrict(rows, keep))
  {
    if rows != [] {
      RestrictSort(rows[1..], keep);
      SortSorted(rows[1..]);
      RestrictInsert(rows[0], Sort(rows[1..]), keep);
    }
  }

  // ---------- a stage: replace every row by the rows it becomes ----------

  function Expand(f: Row -> seq<Row>, rows: seq<Row>): seq<Row> {
    if rows == [] then [] else f(rows[0]) + Expand(f, rows[1..])
  }

  /** `f` never moves a row to another transaction. */
  ghost predicate KeepsTransaction(f: Row -> seq<Row>) {
    forall row, out :: out in f(row) ==> out.transaction == row.transaction
  }

  lemma {:induction false} ExpandMembers(f: Row -> seq<Row>, rows: seq<Row>, out: Row)
    ensures out in Expand(f, rows) <==> exists row :: row in rows && out in f(row)
  {
    if rows != [] {
      ExpandMembers(f, rows[1..], out);
      assert rows == [rows[0]] + rows[1..];
    }
  }

  lemma {:induction false} ExpandAgrees(f: Row -> seq<Row>, g: Row -> seq<Row>, rows: seq<Row>)
    requires forall row :: row in rows ==> f(row) == g(row)
    ensures Expand(f, rows) == Expand(g, rows)
  {
    if rows != [] {
      assert rows[0] in rows;
      ExpandAgrees(f, g, rows[1..]);
    }
  }

  lemma {:induction false} RestrictAll(rows: seq<Row>, keep: set<TransactionId>)
    requires forall row :: row in rows ==> row.transaction in keep
    ensures Restrict(rows, keep) == rows
  {
    if rows != [] {
      assert rows[0] in rows;
      RestrictAll(rows[1..], keep);
    }
  }

  lemma {:induction false} RestrictNone(rows: seq<Row>, keep: set<TransactionId>)
    requires forall row :: row in rows ==> row.transaction !in keep
    ensures Restrict(rows, keep) == []
  {
    if rows != [] {
      assert rows[0] in rows;
      RestrictNone(rows[1..], keep);
    }
  }

  lemma {:induction false} RestrictExpand(f: Row -> seq<Row>, rows: seq<Row>, keep: set<TransactionId>)
    requires KeepsTransaction(f)
    ensures Restrict(Expand(f, rows), keep) == Expand(f, Restrict(rows, keep))
  {
    if rows != [] {
      RestrictConcat(f(rows[0]), Expand(f, rows[1..]), keep);
      RestrictExpand(f, rows[1..], keep);
      if rows[0].transaction in keep {
        RestrictAll(f(rows[0]), keep);
        assert Restrict(rows, keep)[1..] == Restrict(rows[1..], keep);
      } else {
        RestrictNone(f(rows[0]), keep);
      }
    }
  }
}
