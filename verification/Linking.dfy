/** The last overlay stage: marking the two sides of a confirmed transfer (accounting/ledger/transfers.py). */
module Linking {
  import opened Frame

  datatype LinkSource = Manual | Rule

  /** A confirmed pairing, its two transactions in canonical order. */
  datatype TransferLink = TransferLink(a: TransactionId, b: TransactionId, source: LinkSource, rule: Option<string>)

  function SourceText(source: LinkSource): string {
    match source
    case Manual => "manual"
    case Rule => "rule"
  }

  /** Sort the pair once, so both orders name the same link. */
  function MakeTransferLink(x: TransactionId, y: TransactionId, source: LinkSource, rule: Option<string>)
    : TransferLink
  {
    if x <= y then TransferLink(x, y, source, rule) else TransferLink(y, x, source, rule)
  }

  predicate Joins(link: TransferLink, transaction: TransactionId) {
    link.a == transaction || link.b == transaction
  }

  /** What one link says about one of its members. */
  function MarkFrom(link: TransferLink, transaction: TransactionId): LinkMark {
    LinkMark(if link.a == transaction then link.b else link.a, SourceText(link.source))
  }

  /** The first link naming the transaction: a duplicate key keeps its first entry. */
  function LinkFor(links: seq<TransferLink>, transaction: TransactionId): Option<LinkMark> {
    if links == [] then None
    else if Joins(links[0], transaction) then Some(MarkFrom(links[0], transaction))
    else LinkFor(links[1..], transaction)
  }

  function LinkStage(links: seq<TransferLink>): Row -> seq<Row> {
    (row: Row) => [row.(link := LinkFor(links, row.transaction))]
  }

  function ApplyTransferLinks(rows: seq<Row>, links: seq<TransferLink>): seq<Row> {
    Expand(LinkStage(links), rows)
  }

  /** Every transaction is in at most one link, and never paired with itself. */
  ghost predicate Matching(links: seq<TransferLink>) {
    && (forall i :: 0 <= i < |links| ==> links[i].a != links[i].b)
    && (forall i, j, t :: 0 <= i < j < |links| ==> !(Joins(links[i], t) && Joins(links[j], t)))
  }

  lemma {:induction false} LinkForFinds(links: seq<TransferLink>, transaction: TransactionId)
    ensures LinkFor(links, transaction).None? <==> forall i :: 0 <= i < |links| ==> !Joins(links[i], transaction)
    ensures LinkFor(links, transaction).Some? ==>
      exists i :: 0 <= i < |links| && Joins(links[i], transaction)
        && LinkFor(links, transaction).value == MarkFrom(links[i], transaction)
  {
    if links != [] {
      if Joins(links[0], transaction) {
      } else {
        LinkForFinds(links[1..], transaction);
        if LinkFor(links, transaction).Some? {
          var i :| 0 <= i < |links| - 1 && Joins(links[1..][i], transaction)
            && LinkFor(links[1..], transaction).value == MarkFrom(links[1..][i], transaction);
          assert links[i + 1] == links[1..][i];
        } else {
          forall i | 0 <= i < |links| ensures !Joins(links[i], transaction) {
            if i > 0 { assert links[i] == links[1..][i - 1]; }
          }
        }
      }
    }
  }

  /** On a matching, marking is an involution on partners, with one source on both sides. */
  lemma PartnersAreMutual(links: seq<TransferLink>, t: TransactionId)
    requires Matching(links)
    ensures var mark := LinkFor(links, t);
      mark.Some? ==>
        && mark.value.partner != t
        && LinkFor(links, mark.value.partner) == Some(LinkMark(t, mark.value.source))
  {
    LinkForFinds(links, t);
    var mark := LinkFor(links, t);
    if mark.Some? {
      var i :| 0 <= i < |links| && Joins(links[i], t) && mark.value == MarkFrom(links[i], t);
      var u := mark.value.partner;
      LinkForFinds(links, u);
      assert Joins(links[i], u);
      var j :| 0 <= j < |links| && Joins(links[j], u) && LinkFor(links, u).value == MarkFrom(links[j], u);
      assert i == j;
    }
  }

  /** Linking never adds, drops or reorders a row: it only sets the link columns. */
  lemma {:induction false} LinkingOnlyMarks(rows: seq<Row>, links: seq<TransferLink>)
    ensures |ApplyTransferLinks(rows, links)| == |rows|
    ensures forall i :: 0 <= i < |rows| ==>
      ApplyTransferLinks(rows, links)[i] == rows[i].(link := LinkFor(links, rows[i].transaction))
  {
    if rows != [] {
      LinkingOnlyMarks(rows[1..], links);
    }
  }
}
