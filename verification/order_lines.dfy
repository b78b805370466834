/** Normal form of the lines of an order request: duplicates merged, then sorted by product id.
    A product id is represented by its rank under `localeCompare`, so the ids are strictly and totally ordered by
    `<`. */
module OrderLines {

  type ProductId = int

  datatype Line = Line(productId: ProductId, quantity: nat)

  /** Sum of the raw request lines that name `id`. */
  function SumFor(items: seq<Line>, id: ProductId): nat {
    if items == [] then 0
    else
      var last := items[|items| - 1];
      SumFor(items[..|items| - 1], id) + if last.productId == id then last.quantity else 0
  }

  predicate Mentions(items: seq<Line>, id: ProductId) {
    exists i :: 0 <= i < |items| && items[i].productId == id
  }

  predicate Ascending(lines: seq<Line>) {
    forall i, j :: 0 <= i < j < |lines| ==> lines[i].productId < lines[j].productId
  }

  /** The distinct ids in order of first occurrence: the key order of a JavaScript `Map`. */
  function FirstOccurrences(items: seq<Line>): seq<ProductId> {
    if items == [] then []
    else
      var seen := FirstOccurrences(items[..|items| - 1]);
      var id := items[|items| - 1].productId;
      if id in seen then seen else seen + [id]
  }

  predicate Distinct(ids: seq<ProductId>) {
    forall i, j :: 0 <= i < j < |ids| ==> ids[i] != ids[j]
  }

  function Merged(items: seq<Line>): seq<Line> {
    var ids := FirstOccurrences(items);
    seq(|ids|, i requires 0 <= i < |ids| => Line(ids[i], SumFor(items, ids[i])))
  }

  function Insert(line: Line, sorted: seq<Line>): seq<Line> {
    if sorted == [] || line.productId <= sorted[0].productId then [line] + sorted
    else [sorted[0]] + Insert(line, sorted[1..])
  }

  function SortById(lines: seq<Line>): seq<Line> {
    if lines == [] then [] else Insert(lines[0], SortById(lines[1..]))
  }

  /** What `createOrder` iterates over. */
  function Normalized(items: seq<Line>): seq<Line> {
    SortById(Merged(items))
  }

  /** The loop of `mergeOrderItems`: a map of running totals and its insertion order. */
  method MergeOrderItems(items: seq<Line>) returns (lines: seq<Line>)
    ensures lines == Merged(items)
  {
    var totals: map<ProductId, nat> := map[];
    var order: seq<ProductId> := [];
    for i := 0 to |items|
      invariant order == FirstOccurrences(items[..i])
      invariant forall id :: id in totals <==> id in order
      invariant forall id :: SumFor(items[..i], id) == if id in totals then totals[id] else 0
    {
      assert items[..i + 1][..i] == items[..i];
      var item := items[i];
      if item.productId !in totals {
        order := order + [item.productId];
      }
      var soFar := if item.productId in totals then totals[item.productId] else 0;
      totals := totals[item.productId := soFar + item.quantity];
    }
    assert items[..|items|] == items;
    lines := seq(|order|, i requires 0 <= i < |order| =>
      Line(order[i], if order[i] in totals then totals[order[i]] else 0));
  }

  lemma {:induction false} FirstOccurrencesDistinct(items: seq<Line>)
    ensures Distinct(FirstOccurrences(items))
    ensures forall id :: id in FirstOccurrences(items) <==> Mentions(items, id)
  {
    if items == [] {
    } else {
      var front, last := items[..|items| - 1], items[|items| - 1];
      FirstOccurrencesDistinct(front);
      forall id
        ensures Mentions(items, id) <==> Mentions(front, id) || last.productId == id
      {
        if Mentions(front, id) {
          var i :| 0 <= i < |front| && front[i].productId == id;
          assert items[i].productId == id;
        }
      }
    }
  }

  predicate MentionedEarlier(items: seq<Line>, a: ProductId, b: ProductId) {
    exists k :: 0 <= k < |items| && items[k].productId == a && !Mentions(items[..k + 1], b)
  }

  lemma {:induction false} MentionedEarlierStays(items: seq<Line>, more: Line, a: ProductId, b: ProductId)
    requires MentionedEarlier(items, a, b)
    ensures MentionedEarlier(items + [more], a, b)
  {
    var k :| 0 <= k < |items| && items[k].productId == a && !Mentions(items[..k + 1], b);
    var longer := items + [more];
    assert longer[..k + 1] == items[..k + 1];
    assert longer[k].productId == a;
  }

  /** The merged products come in the order in which they are first mentioned. */
  lemma {:induction false} FirstOccurrencesInOrder(items: seq<Line>, i: nat, j: nat)
    requires i < j < |FirstOccurrences(items)|
    ensures MentionedEarlier(items, FirstOccurrences(items)[i], FirstOccurrences(items)[j])
  {
    var front, last := items[..|items| - 1], items[|items| - 1];
    var seen, ids := FirstOccurrences(front), FirstOccurrences(items);
    assert items == front + [last];
    if j < |seen| {
      FirstOccurrencesInOrder(front, i, j);
      MentionedEarlierStays(front, last, ids[i], ids[j]);
    } else {
      FirstOccurrencesDistinct(front);
      assert ids[i] in seen;
      var k :| 0 <= k < |front| && front[k].productId == ids[i];
      assert items[..k + 1] == front[..k + 1];
      assert forall m :: 0 <= m < k + 1 ==> front[..k + 1][m] == front[m];
      assert items[k].productId == ids[i];
    }
  }

  /** The sum of a request is the sum of its parts, line by line. */
  lemma {:induction false} SumOfConcat(a: seq<Line>, b: seq<Line>, id: ProductId)
    ensures SumFor(a + b, id) == SumFor(a, id) + SumFor(b, id)
    ensures forall line: Line :: SumFor([line], id) == if line.productId == id then line.quantity else 0
  {
    forall line: Line
      ensures SumFor([line], id) == if line.productId == id then line.quantity else 0
    {
      assert [line][..0] == [];
    }
    if b == [] {
      assert a + b == a;
    } else {
      SumOfConcat(a, b[..|b| - 1], id);
      assert (a + b)[..|a + b| - 1] == a + b[..|b| - 1];
    }
  }

  lemma {:induction false} NormalizedIsNotLonger(items: seq<Line>)
    ensures |Normalized(items)| <= |items|
  {
    FirstOccurrencesLength(items);
    SortLength(Merged(items));
  }

  lemma {:induction false} FirstOccurrencesLength(items: seq<Line>)
    ensures |FirstOccurrences(items)| <= |items|
  {
    if items == [] {
    } else {
      FirstOccurrencesLength(items[..|items| - 1]);
    }
  }

  lemma {:induction false} SortLength(lines: seq<Line>)
    ensures |SortById(lines)| == |lines|
  {
    if lines == [] {
    } else {
      SortLength(lines[1..]);
      InsertLength(lines[0], SortById(lines[1..]));
    }
  }

  lemma {:induction false} InsertLength(line: Line, sorted: seq<Line>)
    ensures |Insert(line, sorted)| == |sorted| + 1
  {
    if sorted == [] || line.productId <= sorted[0].productId {
    } else {
      InsertLength(line, sorted[1..]);
    }
  }

  lemma {:induction false} UnmentionedSum(items: seq<Line>, id: ProductId)
    requires !Mentions(items, id)
    ensures SumFor(items, id) == 0
  {
    if items == [] {
    } else {
      var front := items[..|items| - 1];
      assert forall i :: 0 <= i < |front| ==> front[i] == items[i];
      UnmentionedSum(front, id);
      assert items[|items| - 1].productId != id;
    }
  }

  lemma {:induction false} InsertKeepsOrder(line: Line, sorted: seq<Line>)
    requires Ascending(sorted)
    requires forall i :: 0 <= i < |sorted| ==> sorted[i].productId != line.productId
    ensures Ascending(Insert(line, sorted))
    ensures forall l :: l in Insert(line, sorted) <==> l == line || l in sorted
  {
    if sorted != [] && sorted[0].productId < line.productId {
      InsertKeepsOrder(line, sorted[1..]);
      var rest := Insert(line, sorted[1..]);
      forall j | 0 <= j < |rest|
        ensures sorted[0].productId < rest[j].productId
      {
        assert rest[j] in rest;
        if rest[j] in sorted[1..] {
          var k :| 0 <= k < |sorted[1..]| && sorted[1..][k] == rest[j];
          assert sorted[k + 1] == rest[j];
        }
      }
      assert sorted == [sorted[0]] + sorted[1..];
    }
  }

  lemma {:induction false} SortKeepsLines(lines: seq<Line>)
    requires forall i, j :: 0 <= i < j < |lines| ==> lines[i].productId != lines[j].productId
    ensures Ascending(SortById(lines))
    ensures forall l :: l in SortById(lines) <==> l in lines
  {
    if lines == [] {
    } else {
      SortKeepsLines(lines[1..]);
      var sorted := SortById(lines[1..]);
      forall i | 0 <= i < |sorted|
        ensures sorted[i].productId != lines[0].productId
      {
        assert sorted[i] in lines[1..];
      }
      InsertKeepsOrder(lines[0], sorted);
      assert lines == [lines[0]] + lines[1..];
    }
  }

  /** Merging then sorting yields strictly ascending ids that are exactly the mentioned ones, each with its raw sum. */
  lemma {:induction false} NormalFormIsCanonical(items: seq<Line>)
    ensures Ascending(Normalized(items))
    ensures forall i :: 0 <= i < |Normalized(items)| ==>
      Normalized(items)[i].quantity == SumFor(items, Normalized(items)[i].productId)
    ensures forall id :: Mentions(items, id) <==> Mentions(Normalized(items), id)
    ensures forall id :: SumFor(Normalized(items), id) == SumFor(items, id)
  {
    FirstOccurrencesDistinct(items);
    var ids, merged, lines := FirstOccurrences(items), Merged(items), Normalized(items);
    SortKeepsLines(merged);
    forall i | 0 <= i < |lines|
      ensures lines[i].quantity == SumFor(items, lines[i].productId) && lines[i].productId in ids
    {
      assert lines[i] in merged;
    }
    forall id
      ensures Mentions(items, id) <==> Mentions(lines, id)
      ensures SumFor(lines, id) == SumFor(items, id)
    {
      if id in ids {
        var k :| 0 <= k < |ids| && ids[k] == id;
        assert merged[k] in lines;
        var i :| 0 <= i < |lines| && lines[i] == merged[k];
        assert lines[i].productId == id;
        SumOfAscending(lines, i);
      } else {
        UnmentionedSum(items, id);
        UnmentionedSum(lines, id);
      }
    }
  }

  lemma {:induction false} SumOfAscending(lines: seq<Line>, i: nat)
    requires Ascending(lines) && i < |lines|
    ensures SumFor(lines, lines[i].productId) == lines[i].quantity
  {
    var front := lines[..|lines| - 1];
    if i < |front| {
      SumOfAscending(front, i);
      assert front[i] == lines[i];
    } else {
      forall j | 0 <= j < |front|
        ensures front[j].productId != lines[i].productId
      {
        assert front[j] == lines[j];
      }
      UnmentionedSum(front, lines[i].productId);
    }
  }

  ghost predicate SameContent(a: seq<Line>, b: seq<Line>) {
    forall id :: (Mentions(a, id) <==> Mentions(b, id)) && SumFor(a, id) == SumFor(b, id)
  }

  lemma {:induction false} AscendingIsDeterminedByContent(a: seq<Line>, b: seq<Line>)
    requires Ascending(a) && Ascending(b) && SameContent(a, b)
    ensures a == b
  {
    forall i | 0 <= i < |a|
      ensures i < |b| && a[i] == b[i]
    {
      SameAt(a, b, i);
    }
    if a != [] {
      SameAt(a, b, |a| - 1);
    }
    if |a| < |b| {
      assert Mentions(b, b[|a|].productId);
    }
  }

  lemma {:induction false} SameAt(a: seq<Line>, b: seq<Line>, i: nat)
    requires Ascending(a) && Ascending(b) && SameContent(a, b) && i < |a|
    ensures i < |b| && a[i] == b[i]
  {
    forall j | 0 <= j < i
      ensures j < |b| && a[j] == b[j]
    {
      SameAt(a, b, j);
    }
    assert Mentions(a, a[i].productId);
    var k :| 0 <= k < |b| && b[k].productId == a[i].productId;
    assert k >= i;
    assert Mentions(b, b[i].productId);
    var m :| 0 <= m < |a| && a[m].productId == b[i].productId;
    assert m >= i;
    SumOfAscending(a, i);
    SumOfAscending(b, i);
  }

  /** Two requests normalize to the same list exactly when they mention the same products with the same totals. */
  lemma {:induction false} SameNormalFormIff(a: seq<Line>, b: seq<Line>)
    ensures Normalized(a) == Normalized(b) <==> SameContent(a, b)
  {
    NormalFormIsCanonical(a);
    NormalFormIsCanonical(b);
    if SameContent(a, b) {
      AscendingIsDeterminedByContent(Normalized(a), Normalized(b));
    }
  }
}
