/** The links of the origins list. They name spans and live in the spans' records, so a span without
    a record has none, and reading or writing them is only possible where there is a record. */
module OriginLinks {
  import opened SizeClasses
  import opened Lists
  import opened SpanState

  /** record->coord: the neighbours in the list. */
  datatype Coord = Coord(next: Option<Desc>, prev: Option<Desc>)

  function Nth(list: seq<Desc>, i: int): Option<Desc> {
    if 0 <= i < |list| then Some(list[i]) else None
  }

  /** There are links exactly where there is a record. */
  ghost predicate InRecords(spans: map<Desc, Span>, coords: map<Desc, Coord>) {
    coords.Keys == Holders(spans)
  }

  /** What becomes of the records when one span is written. */
  lemma Written(spans: map<Desc, Span>, d: Desc, sp: Span)
    ensures Holders(spans[d := sp]) == if sp.record.Some? then Holders(spans) + {d} else Holders(spans) - {d}
    ensures d in Holders(spans) <==> d in spans && spans[d].record.Some?
  {
  }

  lemma WithoutOne(spans: map<Desc, Span>, d: Desc)
    ensures Holders(spans - {d}) == Holders(spans) - {d}
  {
  }

  /** Head, tail and links say the same as the sequence, as far as there are links. */
  ghost predicate Chained(list: seq<Desc>, head: Option<Desc>, tail: Option<Desc>, coords: map<Desc, Coord>) {
    && Distinct(list) && head == Nth(list, 0) && tail == Nth(list, |list| - 1)
    && forall i :: 0 <= i < |list| && list[i] in coords ==> coords[list[i]] == Coord(Nth(list, i + 1), Nth(list, i - 1))
  }

  /** The links after a push of `d`, which writes to the head's record. */
  function Pushed(head: Option<Desc>, coords: map<Desc, Coord>, d: Desc): map<Desc, Coord>
    requires d in coords && (head.Some? ==> head.value in coords)
  {
    var own := coords[d := Coord(head, None)];
    if head.Some? then own[head.value := own[head.value].(prev := Some(d))] else own
  }

  lemma PushedChained(list: seq<Desc>, head: Option<Desc>, tail: Option<Desc>, coords: map<Desc, Coord>, d: Desc)
    requires Chained(list, head, tail, coords) && d in coords && d !in list && (head.Some? ==> head.value in coords)
    ensures Chained([d] + list, Some(d), if head.Some? then tail else Some(d), Pushed(head, coords, d))
  {
    var (now, links) := ([d] + list, Pushed(head, coords, d));
    forall i | 0 <= i < |now| && now[i] in links ensures links[now[i]] == Coord(Nth(now, i + 1), Nth(now, i - 1)) {
      assert i > 0 ==> now[i] == list[i - 1] && now[i] != d;
    }
  }

  /** The links after a removal of `r`, which writes to the records of the neighbours. */
  function Closed(coords: map<Desc, Coord>, r: Desc): map<Desc, Coord>
    requires r in coords && (coords[r].prev.Some? ==> coords[r].prev.value in coords)
    requires coords[r].next.Some? ==> coords[r].next.value in coords
  {
    var c := coords[r];
    var left := if c.prev.Some? then coords[c.prev.value := coords[c.prev.value].(next := c.next)] else coords;
    var right := if c.next.Some? then left[c.next.value := left[c.next.value].(prev := c.prev)] else left;
    right[r := Coord(None, None)]
  }

  /** What a removal of the span at `k` needs: it and its neighbours have records. */
  ghost predicate Removable(list: seq<Desc>, coords: map<Desc, Coord>, k: nat) {
    && k < |list| && list[k] in coords
    && (k > 0 ==> list[k - 1] in coords) && (k + 1 < |list| ==> list[k + 1] in coords)
  }

  lemma ClosedChained(list: seq<Desc>, head: Option<Desc>, tail: Option<Desc>, coords: map<Desc, Coord>, k: nat)
    requires Chained(list, head, tail, coords) && Removable(list, coords, k)
    ensures var c := coords[list[k]];
      && c == Coord(Nth(list, k + 1), Nth(list, k - 1))
      && Chained(list[..k] + list[k + 1..], if c.prev.Some? then head else c.next, if c.next.Some? then tail else c.prev, Closed(coords, list[k]))
  {
    var r := list[k];
    var (now, links) := (list[..k] + list[k + 1..], Closed(coords, r));
    forall i | 0 <= i < |now| && now[i] in links ensures links[now[i]] == Coord(Nth(now, i + 1), Nth(now, i - 1)) {
      var j := if i < k then i else i + 1;
      assert now[i] == list[j] && list[j] in coords && list[j] != r;
      assert coords[list[j]] == Coord(Nth(list, j + 1), Nth(list, j - 1));
      assert Nth(now, i + 1) == if i + 1 < k then Nth(list, i + 1) else Nth(list, i + 2);
      assert Nth(now, i - 1) == if i - 1 < k then Nth(list, i - 1) else Nth(list, i);
    }
  }

  // ----- what the methods need of the list -----

  lemma HeadIs(list: seq<Desc>, head: Option<Desc>, tail: Option<Desc>, coords: map<Desc, Coord>)
    requires Chained(list, head, tail, coords)
    ensures head == Nth(list, 0) && Distinct(list)
  {
  }

  /** A span without links can be given any, if it is not in the list. */
  lemma NotLinked(list: seq<Desc>, head: Option<Desc>, tail: Option<Desc>, coords: map<Desc, Coord>, d: Desc)
    requires Chained(list, head, tail, coords) && d !in coords
    ensures coords - {d} == coords
    ensures d !in list ==> Chained(list, head, tail, coords[d := Coord(None, None)])
  {
  }

  lemma LinksDropped(list: seq<Desc>, head: Option<Desc>, tail: Option<Desc>, coords: map<Desc, Coord>, d: Desc)
    requires Chained(list, head, tail, coords)
    ensures Chained(list, head, tail, coords - {d})
  {
  }

  lemma RemovableAt(list: seq<Desc>, head: Option<Desc>, tail: Option<Desc>, coords: map<Desc, Coord>, r: Desc) returns (k: nat)
    requires Chained(list, head, tail, coords) && RemoveSafe(coords.Keys, list, r)
    ensures Removable(list, coords, k) && list[k] == r
    ensures Without(list, r) == list[..k] + list[k + 1..] && r !in Without(list, r)
  {
    k := Place(list, r);
    WithoutAt(list, r);
    WithoutIs(list, r);
  }

  lemma NeighboursLinked(list: seq<Desc>, coords: map<Desc, Coord>, k: nat)
    requires Removable(list, coords, k)
    ensures Nth(list, k - 1).Some? ==> Nth(list, k - 1).value in coords && Nth(list, k - 1).value == list[k - 1]
    ensures Nth(list, k + 1).Some? ==> Nth(list, k + 1).value in coords
  {
  }

  lemma HeadRemoves(holders: set<Desc>, list: seq<Desc>)
    requires Distinct(list) && list != [] && list[0] in holders && (|list| > 1 ==> list[1] in holders)
    ensures RemoveSafe(holders, list, list[0]) && Without(list, list[0]) == list[1..]
  {
  }
}
