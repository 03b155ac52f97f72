/** scache_put_span: the span is released, joined with its free neighbours and binned. */
module SpanPut {
  import opened SizeClasses
  import opened Lists
  import opened SpanState
  import opened SpanInvariants
  import opened SpanSteps
  import opened SpanOps
  import opened SpanGet
  import opened SpanMerge

  ghost predicate Sides(s: Cache, d: Desc, p: Plan) {
    && d in s.spans
    && (p.left.Some? ==> p.left.value in s.spans && p.left.value != d)
    && (p.right.Some? ==> p.right.value in s.spans && p.right.value != d)
    && (p.left.Some? && p.right.Some? ==> p.left != p.right)
  }

  function Leftmost(d: Desc, p: Plan): Desc {
    if p.left.Some? then p.left.value else d
  }

  /** The coalescing calls, left then right. */
  function Coalesced(s: Cache, a: Arena, d: Desc, p: Plan): (s': Cache)
    requires a.cfg.Positive() && Sides(s, d, p)
    ensures Leftmost(d, p) in s'.spans
  {
    var s1 := if p.left.Some? then Coalesce(s, a, p.left.value, d) else s;
    if p.right.Some? then Coalesce(s1, a, Leftmost(d, p), p.right.value) else s1
  }

  /** The same with a trie insert after each. */
  ghost function Joined(s: Cache, a: Arena, d: Desc, p: Plan): (s': Cache)
    requires a.cfg.Positive() && Sides(s, d, p)
  {
    var s1 := if p.left.Some? then Join(s, a, p.left.value, d) else s;
    if p.right.Some? then Join(s1, a, Leftmost(d, p), p.right.value) else s1
  }

  /** Both sides can be joined, one after the other. */
  ghost predicate Joinables(s: Cache, a: Arena, d: Desc, p: Plan) {
    && Sides(s, d, p) && Mine(s, a, d)
    && (p.left.Some? ==> Joinable(s, a, p.left.value, d))
    && (p.right.Some? ==> Joinable(s, a, d, p.right.value))
  }

  lemma SecondJoin(s: Cache, a: Arena, l: Desc, d: Desc, r: Desc)
    requires ValidArena(a) && SpansInv(s, a) && Joinable(s, a, l, d) && Joinable(s, a, d, r) && l != r
    ensures Joinable(Join(s, a, l, d), a, l, r)
  {
    hide WellConfigured, ClassOf;
    assert GoodSpan(a, s.spans[l]) && GoodSpan(a, s.spans[r]) && GoodSpan(a, s.spans[d]);
    hide SpansInv;
  }

  lemma InsertCovers(s: Cache, d: Desc, e: Env)
    requires d in s.spans && PagesOf(s.spans[d]) <= s.paths
    ensures TrieInsert(s, d, e.nodes, e.stop).1 == Cover(s, d)
  {
    hide PagesOf;
  }

  /** Entering a span under its own name again changes nothing. */
  lemma CoverAgain(s: Cache, a: Arena, d: Desc)
    requires ValidArena(a) && SpansInv(s, a) && TrieInv(s, a) && Mine(s, a, d)
    ensures PagesOf(s.spans[d]) <= s.paths && Cover(s, d) == s
  {
    assert GoodSpan(a, s.spans[d]);
    hide WellConfigured, PagesOf, InSpan, GoodSpan, SpansInv;
    CutPages(a, s.spans[d]);
    MappedInside(s, a, d);
    PagesNamed(s, a, d);
    hide TrieInv;
    assert forall p :: p in PagesOf(s.spans[d]) ==> p in s.trie && s.trie[p] == d;
    assert s.trie + (map p | p in PagesOf(s.spans[d]) :: d) == s.trie;
    assert s.paths + PagesOf(s.spans[d]) == s.paths;
  }

  /** The pages of a joined span are those of its parts, so their nodes exist. */
  lemma JoinPaths(s: Cache, a: Arena, l: Desc, r: Desc)
    requires ValidArena(a) && SpansInv(s, a) && TrieInv(s, a) && Joinable(s, a, l, r)
    ensures var t := Coalesce(s, a, l, r).spans[l]; PagesOf(t) <= s.paths && PagesOf(s.spans[l]) <= PagesOf(t)
  {
    assert Coalesce(s, a, l, r).spans[l] == Join(s, a, l, r).spans[l];
    assert GoodSpan(a, s.spans[l]);
    hide WellConfigured, PagesOf, InSpan, GoodSpan, SpansInv, TrieInv, Coalesce, Join;
    JoinGeometry(s, a, l, r);
    JoinOthers(s, Join(s, a, l, r), a, l, r);
    JoinedPages(s, a, l, r);
    CutPages(a, s.spans[l]);
    MappedInside(s, a, l);
    MappedInside(s, a, r);
  }

  /** Coalescing does not look at the trie. */
  lemma CoalesceCover(s: Cache, a: Arena, l: Desc, r: Desc)
    requires a.cfg.Positive() && l in s.spans && r in s.spans && l != r
    ensures var s' := Cover(s, l); Coalesce(s', a, l, r) == Coalesce(s, a, l, r).(trie := s'.trie, paths := s'.paths)
  {
    hide PagesOf, ClassOf, Without;
  }

  /** A second cover by a wider span of the same name hides the first. */
  lemma CoverTwice(s: Cache, l: Desc, pages: set<nat>)
    requires l in s.spans && pages <= PagesOf(s.spans[l])
    ensures Cover(s.(trie := s.trie + (map p | p in pages :: l), paths := s.paths + pages), l) == Cover(s, l)
  {
    hide PagesOf;
    var more := PagesOf(s.spans[l]);
    assert (s.trie + (map p | p in pages :: l)) + (map p | p in more :: l) == s.trie + (map p | p in more :: l);
    assert (s.paths + pages) + more == s.paths + more;
  }

  lemma JoinedTwice(s: Cache, a: Arena, l: Desc, d: Desc, r: Desc, e: Env)
    requires ValidArena(a) && SpansInv(s, a) && TrieInv(s, a) && Joinable(s, a, l, d) && Joinable(s, a, d, r) && l != r
    ensures Joinable(Join(s, a, l, d), a, l, r)
    ensures TrieInsert(Coalesce(Coalesce(s, a, l, d), a, l, r), l, e.nodes, e.stop).1 == Join(Join(s, a, l, d), a, l, r)
  {
    SecondJoin(s, a, l, d, r);
    var c1, j1 := Coalesce(s, a, l, d), Join(s, a, l, d);
    assert j1 == Cover(c1, l) && c1.trie == s.trie && c1.paths == s.paths;
    hide WellConfigured, PagesOf, SpansInv, TrieInv, ClassOf, Joinable, Without;
    JoinTrie(s, a, l, d);
    JoinSpans(s, a, l, d);
    JoinPaths(s, a, l, d);
    JoinPaths(j1, a, l, r);
    CoalesceCover(c1, a, l, r);
    var c2 := Coalesce(c1, a, l, r);
    assert c2.trie == s.trie && c2.paths == s.paths && l in c2.spans;
    hide Coalesce, TrieInsert;
    CoverTwice(c2, l, PagesOf(c1.spans[l]));
    InsertCovers(c2, l, e);
  }

  /** The one insert at the end does what an insert after each join would. */
  lemma JoinedIs(s: Cache, a: Arena, d: Desc, p: Plan, e: Env)
    requires ValidArena(a) && SpansInv(s, a) && TrieInv(s, a) && Joinables(s, a, d, p)
    ensures TrieInsert(Coalesced(s, a, d, p), Leftmost(d, p), e.nodes, e.stop).1 == Joined(s, a, d, p)
  {
    hide WellConfigured, PagesOf, SpansInv, TrieInv, ClassOf, TrieInsert, Coalesce, Cover;
    if p.left.Some? && p.right.Some? {
      JoinedTwice(s, a, p.left.value, d, p.right.value, e);
    } else if p.left.Some? {
      JoinPaths(s, a, p.left.value, d);
      CoalescePaths(s, a, p.left.value, d);
      InsertCovers(Coalesce(s, a, p.left.value, d), p.left.value, e);
    } else if p.right.Some? {
      JoinPaths(s, a, d, p.right.value);
      CoalescePaths(s, a, d, p.right.value);
      InsertCovers(Coalesce(s, a, d, p.right.value), d, e);
    } else {
      CoverAgain(s, a, d);
      InsertCovers(s, d, e);
    }
  }

  lemma CoalescePaths(s: Cache, a: Arena, l: Desc, r: Desc)
    requires a.cfg.Positive() && l in s.spans && r in s.spans && l != r
    ensures Coalesce(s, a, l, r).paths == s.paths && l in Coalesce(s, a, l, r).spans
  {
  }

  // ----- what the joins keep -----

  lemma JoinedCore(s: Cache, a: Arena, d: Desc, p: Plan, hand: set<Desc>)
    requires ValidArena(a) && CoreInv(s, a, hand) && Joinables(s, a, d, p) && hand == InHand(d, p)
    ensures CoreInv(Joined(s, a, d, p), a, {Leftmost(d, p)})
  {
    hide WellConfigured, SpansInv, TrieInv, BinsInv, Join, Joinable;
    var s1 := if p.left.Some? then Join(s, a, p.left.value, d) else s;
    if p.left.Some? {
      JoinCore(s, a, p.left.value, d, hand);
      if p.right.Some? {
        SecondJoin(s, a, p.left.value, d, p.right.value);
        JoinCore(s1, a, p.left.value, p.right.value, hand - {d});
        assert hand - {d} - {p.right.value} == {p.left.value};
      } else {
        assert hand - {d} == {p.left.value};
      }
    } else if p.right.Some? {
      JoinCore(s, a, d, p.right.value, hand);
      assert hand - {p.right.value} == {d};
    }
  }

  lemma JoinedNeat(s: Cache, a: Arena, d: Desc, p: Plan, hand: set<Desc>)
    requires ValidArena(a) && CoreInv(s, a, hand) && Joinables(s, a, d, p) && hand == InHand(d, p)
    requires NeatInv(s, a, hand)
    requires LeftLonely(s, a, hand, Leftmost(d, p))
    requires RightLonely(s, a, hand, if p.right.Some? then p.right.value else d)
    ensures var s' := Joined(s, a, d, p); var m := Leftmost(d, p);
      && NeatInv(s', a, {m}) && (!a.crossMerge && OriginsInv(s, a) ==> OriginsInv(s', a))
      && m in s'.spans && Lonely(s', a, {m}, m)
  {
    hide WellConfigured, SpansInv, TrieInv, BinsInv, Join, NeatInv, OriginsInv, FreeSpan, Adjacent, CanMerge;
    hide LeftLonely, RightLonely;
    var m := Leftmost(d, p);
    var s1 := if p.left.Some? then Join(s, a, p.left.value, d) else s;
    var h1 := if p.left.Some? then hand - {d} else hand;
    if p.left.Some? {
      JoinCore(s, a, m, d, hand);
      JoinNeat(s, a, m, d, hand);
      JoinLonely(s, a, m, d, hand);
    }
    if p.right.Some? {
      if p.left.Some? {
        SecondJoin(s, a, m, d, p.right.value);
        JoinOtherLonely(s, a, m, d, hand, p.right.value);
      }
      JoinNeat(s1, a, m, p.right.value, h1);
      JoinLonely(s1, a, m, p.right.value, h1);
      assert h1 - {p.right.value} == {m};
    } else {
      assert h1 == {m};
    }
    BothLonely(Joined(s, a, d, p), a, {m}, m);
  }

  lemma JoinOtherLonely(s: Cache, a: Arena, l: Desc, r: Desc, hand: set<Desc>, x: Desc)
    requires BinsInv(s, a, hand) && a.cfg.Positive() && Joinable(s, a, l, r) && l in hand && r in hand
    requires x in s.spans && x != l && x != r && RightLonely(s, a, hand, x)
    ensures x in Join(s, a, l, r).spans && RightLonely(Join(s, a, l, r), a, hand - {r}, x)
  {
    JoinGeometry(s, a, l, r);
    JoinFree(s, a, l, r, hand);
    hide Join, BinsInv;
    hide FreeSpan, Adjacent;
  }

  lemma BothLonely(s: Cache, a: Arena, hand: set<Desc>, d: Desc)
    requires d in s.spans && LeftLonely(s, a, hand, d) && RightLonely(s, a, hand, d)
    ensures Lonely(s, a, hand, d)
  {
  }

  // ----- scache_put_span -----

  function Release(s: Cache, d: Desc): Cache
    requires d in s.spans
  {
    SetAlloc(MarkSlab(s, d, false), d, false)
  }

  lemma ReleaseIs(s: Cache, d: Desc)
    requires d in s.spans
    ensures var s' := Release(s, d);
      && OnlyFlagsOf(s, s', d) && s'.bins == s.bins && s'.bitmap == s.bitmap
      && s'.spans[d] == s.spans[d].(isAlloc := false, isSlab := false)
  {
  }

  lemma FreeSameFree(s: Cache, s': Cache, a: Arena, d: Desc)
    requires OnlyFlagsOf(s, s', d) && s'.bins == s.bins && s'.bitmap == s.bitmap && Mine(s, a, d)
    requires s.spans[d].isAlloc && !s'.spans[d].isAlloc
    ensures SameFree(s, s', a, {}, {d}) && Mine(s', a, d)
  {
    assert forall e :: Mine(s', a, e) <==> Mine(s, a, e);
  }

  lemma ReleaseKeeps(s: Cache, a: Arena, d: Desc)
    requires ValidArena(a) && CoreInv(s, a, {}) && Mine(s, a, d) && s.spans[d].isAlloc
    ensures var s' := Release(s, d);
      && CoreInv(s', a, {d}) && OnlyFlagsOf(s, s', d)
      && (NeatInv(s, a, {}) ==> NeatInv(s', a, {d})) && (OriginsInv(s, a) ==> OriginsInv(s', a))
  {
    ReleaseIs(s, d);
    var s' := Release(s, d);
    hide WellConfigured, SpansInv, TrieInv, RegionsInv, HomeInv, OriginsInv, CoalescedInv, BinsInv, Release, SamePlaces;
    InRange(s, a, {});
    FlagStates(s, s', a, d);
    PlacesKeep(s, s', a);
    FreeSameFree(s, s', a, d);
    hide SameFree;
    SameFreeKeeps(s, s', a, {}, {d});
  }

  lemma PlanSides(s: Cache, a: Arena, d: Desc, p: Plan)
    requires ValidArena(a) && PlanOk(s, a, d, p)
    ensures Joinables(Removed(s, a, d, p), a, d, p)
  {
    hide WellConfigured, CoreInv, Removed;
    if p.left.Some? && p.right.Some? {
      SidesDiffer(s, a, d, p);
    }
    RemovedKeeps(s, a, d, p);
  }

  ghost predicate PutCall(s: Cache, a: Arena, d: Desc)
    requires ValidArena(a)
  {
    CoreInv(s, a, {}) && Mine(s, a, d) && s.spans[d].isAlloc
  }

  /** scache_merge_adj for a span in hand; the result of the trie insert is ignored. */
  ghost function MergeAdj(s: Cache, a: Arena, d: Desc, e: Env): (r: (Desc, Cache))
    requires ValidArena(a) && CoreInv(s, a, {d})
    ensures r.0 in r.1.spans
  {
    PlanIsOk(s, a, d);
    var p := MakePlan(s, a, d);
    PlanSides(s, a, d, p);
    (Leftmost(d, p), TrieInsert(Coalesced(Removed(s, a, d, p), a, d, p), Leftmost(d, p), e.nodes, e.stop).1)
  }

  lemma MergeAdjCore(s: Cache, a: Arena, d: Desc, e: Env)
    requires ValidArena(a) && CoreInv(s, a, {d})
    ensures var (m, s') := MergeAdj(s, a, d, e); CoreInv(s', a, {m}) && SetAlloc(s', m, false) == s'
  {
    hide WellConfigured, Removed, Coalesced, Joined, TrieInsert, SpansInv, TrieInv, BinsInv, Joinables, PlanOk;
    PlanIsOk(s, a, d);
    var p := MakePlan(s, a, d);
    PlanSides(s, a, d, p);
    RemovedKeeps(s, a, d, p);
    JoinedIs(Removed(s, a, d, p), a, d, p, e);
    JoinedCore(Removed(s, a, d, p), a, d, p, InHand(d, p));
    var (m, s') := MergeAdj(s, a, d, e);
    HandReady(s', a, {m}, m);
    HandNotAlloc(s', a, m);
  }

  lemma HandNotAlloc(s: Cache, a: Arena, m: Desc)
    requires BinsInv(s, a, {m}) && m in s.spans
    ensures SetAlloc(s, m, false) == s
  {
    assert m in {m};
    assert s.spans[m := s.spans[m].(isAlloc := false)] == s.spans;
  }

  lemma MergeAdjNeat(s: Cache, a: Arena, d: Desc, e: Env)
    requires ValidArena(a) && CoreInv(s, a, {d}) && NeatInv(s, a, {d})
    ensures var (m, s') := MergeAdj(s, a, d, e);
      NeatInv(s', a, {m}) && Lonely(s', a, {m}, m) && (!a.crossMerge && OriginsInv(s, a) ==> OriginsInv(s', a))
  {
    hide WellConfigured, Removed, Coalesced, Joined, TrieInsert, SpansInv, TrieInv, BinsInv, Joinables, PlanOk;
    hide ApartInv, OriginsInv, Lonely, LeftLonely, RightLonely, CanMerge, LeftOf, RightOf;
    PlanIsOk(s, a, d);
    var p := MakePlan(s, a, d);
    PlanSides(s, a, d, p);
    RemovedKeeps(s, a, d, p);
    JoinedIs(Removed(s, a, d, p), a, d, p, e);
    AloneUnlessMerged(s, a, d, {d});
    MergeableHere(s, a, d);
    RemovedLonely(s, a, d, p);
    JoinedNeat(Removed(s, a, d, p), a, d, p, InHand(d, p));
  }

  lemma MergeableHere(s: Cache, a: Arena, d: Desc)
    requires d in s.spans && s.spans[d].addr > 0
    ensures MakePlan(s, a, d).left.None? ==> !CanMerge(s, a, LeftOf(s, d), Some(d))
    ensures MakePlan(s, a, d).right.None? ==> !CanMerge(s, a, Some(d), RightOf(s, d))
  {
  }

  /** scache_put_span. */
  ghost function PutSpan(s: Cache, a: Arena, d: Desc, e: Env): Cache
    requires ValidArena(a) && PutCall(s, a, d)
  {
    ReleaseKeeps(s, a, d);
    var (m, s1) := MergeAdj(Release(s, d), a, d, e);
    MergeAdjCore(Release(s, d), a, d, e);
    HandReady(s1, a, {m}, m);
    BinPut(SetAlloc(s1, m, false), m)
  }

  lemma PutSpanCore(s: Cache, a: Arena, d: Desc, e: Env)
    requires ValidArena(a) && PutCall(s, a, d)
    ensures CoreInv(PutSpan(s, a, d, e), a, {})
  {
    hide WellConfigured, SpansInv, TrieInv, BinsInv, MergeAdj, Release, SetAlloc, BinPut;
    ReleaseKeeps(s, a, d);
    MergeAdjCore(Release(s, d), a, d, e);
    var (m, s1) := MergeAdj(Release(s, d), a, d, e);
    HandReady(s1, a, {m}, m);
    PutCore(s1, a, m, {m});
    assert {m} - {m} == {};
  }

  /** Freeing a span leaves no two free neighbours, whatever lies beside it. */
  lemma PutSpanNeat(s: Cache, a: Arena, d: Desc, e: Env)
    requires ValidArena(a) && PutCall(s, a, d) && NeatInv(s, a, {})
    ensures NeatInv(PutSpan(s, a, d, e), a, {})
    ensures !a.crossMerge && OriginsInv(s, a) ==> OriginsInv(PutSpan(s, a, d, e), a)
  {
    hide WellConfigured, SpansInv, TrieInv, BinsInv, MergeAdj, Release, SetAlloc, BinPut, ApartInv, OriginsInv, Lonely, CoalescedInv;
    ReleaseKeeps(s, a, d);
    MergeAdjCore(Release(s, d), a, d, e);
    MergeAdjNeat(Release(s, d), a, d, e);
    var (m, s1) := MergeAdj(Release(s, d), a, d, e);
    HandReady(s1, a, {m}, m);
    PutCore(s1, a, m, {m});
    PutLonely(s1, a, m);
    assert {m} - {m} == {};
  }
}
