/** Merging a span in hand with its free neighbours, found through the page trie. */
module SpanMerge {
  import opened Bits
  import opened SizeClasses
  import opened SpanState
  import opened SpanInvariants
  import opened SpanSteps
  import opened SpanOps
  import opened SpanGet

  // ----- neighbours -----

  function LeftOf(s: Cache, d: Desc): Option<Desc>
    requires d in s.spans && s.spans[d].addr > 0
  {
    Lookup(s, s.spans[d].addr - 1)
  }

  function RightOf(s: Cache, d: Desc): Option<Desc>
    requires d in s.spans
  {
    Lookup(s, s.spans[d].addr + s.spans[d].nbytes)
  }

  ghost predicate LeftLonely(s: Cache, a: Arena, hand: set<Desc>, d: Desc)
    requires d in s.spans
  {
    forall e :: FreeSpan(s, a, hand, e) ==> !Adjacent(s.spans[e], s.spans[d])
  }

  ghost predicate RightLonely(s: Cache, a: Arena, hand: set<Desc>, d: Desc)
    requires d in s.spans
  {
    forall e :: FreeSpan(s, a, hand, e) ==> !Adjacent(s.spans[d], s.spans[e])
  }

  lemma SlotOf(p: nat, addr: nat)
    requires p * TRIE_PAGE <= addr < (p + 1) * TRIE_PAGE && addr < ADDR_MAX
    ensures addr / TRIE_PAGE % TRIE_SLOTS == p
  {
    assert addr / TRIE_PAGE == p;
    DivUnique(p, TRIE_SLOTS, 0, p);
  }

  /** The trie finds the span that holds an address. */
  lemma LookupFinds(s: Cache, a: Arena, e: Desc, p: nat, addr: nat)
    requires ValidArena(a) && SpansInv(s, a) && TrieInv(s, a) && Mine(s, a, e) && InSpan(s.spans[e], p)
    requires p * TRIE_PAGE <= addr < (p + 1) * TRIE_PAGE && addr < ADDR_MAX
    ensures Lookup(s, addr) == Some(e)
  {
    hide WellConfigured, GoodSpan, InSpan;
    PagesNamed(s, a, e);
    SlotOf(p, addr);
  }

  /** A free left neighbour of the same mapping would have been found and could be merged. */
  lemma LeftFound(s: Cache, a: Arena, d: Desc, e: Desc)
    requires ValidArena(a) && SpansInv(s, a) && TrieInv(s, a) && Mine(s, a, d) && Mine(s, a, e)
    requires s.spans[d].addr > 0 && !s.spans[d].isAlloc && !s.spans[e].isAlloc && Adjacent(s.spans[e], s.spans[d])
    ensures LeftOf(s, d) == Some(e) && CanMerge(s, a, LeftOf(s, d), Some(d))
  {
    hide WellConfigured, ClassOf, TrieInv, InSpan;
    assert GoodSpan(a, s.spans[d]) && GoodSpan(a, s.spans[e]);
    var p, q := EndPages(a, s.spans[e]);
    LookupFinds(s, a, e, q, s.spans[d].addr - 1);
    hide SpansInv;
  }

  lemma RightFound(s: Cache, a: Arena, d: Desc, e: Desc)
    requires ValidArena(a) && SpansInv(s, a) && TrieInv(s, a) && Mine(s, a, d) && Mine(s, a, e)
    requires !s.spans[d].isAlloc && !s.spans[e].isAlloc && Adjacent(s.spans[d], s.spans[e])
    ensures RightOf(s, d) == Some(e) && CanMerge(s, a, Some(d), RightOf(s, d))
  {
    hide WellConfigured, ClassOf, TrieInv, InSpan;
    assert GoodSpan(a, s.spans[d]) && GoodSpan(a, s.spans[e]);
    var p, q := EndPages(a, s.spans[e]);
    LookupFinds(s, a, e, p, s.spans[e].addr);
    hide SpansInv;
  }

  /** No merge on a side means no free neighbour there. */
  lemma AloneUnlessMerged(s: Cache, a: Arena, d: Desc, hand: set<Desc>)
    requires ValidArena(a) && SpansInv(s, a) && TrieInv(s, a) && Mine(s, a, d) && !s.spans[d].isAlloc && s.spans[d].addr > 0
    ensures !CanMerge(s, a, LeftOf(s, d), Some(d)) ==> LeftLonely(s, a, hand, d)
    ensures !CanMerge(s, a, Some(d), RightOf(s, d)) ==> RightLonely(s, a, hand, d)
  {
    hide WellConfigured, SpansInv, TrieInv, CanMerge, LeftOf, RightOf, Adjacent;
    forall e | FreeSpan(s, a, hand, e)
      ensures Adjacent(s.spans[e], s.spans[d]) ==> CanMerge(s, a, LeftOf(s, d), Some(d))
      ensures Adjacent(s.spans[d], s.spans[e]) ==> CanMerge(s, a, Some(d), RightOf(s, d))
    {
      if Adjacent(s.spans[e], s.spans[d]) {
        LeftFound(s, a, d, e);
      }
      if Adjacent(s.spans[d], s.spans[e]) {
        RightFound(s, a, d, e);
      }
    }
  }

  /** A neighbour that can be merged is a free span of this arena, other than the span itself. */
  lemma MergeableIsFree(s: Cache, a: Arena, l: Desc, r: Desc, d: Desc)
    requires ValidArena(a) && SpansInv(s, a) && CanMerge(s, a, Some(l), Some(r)) && (d == l || d == r) && Mine(s, a, d)
    ensures Joinable(s, a, l, r)
    ensures d == l ==> FreeSpan(s, a, {d}, r)
    ensures d == r ==> FreeSpan(s, a, {d}, l)
  {
    hide WellConfigured, ClassOf;
    assert GoodSpan(a, s.spans[d]);
  }

  // ----- taking a neighbour out of its bin -----

  lemma RemoveReady(s: Cache, a: Arena, x: Desc, hand: set<Desc>)
    requires BinsInv(s, a, hand) && FreeSpan(s, a, hand, x)
    ensures Shape(s, |s.bins|) && 0 <= s.spans[x].szclass < |s.bins| && s.spans[x].state < SPAN_NSTATES
    ensures InBucket(s, s.spans[x].szclass, s.spans[x].state, x) && s.bins[s.spans[x].szclass].nspans > 0
  {
    assert InBucket(s, s.spans[x].szclass, s.spans[x].state, x);
    assert BinCounts(s.bins[s.spans[x].szclass]);
  }

  lemma RemoveKeeps(s: Cache, a: Arena, x: Desc, hand: set<Desc>)
    requires ValidArena(a) && CoreInv(s, a, hand) && FreeSpan(s, a, hand, x)
    ensures Shape(s, |s.bins|) && 0 <= s.spans[x].szclass < |s.bins|
    ensures s.spans[x].state < SPAN_NSTATES && s.bins[s.spans[x].szclass].nspans > 0
    ensures var s' := BinRemove(s, x);
      && CoreInv(s', a, hand + {x}) && OnlyFlagsOf(s, s', x) && !s'.spans[x].isAlloc
      && (ApartInv(s, a) ==> ApartInv(s', a)) && (OriginsInv(s, a) ==> OriginsInv(s', a))
      && (CoalescedInv(s, a, hand) ==> CoalescedInv(s', a, hand + {x}) && Lonely(s', a, hand + {x}, x))
  {
    RemoveReady(s, a, x, hand);
    var (c, k) := (s.spans[x].szclass, s.spans[x].state);
    hide WellConfigured, SpansInv, TrieInv, BinsInv, Unbin, OriginsInv, RegionsInv, HomeInv, CoalescedInv, Lonely;
    UnbinKeeps(s, a, c, k, x, s.bins[c].epochMin, hand);
    var s' := BinRemove(s, x);
    StatesStay(s, s', a, x);
    PlacesKeep(s, s', a);
    if CoalescedInv(s, a, hand) {
      UnbinCoalesced(s, a, c, k, x, s.bins[c].epochMin, hand);
    }
  }

  /** Taking another span in hand leaves nobody a new neighbour. */
  lemma StillLonely(s: Cache, s': Cache, a: Arena, hand: set<Desc>, x: Desc, d: Desc)
    requires OnlyFlagsOf(s, s', x) && d in s.spans && s'.spans[x].isAlloc == s.spans[x].isAlloc
    ensures LeftLonely(s, a, hand, d) ==> LeftLonely(s', a, hand + {x}, d)
    ensures RightLonely(s, a, hand, d) ==> RightLonely(s', a, hand + {x}, d)
  {
    assert SamePlaces(s, s');
    forall e | FreeSpan(s', a, hand + {x}, e)
      ensures FreeSpan(s, a, hand, e) && s'.spans[e] == s.spans[e]
    {
    }
    assert forall y :: Adjacent(y, s'.spans[d]) <==> Adjacent(y, s.spans[d]);
    assert forall y :: Adjacent(s'.spans[d], y) <==> Adjacent(s.spans[d], y);
    hide FreeSpan, Adjacent, SamePlaces;
  }

  // ----- joining -----

  lemma JoinCore(s: Cache, a: Arena, l: Desc, r: Desc, hand: set<Desc>)
    requires ValidArena(a) && CoreInv(s, a, hand) && Joinable(s, a, l, r) && l in hand && r in hand
    ensures CoreInv(Join(s, a, l, r), a, hand - {r})
  {
    hide WellConfigured, SpansInv, TrieInv, Join;
    JoinTrie(s, a, l, r);
    JoinSpans(s, a, l, r);
    JoinFree(s, a, l, r, hand);
    hide BinsInv;
    SameFreeKeeps(s, Join(s, a, l, r), a, hand, hand - {r});
  }

  lemma JoinNeat(s: Cache, a: Arena, l: Desc, r: Desc, hand: set<Desc>)
    requires ValidArena(a) && CoreInv(s, a, hand) && Joinable(s, a, l, r) && l in hand && r in hand
    requires NeatInv(s, a, hand)
    ensures NeatInv(Join(s, a, l, r), a, hand - {r})
    ensures !a.crossMerge && OriginsInv(s, a) ==> OriginsInv(Join(s, a, l, r), a)
  {
    hide WellConfigured, SpansInv, TrieInv, Join, CoalescedInv, ApartInv, OriginsInv;
    JoinApart(s, a, l, r);
    if !a.crossMerge && OriginsInv(s, a) {
      JoinOrigins(s, a, l, r);
    }
    JoinFree(s, a, l, r, hand);
    hide BinsInv;
    SameFreeKeeps(s, Join(s, a, l, r), a, hand, hand - {r});
  }

  /** Of three spans in a row of which the outer two have one age, the middle one is not younger. */
  lemma NoRidgeOf(s: Cache, a: Arena, d: Desc, l: Desc, r: Desc)
    requires ValidArena(a) && SpansInv(s, a) && TrieInv(s, a) && BlendInv(s) && Mine(s, a, d) && Mine(s, a, l) && Mine(s, a, r)
    requires s.spans[d].addr + s.spans[d].nbytes == s.spans[l].addr && s.spans[l].addr + s.spans[l].nbytes == s.spans[r].addr
    requires s.spans[d].age == s.spans[r].age
    ensures s.spans[l].age <= s.spans[d].age
  {
    assert GoodSpan(a, s.spans[d]) && GoodSpan(a, s.spans[l]) && GoodSpan(a, s.spans[r]);
    hide WellConfigured, ClassOf, SpansInv, TrieInv, Ages, Valley;
    AgesAre(s, a);
    StartPage(s, a, d);
    StartPage(s, a, l);
    StartPage(s, a, r);
    ValleyAt(Ages(s), s.spans[d].addr / TRIE_PAGE, s.spans[l].addr / TRIE_PAGE, s.spans[r].addr / TRIE_PAGE);
  }

  lemma StartPage(s: Cache, a: Arena, d: Desc)
    requires ValidArena(a) && Mine(s, a, d) && GoodSpan(a, s.spans[d])
    ensures InSpan(s.spans[d], s.spans[d].addr / TRIE_PAGE) && s.spans[d].addr % TRIE_PAGE == 0
  {
    hide WellConfigured, ClassOf;
    GoodPages(a, s.spans[d]);
  }

  /** The joined span has its left part's left neighbours and its right part's right ones, and none
      of another age that has become its own. */
  lemma JoinLonely(s: Cache, a: Arena, l: Desc, r: Desc, hand: set<Desc>)
    requires ValidArena(a) && CoreInv(s, a, hand) && NeatInv(s, a, hand) && Joinable(s, a, l, r) && l in hand && r in hand
    ensures l in Join(s, a, l, r).spans
    ensures LeftLonely(s, a, hand, l) ==> LeftLonely(Join(s, a, l, r), a, hand - {r}, l)
    ensures RightLonely(s, a, hand, r) ==> RightLonely(Join(s, a, l, r), a, hand - {r}, l)
  {
    var s' := Join(s, a, l, r);
    JoinFields(s, a, l, r);
    JoinGeometry(s, a, l, r);
    JoinFree(s, a, l, r, hand);
    hide WellConfigured, Join, BinsInv, SpansInv, TrieInv, RegionsInv, HomeInv, BlendInv;
    assert !a.crossMerge ==> s.spans[l].age == s.spans[r].age;
    forall e | FreeSpan(s, a, hand, e) && LeftLonely(s, a, hand, l) ensures !Adjacent(s.spans[e], s'.spans[l]) {
      if Adjacent(s.spans[e], s'.spans[l]) {
        NoRidgeOf(s, a, e, l, r);
      }
    }
    forall e | FreeSpan(s, a, hand, e) && RightLonely(s, a, hand, r) ensures !Adjacent(s'.spans[l], s.spans[e]) {
      if Adjacent(s'.spans[l], s.spans[e]) {
        NoRidgeOf(s, a, l, r, e);
      }
    }
  }

  // ----- scache_merge_adj -----

  /** What the lookups and span_can_merge decide before anything is changed. */
  datatype Plan = Plan(left: Option<Desc>, right: Option<Desc>)

  function MakePlan(s: Cache, a: Arena, d: Desc): Plan
    requires d in s.spans && s.spans[d].addr > 0
  {
    Plan(if CanMerge(s, a, LeftOf(s, d), Some(d)) then LeftOf(s, d) else None,
         if CanMerge(s, a, Some(d), RightOf(s, d)) then RightOf(s, d) else None)
  }

  /** What makes a plan sound: its spans are free neighbours outside the hand. */
  ghost predicate PlanOk(s: Cache, a: Arena, d: Desc, p: Plan)
    requires ValidArena(a)
  {
    && CoreInv(s, a, {d}) && Mine(s, a, d)
    && (p.left.Some? ==> FreeSpan(s, a, {d}, p.left.value) && Joinable(s, a, p.left.value, d))
    && (p.right.Some? ==> FreeSpan(s, a, {d}, p.right.value) && Joinable(s, a, d, p.right.value))
  }

  lemma PlanIsOk(s: Cache, a: Arena, d: Desc)
    requires ValidArena(a) && CoreInv(s, a, {d})
    ensures Mine(s, a, d) && !s.spans[d].isAlloc && s.spans[d].addr > 0 && PlanOk(s, a, d, MakePlan(s, a, d))
  {
    hide WellConfigured, ClassOf, TrieInv, LeftOf, RightOf;
    assert d in {d};
    assert Mine(s, a, d) && !s.spans[d].isAlloc;
    assert GoodSpan(a, s.spans[d]);
    hide SpansInv, BinsInv, CanMerge, GoodSpan;
    var (l, r) := (LeftOf(s, d), RightOf(s, d));
    if CanMerge(s, a, l, Some(d)) {
      MergeableSome(s, a, l, Some(d));
      MergeableIsFree(s, a, l.value, d, d);
    }
    if CanMerge(s, a, Some(d), r) {
      MergeableSome(s, a, Some(d), r);
      MergeableIsFree(s, a, d, r.value, d);
    }
  }

  lemma MergeableSome(s: Cache, a: Arena, l: Option<Desc>, r: Option<Desc>)
    requires CanMerge(s, a, l, r)
    ensures l.Some? && r.Some?
  {
  }

  lemma SidesDiffer(s: Cache, a: Arena, d: Desc, p: Plan)
    requires ValidArena(a) && PlanOk(s, a, d, p) && p.left.Some? && p.right.Some?
    ensures p.left != p.right
  {
    hide WellConfigured, ClassOf;
    assert GoodSpan(a, s.spans[d]);
  }

  function Add(hand: set<Desc>, x: Option<Desc>): set<Desc> {
    if x.Some? then hand + {x.value} else hand
  }

  ghost predicate CanTakeOut(s: Cache, a: Arena, hand: set<Desc>, x: Option<Desc>)
    requires ValidArena(a)
  {
    CoreInv(s, a, hand) && (x.Some? ==> FreeSpan(s, a, hand, x.value))
  }

  /** Takes a neighbour, if there is one, out of its bin. */
  ghost function TakeOut(s: Cache, a: Arena, hand: set<Desc>, x: Option<Desc>): Cache
    requires ValidArena(a) && CanTakeOut(s, a, hand, x)
  {
    if x.Some? then RemoveReady(s, a, x.value, hand); BinRemove(s, x.value) else s
  }

  /** Nothing but states, bins and the bitmap differ. */
  ghost predicate OnlyStates(s: Cache, s': Cache) {
    && s'.spans.Keys == s.spans.Keys
    && (forall d :: d in s.spans ==> s'.spans[d] == s.spans[d].(state := s'.spans[d].state))
    && s' == s.(spans := s'.spans, bins := s'.bins, bitmap := s'.bitmap)
  }

  lemma BinRemoveStates(s: Cache, d: Desc)
    requires d in s.spans && Shape(s, |s.bins|) && 0 <= s.spans[d].szclass < |s.bins|
    requires s.spans[d].state < SPAN_NSTATES && s.bins[s.spans[d].szclass].nspans > 0
    ensures OnlyStates(s, BinRemove(s, d))
  {
  }

  lemma TakeOutKeeps(s: Cache, a: Arena, hand: set<Desc>, x: Option<Desc>)
    requires ValidArena(a) && CanTakeOut(s, a, hand, x)
    ensures var s' := TakeOut(s, a, hand, x);
      && CoreInv(s', a, Add(hand, x)) && OnlyStates(s, s')
      && (NeatInv(s, a, hand) ==> NeatInv(s', a, Add(hand, x))) && (OriginsInv(s, a) ==> OriginsInv(s', a))
      && (CoalescedInv(s, a, hand) && x.Some? ==> x.value in s'.spans && Lonely(s', a, Add(hand, x), x.value))
  {
    hide WellConfigured, CoreInv, BinRemove, OriginsInv, ApartInv, CoalescedInv, Lonely;
    if x.Some? {
      RemoveKeeps(s, a, x.value, hand);
      BinRemoveStates(s, x.value);
    }
  }

  lemma TakeOutLonely(s: Cache, a: Arena, hand: set<Desc>, x: Option<Desc>, d: Desc)
    requires ValidArena(a) && CanTakeOut(s, a, hand, x) && d in s.spans
    ensures d in TakeOut(s, a, hand, x).spans
    ensures LeftLonely(s, a, hand, d) ==> LeftLonely(TakeOut(s, a, hand, x), a, Add(hand, x), d)
    ensures RightLonely(s, a, hand, d) ==> RightLonely(TakeOut(s, a, hand, x), a, Add(hand, x), d)
  {
    hide WellConfigured, CoreInv, BinRemove, LeftLonely, RightLonely;
    if x.Some? {
      RemoveKeeps(s, a, x.value, hand);
      BinRemoveStates(s, x.value);
      StillLonely(s, BinRemove(s, x.value), a, hand, x.value, d);
    }
  }

  /** A plan for two sides can still take out the second after the first. */
  lemma RightStill(s: Cache, a: Arena, d: Desc, p: Plan)
    requires ValidArena(a) && PlanOk(s, a, d, p)
    ensures CanTakeOut(s, a, {d}, p.left)
    ensures CanTakeOut(TakeOut(s, a, {d}, p.left), a, Add({d}, p.left), p.right)
  {
    hide WellConfigured, CoreInv, TakeOut, Joinable;
    if p.left.Some? && p.right.Some? {
      SidesDiffer(s, a, d, p);
    }
    TakeOutKeeps(s, a, {d}, p.left);
  }

  /** Both neighbours leave their bins first. */
  ghost function Removed(s: Cache, a: Arena, d: Desc, p: Plan): Cache
    requires ValidArena(a) && PlanOk(s, a, d, p)
  {
    RightStill(s, a, d, p);
    TakeOut(TakeOut(s, a, {d}, p.left), a, Add({d}, p.left), p.right)
  }

  function InHand(d: Desc, p: Plan): set<Desc> {
    Add(Add({d}, p.left), p.right)
  }

  lemma JoinableStays(s: Cache, s': Cache, a: Arena, l: Desc, r: Desc)
    requires OnlyStates(s, s')
    ensures Joinable(s', a, l, r) <==> Joinable(s, a, l, r)
  {
  }

  /** After the removals everything to be joined is in hand, and can still be joined. */
  lemma RemovedKeeps(s: Cache, a: Arena, d: Desc, p: Plan)
    requires ValidArena(a) && PlanOk(s, a, d, p)
    ensures var s' := Removed(s, a, d, p);
      && CoreInv(s', a, InHand(d, p)) && OnlyStates(s, s') && Mine(s', a, d)
      && (NeatInv(s, a, {d}) ==> NeatInv(s', a, InHand(d, p))) && (OriginsInv(s, a) ==> OriginsInv(s', a))
      && (p.left.Some? ==> Joinable(s', a, p.left.value, d))
      && (p.right.Some? ==> Joinable(s', a, d, p.right.value))
  {
    hide WellConfigured, CoreInv, TakeOut, Joinable, NeatInv, OriginsInv, CanTakeOut;
    RightStill(s, a, d, p);
    TakeOutKeeps(s, a, {d}, p.left);
    var s1 := TakeOut(s, a, {d}, p.left);
    TakeOutKeeps(s1, a, Add({d}, p.left), p.right);
    var s2 := Removed(s, a, d, p);
    assert OnlyStates(s, s2);
    if p.left.Some? {
      JoinableStays(s, s2, a, p.left.value, d);
    }
    if p.right.Some? {
      JoinableStays(s, s2, a, d, p.right.value);
    }
  }

  /** The left end of the merge has no free left neighbour, the right end no right one. */
  lemma RemovedLonely(s: Cache, a: Arena, d: Desc, p: Plan)
    requires ValidArena(a) && PlanOk(s, a, d, p) && CoalescedInv(s, a, {d}) && NeatInv(s, a, {d})
    requires p.left.None? ==> LeftLonely(s, a, {d}, d)
    requires p.right.None? ==> RightLonely(s, a, {d}, d)
    ensures var s' := Removed(s, a, d, p);
      var l := if p.left.Some? then p.left.value else d; var r := if p.right.Some? then p.right.value else d;
      l in s'.spans && r in s'.spans && LeftLonely(s', a, InHand(d, p), l) && RightLonely(s', a, InHand(d, p), r)
  {
    hide WellConfigured, CoreInv, TakeOut, Joinable, OriginsInv, CanTakeOut, FreeSpan, Adjacent, ApartInv, CoalescedInv, OnlyStates;
    RightStill(s, a, d, p);
    TakeOutKeeps(s, a, {d}, p.left);
    var s1 := TakeOut(s, a, {d}, p.left);
    var h1 := Add({d}, p.left);
    var l := if p.left.Some? then p.left.value else d;
    TakeOutKeeps(s1, a, h1, p.right);
    TakeOutLonely(s, a, {d}, p.left, d);
    TakeOutLonely(s1, a, h1, p.right, d);
    TakeOutLonely(s1, a, h1, p.right, l);
  }
}
