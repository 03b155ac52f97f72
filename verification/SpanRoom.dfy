/** When scache_get_span_aligned loses the span it has taken: the class it looks the padded size
    up under, and the sizes of the spans it finds there. */
module SpanRoom {
  import opened Bits
  import opened SizeClasses
  import opened SpanState
  import opened SpanInvariants
  import opened SpanSteps
  import opened SpanOps
  import opened SpanGet
  import opened SpanAligned

  /** The bytes a span must have for the split to find an aligned piece in it. */
  function Padded(a: Arena, align: nat, c: nat): nat
    requires c < |a.sizes|
  {
    align + a.sizes[c]
  }

  /** The lookup table and the table of slab classes it was built from. */
  ghost predicate Tables(a: Arena, slabs: seq<nat>, lookup: seq<nat>) {
    ValidArena(a) && a.cfg.minAlign <= a.cfg.slabMax && IsSlabTable(a.cfg, slabs) && IsLookup(a.cfg, slabs, lookup)
  }

  // ----- the class of the padded size -----

  /** Beyond the largest request the lookup gives up with class 0, and the caller does not notice. */
  lemma OverLimitClass(a: Arena, slabs: seq<nat>, lookup: seq<nat>, align: nat, c: nat)
    requires Tables(a, slabs, lookup) && c < |a.sizes| && Padded(a, align, c) > ALLOC_MAX
    ensures ReqClass(a, lookup, align, c) == 0
  {
  }

  /** Above the slab limit the class is that of the padded size, as it should be. */
  lemma BulkClass(a: Arena, slabs: seq<nat>, lookup: seq<nat>, align: nat, c: nat)
    requires Tables(a, slabs, lookup) && c < |a.sizes| && a.cfg.slabMax < Padded(a, align, c) <= ALLOC_MAX
    ensures ReqClass(a, lookup, align, c) == ClassOf(a, Padded(a, align, c))
  {
    hide WellConfigured;
    SizeFacts(a, c);
  }

  /** Up to the slab limit it is the number of a slab class, used as that of a span class. */
  lemma SlabRangeClass(a: Arena, slabs: seq<nat>, lookup: seq<nat>, align: nat, c: nat)
    requires Tables(a, slabs, lookup) && c < |a.sizes| && Padded(a, align, c) <= a.cfg.slabMax && Padded(a, align, c) <= ALLOC_MAX
    ensures ReqClass(a, lookup, align, c) >= 0
    ensures LeastAtLeast(slabs, ReqClass(a, lookup, align, c), Padded(a, align, c))
  {
    SizeFacts(a, c);
    SlabClassIsLeast(a.cfg, slabs, lookup, Padded(a, align, c));
  }

  /** There the class is the right one exactly if the minimum alignment is a page; otherwise it is
      too high, and the bins from the next class up to it hold spans that would do and are not
      looked at. */
  lemma SlabRangeIff(a: Arena, slabs: seq<nat>, lookup: seq<nat>, align: nat, c: nat)
    requires Tables(a, slabs, lookup) && AlignOk(a, align) && c < |a.sizes|
    requires Padded(a, align, c) <= a.cfg.slabMax && Padded(a, align, c) <= ALLOC_MAX
    ensures var req := ReqClass(a, lookup, align, c); var right := ClassOf(a, Padded(a, align, c));
      && 0 <= right <= req && (right == req <==> a.cfg.pageSize == a.cfg.minAlign)
      && (forall sp: Span {:trigger GoodSpan(a, sp)} :: GoodSpan(a, sp) && right < sp.szclass < req ==> Padded(a, align, c) <= sp.nbytes)
  {
    hide ClassOf, ReqClass, IsPow2, WellConfigured, GoodSpan, IsSlabTable, LeastAtLeast, Units;
    ValidConfig(a);
    var req := ReqClass(a, lookup, align, c);
    var n := Padded(a, align, c);
    SlabRangeClass(a, slabs, lookup, align, c);
    PaddedTwoPages(a, align, c);
    ClassBracket(a, n);
    SlabRangeBracket(a, slabs, req, n);
    TwoBrackets(a.cfg.pageSize, a.cfg.minAlign, a.cfg.steps, n, ClassOf(a, n), req);
    ClassFacts(a, n);
    forall sp: Span | GoodSpan(a, sp) && ClassOf(a, n) < sp.szclass < req ensures n <= sp.nbytes {
      OverfitRoom(a, sp, ClassOf(a, n));
    }
  }

  lemma ClassBracket(a: Arena, n: nat)
    requires ValidArena(a) && 0 < n <= ALLOC_MAX
    ensures var g := ClassOf(a, n);
      g >= 0 && n <= a.cfg.pageSize * Units(a.cfg.steps, g) && (g > 0 ==> a.cfg.pageSize * Units(a.cfg.steps, g - 1) < n)
  {
    SpanClassBracket(a.cfg, n);
  }

  lemma SlabRangeBracket(a: Arena, slabs: seq<nat>, k: nat, n: nat)
    requires ValidArena(a) && IsSlabTable(a.cfg, slabs) && LeastAtLeast(slabs, k, n)
    ensures n <= a.cfg.minAlign * Units(a.cfg.steps, k) && (k > 0 ==> a.cfg.minAlign * Units(a.cfg.steps, k - 1) < n)
    ensures a.cfg.pageSize == a.cfg.minAlign || 2 * a.cfg.minAlign <= a.cfg.pageSize
    ensures 0 < a.cfg.minAlign <= a.cfg.pageSize
  {
    hide IsPow2, Units, IsSlabTable, LeastAtLeast;
    SlabBracket(a.cfg, slabs, k, n);
    PageOrTwo(a.cfg);
  }

  lemma PaddedTwoPages(a: Arena, align: nat, c: nat)
    requires ValidArena(a) && AlignOk(a, align) && c < |a.sizes|
    ensures Padded(a, align, c) >= 2 * a.cfg.pageSize
  {
    hide IsPow2;
    SizeFacts(a, c);
    PositiveMultiple(a.sizes[c], a.cfg.pageSize);
  }

  lemma SlabBracket(cfg: Config, slabs: seq<nat>, k: nat, n: nat)
    requires cfg.Pow2Steps() && IsSlabTable(cfg, slabs) && LeastAtLeast(slabs, k, n)
    ensures n <= cfg.minAlign * Units(cfg.steps, k) && (k > 0 ==> cfg.minAlign * Units(cfg.steps, k - 1) < n)
  {
    hide IsPow2, Units, NthSlab;
    NthSlabIs(cfg, k);
    if k > 0 {
      NthSlabIs(cfg, k - 1);
    }
  }

  /** A page that is more than the minimum alignment is at least twice as much. */
  lemma PageOrTwo(cfg: Config)
    requires cfg.Valid()
    ensures cfg.pageSize == cfg.minAlign || 2 * cfg.minAlign <= cfg.pageSize
  {
    hide IsPow2;
    SmallerDivides(cfg.minAlign, cfg.pageSize);
    MultipleOrTwo(cfg.minAlign, cfg.pageSize);
  }

  lemma MultipleOrTwo(d: nat, n: nat)
    requires 0 < d <= n && n % d == 0
    ensures n == d || 2 * d <= n
  {
    ModSub(n, d, d);
    if n != d {
      PositiveMultiple(n - d, d);
    }
  }

  /** The same size, in pages and in minimum alignments. */
  lemma TwoBrackets(page: nat, unit: nat, s: nat, n: nat, g: int, k: nat)
    requires s > 0 && 0 < unit <= page && (page == unit || 2 * unit <= page) && n >= 2 * page
    requires g >= 0 && n <= page * Units(s, g) && (g > 0 ==> page * Units(s, g - 1) < n)
    requires n <= unit * Units(s, k) && (k > 0 ==> unit * Units(s, k - 1) < n)
    ensures g <= k && (g == k <==> page == unit)
  {
    hide Units;
    FirstUnit(s);
    if g > k {
      UnitsOrder(s, k, g - 1);
      LargerPage(page, unit, Units(s, k), Units(s, g - 1));
    } else if page == unit && g < k {
      UnitsOrder(s, g, k - 1);
      LargerPage(page, page, Units(s, g), Units(s, k - 1));
    } else if page != unit && g == k > 0 {
      UnitsNext(s, k - 1);
      TwicePage(page, unit, Units(s, k), Units(s, k - 1));
    }
  }

  lemma LargerPage(page: nat, unit: nat, u: nat, v: nat)
    requires unit <= page && u <= v
    ensures unit * u <= page * v
  {
    MulMono(u, v, page);
    MulMono(unit, page, u);
  }

  lemma TwicePage(page: nat, unit: nat, u: nat, v: nat)
    requires 2 * unit <= page && u <= 2 * v
    ensures unit * u <= page * v
  {
    MulMono(u, 2 * v, unit);
    MulMono(2 * unit, page, v);
  }

  // ----- whether there is room -----

  /** What a caller can tell beforehand: the padded size is beyond the largest request, or the bin
      of the class it is looked up under is not empty and gives a span of fewer bytes. */
  ghost predicate NoRoom(s: Cache, a: Arena, lookup: seq<nat>, align: nat, c: nat)
    requires Configured(a, lookup) && CoreInv(s, a, {}) && c < |a.sizes|
  {
    var req := ReqClass(a, lookup, align, c);
    || Padded(a, align, c) > ALLOC_MAX
    || (req >= 0 && BitIs(s.bitmap, req) && PopsLess(s, a, req, Padded(a, align, c)))
  }

  /** The first span of bin `c` has fewer than `n` bytes. */
  ghost predicate PopsLess(s: Cache, a: Arena, c: nat, n: nat)
    requires ValidArena(a) && CoreInv(s, a, {}) && BitIs(s.bitmap, c)
  {
    PopReady(s, a, c, {});
    s.spans[FirstOf(s, c)].nbytes < n
  }

  /** The class, if there is one, is of spans with room. */
  lemma ClassHolds(a: Arena, slabs: seq<nat>, lookup: seq<nat>, align: nat, c: nat)
    requires Tables(a, slabs, lookup) && c < |a.sizes| && Padded(a, align, c) <= ALLOC_MAX
    ensures var req := ReqClass(a, lookup, align, c);
      0 <= req && (req < |a.sizes| ==> Padded(a, align, c) <= a.sizes[req])
  {
    hide ClassOf, ReqClass, IsPow2, NthSpan;
    var n := Padded(a, align, c);
    SizeFacts(a, c);
    if n <= a.cfg.slabMax {
      SlabRangeClass(a, slabs, lookup, align, c);
      var req := ReqClass(a, lookup, align, c);
      SlabBracket(a.cfg, slabs, req, n);
      NthSpanIs(a.cfg, req);
      MulMono(a.cfg.minAlign, a.cfg.pageSize, Units(a.cfg.steps, req));
    } else {
      BulkClass(a, slabs, lookup, align, c);
      ClassFacts(a, n);
    }
  }

  lemma SpanBelowLimit(a: Arena, sp: Span)
    requires ValidArena(a) && GoodSpan(a, sp)
    ensures sp.nbytes < ALLOC_MAX
  {
  }

  /** The span taken has too few bytes for the split exactly when a caller could have told. */
  lemma NoRoomIff(s: Cache, a: Arena, slabs: seq<nat>, lookup: seq<nat>, align: nat, c: nat, e: Env)
    requires Tables(a, slabs, lookup) && AlignedCall(s, a, lookup, align, c, e)
    ensures var req := ReqClass(a, lookup, align, c);
      0 <= req < |a.sizes| ==>
        var (out, _, s1) := Take(s, a, req, e);
        out.Got? ==> (
          && out.span in s1.spans
          && (s1.spans[out.span].nbytes < Padded(a, align, c) <==> NoRoom(s, a, lookup, align, c)))
  {
    hide WellConfigured, ClassOf, ReqClass, EnvOk, Mint, Minted, Pop, FirstOf, BinPop, GoodSpan, IsPow2, SpansInv, TrieInv, BinsInv;
    ValidConfig(a);
    var req := ReqClass(a, lookup, align, c);
    var n := Padded(a, align, c);
    if 0 <= req < |a.sizes| {
      TakeCore(s, a, req, e);
      var (out, over, s1) := Take(s, a, req, e);
      if out.Got? {
        if n > ALLOC_MAX {
          TakenIsGood(s1, a, out.span);
          SpanBelowLimit(a, s1.spans[out.span]);
        } else {
          ClassHolds(a, slabs, lookup, align, c);
          RoomIff(s, a, req, n, e);
        }
      }
    }
  }

  lemma TakenIsGood(s: Cache, a: Arena, d: Desc)
    requires ValidArena(a) && CoreInv(s, a, {d}) && Mine(s, a, d)
    ensures GoodSpan(a, s.spans[d])
  {
  }

  /** A span taken for a class that holds `n` bytes has fewer only if it is the first of the bin of
      that very class. */
  lemma RoomIff(s: Cache, a: Arena, req: nat, n: nat, e: Env)
    requires ValidArena(a) && CoreInv(s, a, {}) && req < |a.sizes| && EnvOk(s, a, req, e) && n <= a.sizes[req]
    ensures var (out, _, s1) := Take(s, a, req, e);
      out.Got? ==> out.span in s1.spans && (s1.spans[out.span].nbytes < n <==> BitIs(s.bitmap, req) && PopsLess(s, a, req, n))
  {
    MintClassBig(a, req);
    hide WellConfigured, ClassOf, EnvOk, Mint, Minted, Pop, FirstOf, BinPop, GoodSpan, IsPow2, CoreInv;
    TakeCore(s, a, req, e);
    var (out, over, s1) := Take(s, a, req, e);
    var i := FindBin(s.bitmap, |a.sizes|, req);
    if i >= 0 {
      PopKeeps(s, a, i);
      assert BitIs(s.bitmap, req) ==> i == req;
    } else if out.Got? {
      MintIs(s, a, req, e);
      MintCore(s, a, out.span, MintClass(a, req), e.region.value);
    }
  }

  lemma MintClassBig(a: Arena, req: nat)
    requires ValidArena(a) && req < |a.sizes|
    ensures MintClass(a, req) < |a.sizes| && a.sizes[req] <= a.sizes[MintClass(a, req)]
  {
    if a.defaultClass > req {
      SizesGrow(a, req, a.defaultClass);
    }
  }

  /** So the call loses the span it takes exactly if there is no room, or a descriptor for a piece
      is not to be had. */
  lemma LeaksIff(s: Cache, a: Arena, slabs: seq<nat>, lookup: seq<nat>, align: nat, c: nat, e: Env)
    requires Tables(a, slabs, lookup) && AlignedCall(s, a, lookup, align, c, e)
    ensures var req := ReqClass(a, lookup, align, c);
      Leaks(s, a, lookup, align, c, e) <==>
        && 0 <= req < |a.sizes|
        && var (out, _, s1) := Take(s, a, req, e);
           && out.Got? && out.span in s1.spans
           && (NoRoom(s, a, lookup, align, c) || !HasDescs(Offset(s1.spans[out.span].addr, align), e))
  {
    hide WellConfigured, ReqClass, EnvOk, Take, NoRoom, IsPow2, CoreInv, Offset;
    NoRoomIff(s, a, slabs, lookup, align, c, e);
  }

  /** A request beyond the limit is taken for one of the smallest class: any span there is in any
      bin, or else a new one, is lost. */
  lemma OverLimitLeaks(s: Cache, a: Arena, slabs: seq<nat>, lookup: seq<nat>, align: nat, c: nat, e: Env)
    requires Tables(a, slabs, lookup) && AlignedCall(s, a, lookup, align, c, e) && Padded(a, align, c) > ALLOC_MAX
    ensures |a.sizes| > 0 && ReqClass(a, lookup, align, c) == 0
    ensures Take(s, a, 0, e).0.Got? <==> Leaks(s, a, lookup, align, c, e)
  {
    OverLimitClass(a, slabs, lookup, align, c);
    hide WellConfigured, ReqClass, EnvOk, Take, IsPow2, Offset, SpansInv, TrieInv, BinsInv;
    LeaksIff(s, a, slabs, lookup, align, c, e);
    TakeCore(s, a, 0, e);
  }

  // ----- what a lost span leaves behind -----

  /** The state after the loss: one span, still in the trie and marked free, is in no bin. */
  lemma LeakLeaves(s: Cache, a: Arena, lookup: seq<nat>, align: nat, c: nat, e: Env) returns (lost: Desc)
    requires ValidArena(a) && AlignedCall(s, a, lookup, align, c, e) && Leaks(s, a, lookup, align, c, e)
    ensures var s' := GetAligned(s, a, lookup, align, c, e).1; CoreInv(s', a, {lost}) && Mine(s', a, lost) && !s'.spans[lost].isAlloc
  {
    ValidConfig(a);
    hide WellConfigured, SpansInv, TrieInv, BinsInv, Take, EnvOk, ReqClass, IsPow2, SplitAndInsert, Rebin, Offset;
    var req := ReqClass(a, lookup, align, c);
    TakeCore(s, a, req, e);
    TakeGivesTaken(s, a, req, align, c, e);
    var (out, _, s1) := Take(s, a, req, e);
    lost := out.span;
    LostIsFree(s1, a, lost);
  }

  lemma LostIsFree(s: Cache, a: Arena, lost: Desc)
    requires BinsInv(s, a, {lost})
    ensures Mine(s, a, lost) && !s.spans[lost].isAlloc
  {
    assert lost in {lost};
  }

  /** A neighbour of the same mapping still merges with it when it is freed. */
  lemma LostMerges(s: Cache, a: Arena, lost: Desc, d: Desc)
    requires ValidArena(a) && SpansInv(s, a) && Mine(s, a, lost) && Mine(s, a, d)
    requires !s.spans[lost].isAlloc && !s.spans[d].isAlloc && Adjacent(s.spans[lost], s.spans[d])
    ensures CanMerge(s, a, Some(lost), Some(d))
  {
    hide WellConfigured, ClassOf;
    assert GoodSpan(a, s.spans[lost]) && GoodSpan(a, s.spans[d]);
  }

  /** Merging takes the lost span out of a bin that does not hold it, and from then on the bin
      counts one span too few. */
  lemma LostSpoilsCounts(s: Cache, a: Arena, lost: Desc)
    requires ValidArena(a) && CoreInv(s, a, {lost}) && lost in s.spans
    requires 0 <= s.spans[lost].szclass < |s.bins| && s.bins[s.spans[lost].szclass].nspans > 0
    ensures Shape(s, |s.bins|) && s.spans[lost].state < SPAN_NSTATES && !CountsInv(BinRemove(s, lost))
  {
    LostIsFree(s, a, lost);
    TakenIsGood(s, a, lost);
    hide WellConfigured, ClassOf, TrieInv, SpansInv, Placed, SetBitmap;
    var (c, k) := (s.spans[lost].szclass, s.spans[lost].state);
    assert !InBucket(s, c, k, lost);
    var (b, b') := (s.bins[c], BinRemove(s, lost).bins[c]);
    assert BinCounts(b) && b.buckets[k] - {lost} == b.buckets[k];
    assert b'.buckets == b.buckets && b'.nspans == b.nspans - 1;
    assert !BinCounts(b');
  }
}
