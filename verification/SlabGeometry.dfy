/** How many blocks a slab of each class holds, whether the span a slab is put on can hold
    them, and how blocks are aligned. */
module SlabGeometry {
  import opened Bits
  import opened SizeClasses

  datatype SlabInfo = SlabInfo(blockSize: nat, slabSize: nat, nblocks: nat, szclass: nat)

  const MIN_BLOCKS: nat := 4

  function Min(a: nat, b: nat): nat {
    if a < b then a else b
  }

  /** Whole pages for at least four blocks, and for a page's worth of small ones. */
  function SlabSize(page: nat, blockSize: nat): (r: nat)
    requires page > 0 && blockSize > 0
    ensures MIN_BLOCKS * blockSize <= r
  {
    var n := Max(MIN_BLOCKS, page / blockSize);
    MulMono(MIN_BLOCKS, n, blockSize);
    AlignUp(n * blockSize, page)
  }

  /** Blocks of class `i`: never more than the class before. */
  function NBlocks(page: nat, sizes: seq<nat>, i: nat): nat
    requires page > 0 && i < |sizes| && forall k :: 0 <= k < |sizes| ==> sizes[k] > 0
  {
    var raw := SlabSize(page, sizes[i]) / sizes[i];
    if i == 0 then raw else Min(raw, NBlocks(page, sizes, i - 1))
  }

  function InfoOf(page: nat, sizes: seq<nat>, i: nat): SlabInfo
    requires page > 0 && i < |sizes| && forall k :: 0 <= k < |sizes| ==> sizes[k] > 0
  {
    SlabInfo(sizes[i], SlabSize(page, sizes[i]), NBlocks(page, sizes, i), i)
  }

  /** One turn of the loop below, for a class whose predecessor had `prev` blocks. */
  method NextInfo(page: nat, sizes: seq<nat>, i: nat, prev: Option<nat>) returns (info: SlabInfo)
    requires page > 0 && i < |sizes| && forall k :: 0 <= k < |sizes| ==> sizes[k] > 0
    requires prev == if i == 0 then None else Some(NBlocks(page, sizes, i - 1))
    ensures info == InfoOf(page, sizes, i)
  {
    hide SlabSize;
    var blockSize := sizes[i];
    var slabSize := SlabSize(page, blockSize);
    var nblocks := slabSize / blockSize;
    nblocks := match prev case None => nblocks case Some(p) => Min(nblocks, p);
    info := SlabInfo(blockSize, slabSize, nblocks, i);
  }

  method GetSlabInfos(cfg: Config, sizes: seq<nat>) returns (infos: seq<SlabInfo>)
    requires cfg.Positive() && forall k :: 0 <= k < |sizes| ==> sizes[k] > 0
    ensures |infos| == |sizes|
    ensures forall i :: 0 <= i < |sizes| ==> infos[i] == InfoOf(cfg.pageSize, sizes, i)
  {
    infos := [];
    var prevNblocks := None;
    for i := 0 to |sizes|
      invariant |infos| == i
      invariant prevNblocks == if i == 0 then None else Some(NBlocks(cfg.pageSize, sizes, i - 1))
      invariant forall k :: 0 <= k < i ==> infos[k] == InfoOf(cfg.pageSize, sizes, k)
    {
      var info := NextInfo(cfg.pageSize, sizes, i, prevNblocks);
      infos := infos + [info];
      prevNblocks := Some(info.nblocks);
    }
  }

  /** A slab never has fewer than four blocks, and its blocks fit its own size. */
  lemma {:induction false} NBlocksBounds(page: nat, sizes: seq<nat>, i: nat)
    requires page > 0 && i < |sizes| && forall k :: 0 <= k < |sizes| ==> sizes[k] > 0
    ensures MIN_BLOCKS <= NBlocks(page, sizes, i) <= SlabSize(page, sizes[i]) / sizes[i]
  {
    AtLeastFour(page, sizes[i]);
    if i > 0 {
      NBlocksBounds(page, sizes, i - 1);
    }
  }

  /** The size of a slab: the fewest whole pages that hold four blocks and a page's worth of them. */
  lemma SlabSizeIs(page: nat, b: nat)
    requires page > 0 && b > 0
    ensures var r := SlabSize(page, b);
      r % page == 0 && 4 * b <= r && (page / b) * b <= r
    ensures forall r: nat :: r % page == 0 && 4 * b <= r && (page / b) * b <= r ==> SlabSize(page, b) <= r
  {
    var q := page / b;
    MulMono(4, Max(4, q), b);
    MulMono(q, Max(4, q), b);
    forall r: nat | r % page == 0 && 4 * b <= r && q * b <= r ensures SlabSize(page, b) <= r {
      WholeAbove(Max(4, q) * b, page, r, SlabSize(page, b));
    }
  }

  lemma WholeAbove(x: nat, page: nat, r: nat, y: nat)
    requires page > 0 && r % page == 0 && x <= r && y % page == 0 && y < x + page
    ensures y <= r
  {
    NextMultiple(page, r / page, y / page, r, y);
  }

  lemma NextMultiple(page: nat, a: nat, c: nat, r: nat, y: nat)
    requires r == page * a && y == page * c && y < r + page
    ensures y <= r
  {
    if a < c {
      MulMono(a + 1, c, page);
    }
  }

  /** The blocks of a class are as many as fit the slab of it or of some class below, whichever holds
      the fewest. */
  lemma {:induction false} NBlocksIsLeast(page: nat, sizes: seq<nat>, i: nat)
    requires page > 0 && i < |sizes| && forall k :: 0 <= k < |sizes| ==> sizes[k] > 0
    ensures forall j :: 0 <= j <= i ==> NBlocks(page, sizes, i) <= SlabSize(page, sizes[j]) / sizes[j]
    ensures exists j :: 0 <= j <= i && NBlocks(page, sizes, i) == SlabSize(page, sizes[j]) / sizes[j]
  {
    hide SlabSize;
    if i > 0 {
      NBlocksIsLeast(page, sizes, i - 1);
    } else {
      assert NBlocks(page, sizes, 0) == SlabSize(page, sizes[0]) / sizes[0];
    }
  }

  lemma AtLeastFour(page: nat, b: nat)
    requires page > 0 && b > 0
    ensures SlabSize(page, b) / b >= MIN_BLOCKS
  {
    hide SlabSize;
    var r := SlabSize(page, b);
    assert r == b * (r / b) + r % b;
    MulCancelStrict(b, r / b + 1, MIN_BLOCKS);
  }

  /** Blocks of at most a quarter page share one page. */
  lemma SmallBlocks(page: nat, b: nat)
    requires b > 0 && 4 * b <= page
    ensures SlabSize(page, b) == page
  {
    var q := page / b;
    assert page == b * q + page % b;
    MulCancelStrict(b, q + 1, 4);
    AlignUpWithin(q * b, page);
  }

  lemma AlignUpWithin(x: nat, page: nat)
    requires 0 < x <= page
    ensures AlignUp(x, page) == page
  {
    DivUnique(x + page - 1, page, 1, x - 1);
  }

  lemma {:induction false} NBlocksDown(page: nat, sizes: seq<nat>, i: nat, j: nat)
    requires page > 0 && j <= i < |sizes| && forall k :: 0 <= k < |sizes| ==> sizes[k] > 0
    ensures NBlocks(page, sizes, i) <= NBlocks(page, sizes, j)
  {
    if j < i {
      NBlocksDown(page, sizes, i - 1, j);
    }
  }

  // ----- does the span hold the slab? -----

  /** The span class of `q` pages. */
  function PagesClass(cfg: Config, q: nat): int
    requires cfg.Positive()
  {
    GetSpanSzclass(cfg, cfg.pageSize * q)
  }

  /** A slab of class `i` is put on a span of span class `i`. It must fit every number of pages
      that counts as that class, since a hit in the same bin is not cut to size. */
  ghost predicate FitsEverySpan(cfg: Config, sizes: seq<nat>)
    requires cfg.Positive() && forall k :: 0 <= k < |sizes| ==> sizes[k] > 0
  {
    forall q :: 0 < q && cfg.pageSize * q <= ALLOC_MAX && 0 <= PagesClass(cfg, q) < |sizes| ==>
      SlabFits(cfg, sizes, PagesClass(cfg, q), q)
  }

  predicate SlabFits(cfg: Config, sizes: seq<nat>, i: nat, q: nat)
    requires cfg.Positive() && i < |sizes| && forall k :: 0 <= k < |sizes| ==> sizes[k] > 0
  {
    NBlocks(cfg.pageSize, sizes, i) * sizes[i] <= cfg.pageSize * q
  }

  /** Class sizes bracket a number of pages. */
  lemma PagesBracket(cfg: Config, q: nat)
    requires cfg.Pow2Steps() && 0 < q && cfg.pageSize * q <= ALLOC_MAX
    ensures var c := PagesClass(cfg, q);
      c >= 0 && q <= Units(cfg.steps, c) && (c > 0 ==> Units(cfg.steps, c - 1) < q)
  {
    var c := PagesClass(cfg, q);
    MulMono(1, q, cfg.pageSize);
    SpanClassBracket(cfg, cfg.pageSize * q);
    hide GetSpanSzclass, Units, IsPow2;
    MulCancel(cfg.pageSize, Units(cfg.steps, c), q);
    if c > 0 {
      MulCancelStrict(cfg.pageSize, q, Units(cfg.steps, c - 1));
    }
  }

  /** The fewest pages that count as class `i`. */
  function LeastPages(s: nat, i: nat): nat
    requires s > 0
  {
    if i == 0 then 1 else Units(s, i - 1) + 1
  }

  lemma LeastPagesReached(cfg: Config, i: nat)
    requires cfg.Pow2Steps() && cfg.pageSize * LeastPages(cfg.steps, i) <= ALLOC_MAX
    ensures PagesClass(cfg, LeastPages(cfg.steps, i)) == i
  {
    hide PagesClass, Units, IsPow2;
    var q := LeastPages(cfg.steps, i);
    PagesBracket(cfg, q);
    OnlyClass(cfg.steps, i, PagesClass(cfg, q));
  }

  lemma OnlyClass(s: nat, i: nat, c: nat)
    requires s > 0 && LeastPages(s, i) <= Units(s, c)
    requires c > 0 ==> Units(s, c - 1) < LeastPages(s, i)
    ensures c == i
  {
    hide Units;
    if i > 0 {
      UnitsNext(s, i - 1);
      UnitsOrder(s, c, i - 1);
    }
    if c > 0 {
      UnitsNext(s, 0);
      UnitsOrder(s, i, c - 1);
    }
  }

  /** Blocks of at most a quarter page: the slab is one page. */
  lemma FitsSmall(page: nat, sizes: seq<nat>, i: nat, q: nat)
    requires page > 0 && i < |sizes| && forall k :: 0 <= k < |sizes| ==> sizes[k] > 0
    requires 4 * sizes[i] <= page && q > 0
    ensures NBlocks(page, sizes, i) * sizes[i] <= page * q
  {
    var b, n := sizes[i], NBlocks(page, sizes, i);
    NBlocksBounds(page, sizes, i);
    SmallBlocks(page, b);
    hide NBlocks;
    DivTimes(page, b, n);
    MulMono(1, q, page);
  }

  lemma DivTimes(x: nat, d: nat, n: nat)
    requires d > 0 && n <= x / d
    ensures n * d <= x
  {
    assert x == d * (x / d) + x % d;
    MulMono(n, x / d, d);
  }

  /** Larger blocks come four to a slab, because a class of a quarter page exists. */
  lemma FourBlocks(page: nat, sizes: seq<nat>, i: nat, j: nat)
    requires page > 0 && j <= i < |sizes| && forall k :: 0 <= k < |sizes| ==> sizes[k] > 0
    requires 4 * sizes[j] == page
    ensures NBlocks(page, sizes, i) == 4
  {
    NBlocksBounds(page, sizes, i);
    NBlocksBounds(page, sizes, j);
    NBlocksDown(page, sizes, i, j);
    SmallBlocks(page, sizes[j]);
    hide NBlocks;
    DivUnique(page, sizes[j], 4, 0);
  }

  lemma FourAgainst(p: nat, a: nat, u: nat, v: nat, q: nat)
    requires 8 * a <= p && v <= 2 * u && u <= q
    ensures 4 * (a * v) <= p * q
  {
    MulMono(v, 2 * u, a);
    assert 4 * (a * (2 * u)) == (8 * a) * u;
    MulMono(8 * a, p, u);
    MulMono(u, q, p);
  }

  /** Four blocks of class `i` against the fewest pages of span class `i`, in units. */
  lemma FitsLarge(p: nat, a: nat, s: nat, i: nat, q: nat)
    requires s > 0 && 8 * a <= p && q >= LeastPages(s, i)
    ensures 4 * (a * Units(s, i)) <= p * q
  {
    if i > 0 {
      UnitsNext(s, i - 1);
    }
    FourAgainst(p, a, if i == 0 then 1 else Units(s, i - 1), Units(s, i), q);
  }

  lemma QuarterUnits(cfg: Config) returns (j: nat)
    requires cfg.Pow2Steps() && 4 * cfg.minAlign <= cfg.pageSize
    ensures 4 * (cfg.minAlign * Units(cfg.steps, j)) == cfg.pageSize
  {
    IsPow2Log(cfg.minAlign);
    IsPow2Log(cfg.pageSize);
    var a, p := Log2(cfg.minAlign), Log2(cfg.pageSize);
    Log2Mono(4 * cfg.minAlign, cfg.pageSize);
    Log2Unique(4 * cfg.minAlign, a + 2);
    j := Pow2IsClass(cfg.steps, p - a - 2);
    Pow2Divides(a + 2, p);
    assert cfg.pageSize == Pow2(a + 2) * Pow2(p - a - 2);
    hide IsPow2, Units;
    FourTimes(cfg.minAlign, Units(cfg.steps, j));
  }

  lemma FourTimes(a: nat, v: nat)
    ensures (2 * (2 * a)) * v == 4 * (a * v)
  {
  }

  /** The quarter-page class, for pages that hold at least four units. */
  lemma QuarterPage(cfg: Config, sizes: seq<nat>, i: nat) returns (j: nat)
    requires cfg.Pow2Steps() && IsSlabTable(cfg, sizes) && i < |sizes|
    requires 4 * cfg.minAlign <= cfg.pageSize <= 4 * sizes[i]
    ensures j <= i && 4 * sizes[j] == cfg.pageSize
  {
    hide IsPow2, Units, NthSlab;
    j := QuarterUnits(cfg);
    NthSlabIs(cfg, i);
    SizeOrder(cfg.minAlign, cfg.steps, j, i);
    NthSlabIs(cfg, j);
  }

  lemma SizesPositive(cfg: Config, sizes: seq<nat>)
    requires cfg.Positive() && IsSlabTable(cfg, sizes)
    ensures forall k :: 0 <= k < |sizes| ==> sizes[k] > 0
  {
    forall k | 0 <= k < |sizes| ensures sizes[k] > 0 {
      assert sizes[k] == NthSlab(cfg, k);
    }
  }

  /** Eight units to a page are enough. */
  lemma FitsWithEight(cfg: Config, sizes: seq<nat>, q: nat)
    requires cfg.Pow2Steps() && IsSlabTable(cfg, sizes) && 8 * cfg.minAlign <= cfg.pageSize
    requires 0 < q && cfg.pageSize * q <= ALLOC_MAX && 0 <= PagesClass(cfg, q) < |sizes|
    ensures forall k :: 0 <= k < |sizes| ==> sizes[k] > 0
    ensures SlabFits(cfg, sizes, PagesClass(cfg, q), q)
  {
    SizesPositive(cfg, sizes);
    var i := PagesClass(cfg, q);
    if 4 * sizes[i] <= cfg.pageSize {
      FitsSmall(cfg.pageSize, sizes, i, q);
    } else {
      PagesBracket(cfg, q);
      var j := QuarterPage(cfg, sizes, i);
      hide PagesClass, Units, IsPow2;
      FourBlocks(cfg.pageSize, sizes, i, j);
      NthSlabIs(cfg, i);
      FitsLarge(cfg.pageSize, cfg.minAlign, cfg.steps, i, q);
    }
  }

  /** Four units to a page, and no class more than one page above its predecessor. */
  predicate OnlyUnitSteps(cfg: Config) {
    cfg.pageSize == 4 * cfg.minAlign && cfg.slabMax < 4 * (cfg.steps * cfg.minAlign)
  }

  /** The classes a page apart end with class `2s - 1`. */
  lemma UnitStepRange(s: nat, i: nat)
    requires s > 0
    ensures i < 2 * s ==> LeastPages(s, i) == Units(s, i)
    ensures Units(s, 2 * s) == 2 * s + 2 && LeastPages(s, 2 * s) == 2 * s + 1
  {
    UnitsAt(s, 2, 0);
    UnitsAt(s, 1, s - 1);
    assert Pow2(1) == 2;
    if 0 < i < 2 * s {
      UnitsNext(s, i - 1);
      if i - 1 >= s {
        DivUnique(i - 1, s, 1, i - 1 - s);
      }
    }
  }

  lemma FitsWithUnitSteps(cfg: Config, sizes: seq<nat>, q: nat)
    requires cfg.Pow2Steps() && IsSlabTable(cfg, sizes) && OnlyUnitSteps(cfg)
    requires 0 < q && cfg.pageSize * q <= ALLOC_MAX && 0 <= PagesClass(cfg, q) < |sizes|
    ensures forall k :: 0 <= k < |sizes| ==> sizes[k] > 0
    ensures SlabFits(cfg, sizes, PagesClass(cfg, q), q)
  {
    SizesPositive(cfg, sizes);
    var a, s, i := cfg.minAlign, cfg.steps, PagesClass(cfg, q);
    NthSlabIs(cfg, i);
    NthSlabIs(cfg, 0);
    assert Units(s, 0) == 1;
    hide PagesClass, Units, IsPow2, NthSlab;
    PagesBracket(cfg, q);
    LargestUnitStep(cfg, sizes, i);
    UnitStepRange(s, i);
    FourBlocks(cfg.pageSize, sizes, i, 0);
    MulMono(Units(s, i), q, a);
    FourPages(a, q);
  }

  lemma FourPages(a: nat, q: nat)
    ensures (4 * a) * q == 4 * (a * q)
  {
  }

  lemma LargestUnitStep(cfg: Config, sizes: seq<nat>, i: nat)
    requires cfg.Pow2Steps() && IsSlabTable(cfg, sizes) && OnlyUnitSteps(cfg) && i < |sizes|
    ensures i < 2 * cfg.steps
  {
    hide NthSlab, IsPow2, Units;
    var a, s := cfg.minAlign, cfg.steps;
    HalfLimit(s, a, cfg.slabMax, s * a);
    NthSlabIs(cfg, i);
    UnitStepRange(s, i);
    if i >= 2 * s {
      SizeOrder(a, s, 2 * s, i);
      BeyondHalf(a, s);
    }
  }

  lemma BeyondHalf(a: nat, s: nat)
    requires a > 0
    ensures a * (2 * s + 2) > 2 * (s * a)
  {
  }

  /** A limit below `4 * steps` units is at most `2 * steps` units, all being powers of two. */
  lemma HalfLimit(s: nat, a: nat, max: nat, p: nat)
    requires IsPow2(s) && IsPow2(a) && IsPow2(max) && p == s * a && max < 4 * p
    ensures max <= 2 * p
  {
    IsPow2Log(max);
    Pow2Mul(s, a, p);
    Pow2Below(Log2(max), Log2(s) + Log2(a));
  }

  lemma Pow2Below(m: nat, k: nat)
    ensures Pow2(m) < 4 * Pow2(k) ==> Pow2(m) <= 2 * Pow2(k)
  {
    if m >= k + 2 {
      Pow2Mono(k + 2, m);
      assert Pow2(k + 2) == 4 * Pow2(k);
    } else {
      Pow2Mono(m, k + 1);
    }
  }

  /** Four units to a slab, however small the page. */
  lemma TinyPages(p: nat, a: nat)
    requires a > 0 && (p == a || p == 2 * a)
    ensures SlabSize(p, a) == 4 * a && SlabSize(p, a) / a == 4
  {
    var k := if p == a then 1 else 2;
    DivUnique(p, a, k, 0);
    DivUnique(4 * a, a, 4, 0);
    DivUnique(4 * a, p, 4 / k, 0);
    AlignUpExact(4 * a, p);
  }

  /** With one or two units to a page, four of the smallest blocks already exceed the first class. */
  lemma MisfitTinyPages(cfg: Config, sizes: seq<nat>)
    requires cfg.Pow2Steps() && IsSlabTable(cfg, sizes) && cfg.minAlign <= cfg.slabMax
    requires cfg.pageSize == cfg.minAlign || cfg.pageSize == 2 * cfg.minAlign
    ensures forall k :: 0 <= k < |sizes| ==> sizes[k] > 0
    ensures |sizes| > 0 && PagesClass(cfg, 1) == 0 && !SlabFits(cfg, sizes, 0, 1)
  {
    SizesPositive(cfg, sizes);
    assert NthSlab(cfg, 0) == cfg.minAlign;
    hide PagesClass, IsPow2, SlabSize, NthSlab, Units, NBlocks;
    assert LeastPages(cfg.steps, 0) == 1;
    LeastPagesReached(cfg, 0);
    TinyMisfit(cfg.pageSize, cfg.minAlign, sizes);
  }

  lemma TinyMisfit(p: nat, a: nat, sizes: seq<nat>)
    requires a > 0 && (p == a || p == 2 * a)
    requires |sizes| > 0 && sizes[0] == a && forall k :: 0 <= k < |sizes| ==> sizes[k] > 0
    ensures NBlocks(p, sizes, 0) * sizes[0] > p
  {
    TinyPages(p, a);
    hide SlabSize;
  }

  lemma ClassPresent(cfg: Config, sizes: seq<nat>, i: nat)
    requires cfg.Pow2Steps() && IsSlabTable(cfg, sizes) && cfg.minAlign * Units(cfg.steps, i) <= cfg.slabMax
    ensures i < |sizes|
  {
    hide Units, NthSlab, IsPow2;
    NthSlabIs(cfg, |sizes|);
    SizeOrder(cfg.minAlign, cfg.steps, |sizes|, i);
  }

  /** With four units to a page, the first class two pages above its predecessor can be hit by a
      span one page short of it. */
  lemma MisfitQuarterPages(cfg: Config, sizes: seq<nat>, i: nat, q: nat)
    requires cfg.Pow2Steps() && IsSlabTable(cfg, sizes) && 4 * cfg.slabMax <= ALLOC_MAX
    requires cfg.pageSize == 4 * cfg.minAlign && cfg.slabMax >= 4 * (cfg.steps * cfg.minAlign)
    requires i == 2 * cfg.steps && q == i + 1
    ensures forall k :: 0 <= k < |sizes| ==> sizes[k] > 0
    ensures i < |sizes| && cfg.pageSize * q <= ALLOC_MAX && PagesClass(cfg, q) == i && !SlabFits(cfg, sizes, i, q)
  {
    hide Units, NthSlab, IsPow2, PagesClass, SlabFits, LeastPages, IsSlabTable;
    SizesPositive(cfg, sizes);
    UnitStepRange(cfg.steps, i);
    QuarterInts(cfg.minAlign, cfg.steps, cfg.slabMax);
    ClassPresent(cfg, sizes, i);
    LeastPagesReached(cfg, i);
    QuarterMisfit(cfg, sizes, i, q);
  }

  lemma QuarterMisfit(cfg: Config, sizes: seq<nat>, i: nat, q: nat)
    requires cfg.Pow2Steps() && IsSlabTable(cfg, sizes) && i < |sizes| && cfg.pageSize == 4 * cfg.minAlign
    requires 4 * (cfg.minAlign * Units(cfg.steps, i)) > cfg.pageSize * q
    ensures forall k :: 0 <= k < |sizes| ==> sizes[k] > 0
    ensures !SlabFits(cfg, sizes, i, q)
  {
    SizesPositive(cfg, sizes);
    assert NthSlab(cfg, 0) == cfg.minAlign;
    hide Units, NthSlab, IsPow2;
    NthSlabIs(cfg, i);
    FourBlocks(cfg.pageSize, sizes, i, 0);
  }

  lemma QuarterInts(a: nat, s: nat, max: nat)
    requires a > 0 && s > 0 && 4 * (s * a) <= max && 4 * max <= ALLOC_MAX
    ensures a * (2 * s + 2) <= max && (4 * a) * (2 * s + 1) <= ALLOC_MAX
    ensures 4 * (a * (2 * s + 2)) > (4 * a) * (2 * s + 1)
  {
    var x := s * a;
    MulMono(1, s, a);
    assert a * (2 * s + 2) == 2 * x + 2 * a;
    assert (4 * a) * (2 * s + 1) == 8 * x + 4 * a;
  }

  /** A slab fits every span its class can be given exactly when a page holds eight units, or
      four and no class lies more than a page above its predecessor. */
  lemma FitsIff(cfg: Config, sizes: seq<nat>)
    requires cfg.Pow2Steps() && IsSlabTable(cfg, sizes) && 4 * cfg.slabMax <= ALLOC_MAX
    ensures forall k :: 0 <= k < |sizes| ==> sizes[k] > 0
    ensures FitsEverySpan(cfg, sizes) <==>
      cfg.slabMax < cfg.minAlign || 8 * cfg.minAlign <= cfg.pageSize || OnlyUnitSteps(cfg)
  {
    SizesPositive(cfg, sizes);
    if cfg.slabMax < cfg.minAlign || 8 * cfg.minAlign <= cfg.pageSize || OnlyUnitSteps(cfg) {
      forall q | 0 < q && cfg.pageSize * q <= ALLOC_MAX && 0 <= PagesClass(cfg, q) < |sizes|
        ensures SlabFits(cfg, sizes, PagesClass(cfg, q), q)
      {
        FitsCase(cfg, sizes, q);
      }
    } else {
      FewUnits(cfg.minAlign, cfg.pageSize);
      if cfg.pageSize == 4 * cfg.minAlign {
        MisfitQuarterPages(cfg, sizes, 2 * cfg.steps, 2 * cfg.steps + 1);
      } else {
        MisfitTinyPages(cfg, sizes);
      }
    }
  }

  lemma FitsCase(cfg: Config, sizes: seq<nat>, q: nat)
    requires cfg.Pow2Steps() && IsSlabTable(cfg, sizes)
    requires cfg.slabMax < cfg.minAlign || 8 * cfg.minAlign <= cfg.pageSize || OnlyUnitSteps(cfg)
    requires 0 < q && cfg.pageSize * q <= ALLOC_MAX && 0 <= PagesClass(cfg, q) < |sizes|
    ensures forall k :: 0 <= k < |sizes| ==> sizes[k] > 0
    ensures SlabFits(cfg, sizes, PagesClass(cfg, q), q)
  {
    if cfg.slabMax < cfg.minAlign {
      NthSlabIs(cfg, PagesClass(cfg, q));
      MulMono(1, Units(cfg.steps, PagesClass(cfg, q)), cfg.minAlign);
    } else if 8 * cfg.minAlign <= cfg.pageSize {
      FitsWithEight(cfg, sizes, q);
    } else {
      FitsWithUnitSteps(cfg, sizes, q);
    }
  }

  lemma FewUnits(a: nat, p: nat)
    requires IsPow2(a) && IsPow2(p) && a <= p < 8 * a
    ensures p == a || p == 2 * a || p == 4 * a
  {
    hide Log2;
    IsPow2Log(a);
    IsPow2Log(p);
    FewPowers(Log2(a), Log2(p));
  }

  lemma FewPowers(k: nat, m: nat)
    requires Pow2(k) <= Pow2(m) < 8 * Pow2(k)
    ensures m == k || m == k + 1 || m == k + 2
  {
    assert Pow2(k + 3) == 2 * Pow2(k + 2);
    if m < k {
      Pow2Strict(m, k);
    } else if m >= k + 3 {
      Pow2Mono(k + 3, m);
    }
  }

  /** The bytes of bitmap the script reserves hold one bit for every block of any class. */
  lemma BitmapFits(cfg: Config, sizes: seq<nat>, i: nat)
    requires cfg.Pow2Steps() && IsSlabTable(cfg, sizes) && i < |sizes|
    ensures forall k :: 0 <= k < |sizes| ==> sizes[k] > 0
    ensures NBlocks(cfg.pageSize, sizes, i) <= 8 * NbytesBitmap(cfg)
  {
    SizesPositive(cfg, sizes);
    assert sizes[0] == NthSlab(cfg, 0) == cfg.minAlign;
    FirstBlocks(cfg.pageSize, cfg.minAlign);
    hide IsPow2, NthSlab, SlabSize;
    NBlocksDown(cfg.pageSize, sizes, i, 0);
    NBlocksBounds(cfg.pageSize, sizes, 0);
    WordsFor(cfg.pageSize, cfg.minAlign);
  }

  function NbytesBitmap(cfg: Config): nat
    requires cfg.Positive()
  {
    var maxBlocks := cfg.pageSize / cfg.minAlign;
    (maxBlocks + 63) / 64 * 8
  }

  lemma WordsFor(page: nat, a: nat)
    requires 0 < a <= page
    ensures Max(4, page / a) <= 8 * ((page / a + 63) / 64 * 8)
  {
    var n := page / a;
    assert page == a * n + page % a;
    assert n == 0 ==> a * n == 0;
  }

  lemma FirstBlocks(page: nat, a: nat)
    requires 0 < a <= page && IsPow2(page) && IsPow2(a)
    ensures SlabSize(page, a) / a <= Max(MIN_BLOCKS, page / a)
  {
    if 4 * a <= page {
      SmallBlocks(page, a);
    } else {
      FewUnits(a, page);
      TinyPages(page, a);
    }
  }
}
