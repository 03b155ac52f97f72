/** Small alignments: rounding the size up to the alignment is enough to get an aligned block. */
module AlignedAlloc {
  import opened Bits
  import opened SizeClasses

  datatype Route = InvalidArgs | Alloc(nbytes: nat) | SpecialAlignedBulk(align: nat, nbytes: nat)

  /** ALIGN_UP on a 64-bit word, for a power of two. */
  function AlignUpWord(x: nat, align: nat): nat
    requires align > 0
  {
    FloorTo((x + align - 1) % SIZE_LIMIT, align)
  }

  /** Up to a page, an aligned request is an ordinary one of a rounded size. */
  function TsallocAligned(cfg: Config, nbytes: nat, align: nat): Route
  {
    if !PowerOfTwo(align) then InvalidArgs
    else if align <= cfg.pageSize then Alloc(AlignUpWord(nbytes, align))
    else SpecialAlignedBulk(align, nbytes)
  }

  /** The rounded size is a multiple of the alignment. Short of wrapping it holds the request; if
      the rounding wraps, it is zero. */
  lemma AlignUpWordMultiple(x: nat, align: nat)
    requires align > 0 && x < SIZE_LIMIT
    ensures AlignUpWord(x, align) % align == 0
    ensures x + align <= SIZE_LIMIT ==> AlignUpWord(x, align) == AlignUp(x, align)
    ensures x + align > SIZE_LIMIT && align <= SIZE_LIMIT ==> AlignUpWord(x, align) == 0
  {
    if x + align <= SIZE_LIMIT {
      DivUnique(x + align - 1, SIZE_LIMIT, 0, x + align - 1);
    } else if align <= SIZE_LIMIT {
      var rest := x + align - 1 - SIZE_LIMIT;
      DivUnique(x + align - 1, SIZE_LIMIT, 1, rest);
      DivUnique(rest, align, 0, rest);
    }
  }

  lemma GapBelow(s: nat, c: nat)
    requires s > 0 && c > s
    ensures c / s >= 1 && Gap(s, c - 1) == Pow2(c / s - 1)
  {
    Split(s, c - 1);
    var e, o := (c - 1) / s, (c - 1) % s;
    if o == s - 1 {
      Distribute(s, e, 1);
      DivUnique(c, s, e + 1, 0);
    } else {
      DivUnique(c, s, e, o + 1);
    }
  }

  lemma AtMultiple(s: nat, e: nat, o: nat)
    requires s > 0 && e > 0
    ensures At(s, e, o) % Pow2(e - 1) == 0 && IsPow2(Pow2(e - 1))
  {
    Log2Pow2(e - 1);
    hide IsPow2;
    MulDivRight(s + o + 1, Pow2(e - 1));
  }

  /** The gap below a class divides its size, and is a power of two. */
  lemma GapDivides(s: nat, c: nat)
    requires s > 0 && c > 0
    ensures IsPow2(Gap(s, c - 1)) && Units(s, c) % Gap(s, c - 1) == 0
    ensures Units(s, c) == Units(s, c - 1) + Gap(s, c - 1)
  {
    UnitsNext(s, c - 1);
    if c <= s {
      assert Gap(s, c - 1) == 1 && Log2(1) == 0;
    } else {
      GapBelow(s, c);
      assert Units(s, c) == At(s, c / s, c % s);
      hide Units, Gap, At, IsPow2;
      AtMultiple(s, c / s, c % s);
    }
  }

  /** Two multiples of `g` less than `g` apart are equal. */
  lemma SameMultiple(x: nat, y: nat, g: nat)
    requires g > 0 && x % g == 0 && y % g == 0 && x <= y < x + g
    ensures x == y
  {
    ModSub(y, x, g);
  }

  /** A size in the last gap below `size` that is a multiple of `align`: `size` is one too. */
  lemma GapArgument(n: nat, size: nat, g: nat, align: nat)
    requires IsPow2(g) && IsPow2(align) && size % g == 0 && n % align == 0
    requires n <= size < n + g
    ensures size % align == 0
  {
    if align <= g {
      SmallerDivides(align, g);
      ModTrans(size, align, g);
    } else {
      SmallerDivides(g, align);
      ModTrans(n, g, align);
      SameMultiple(n, size, g);
    }
  }

  /** The least slab class at or above a multiple of a power of two is itself a multiple of it. */
  lemma SlabClassAligned(cfg: Config, slabs: seq<nat>, c: nat, nbytes: nat, align: nat)
    requires cfg.Pow2Steps() && IsSlabTable(cfg, slabs) && LeastAtLeast(slabs, c, nbytes)
    requires align > 0 && IsPow2(align) && nbytes > 0 && nbytes % align == 0
    ensures slabs[c] % align == 0
  {
    var a, s := cfg.minAlign, cfg.steps;
    assert Units(s, 0) == 1;
    hide NthSlab, Units, IsPow2;
    NthSlabIs(cfg, c);
    if c == 0 {
      PositiveMultiple(nbytes, align);
      SmallerDivides(align, a);
    } else {
      NthSlabIs(cfg, c - 1);
      GapDivides(s, c);
      InnerAligned(a, Units(s, c - 1), Units(s, c), Gap(s, c - 1), nbytes, align);
    }
  }

  lemma InnerAligned(a: nat, u: nat, v: nat, g: nat, n: nat, align: nat)
    requires IsPow2(a) && IsPow2(g) && v % g == 0 && v == u + g
    requires align > 0 && IsPow2(align) && n % align == 0 && a * u < n <= a * v
    ensures (a * v) % align == 0
  {
    ScaledGap(a, u, v, g, a * g);
    GapArgument(n, a * v, a * g, align);
  }

  lemma ScaledMultiple(a: nat, v: nat, g: nat)
    requires a > 0 && g > 0 && v % g == 0
    ensures a * g > 0 && (a * v) % (a * g) == 0
  {
    var q := v / g;
    MulMono(1, g, a);
    assert a * v == (a * g) * q by {
      assert v == g * q;
      assert a * (g * q) == (a * g) * q;
    }
    MulDiv(a * g, q);
  }

  lemma ScaledGap(a: nat, u: nat, v: nat, g: nat, ag: nat)
    requires IsPow2(a) && IsPow2(g) && ag == a * g && v % g == 0 && v == u + g
    ensures IsPow2(ag) && (a * v) % ag == 0 && a * v == a * u + ag
  {
    Pow2Mul(a, g, ag);
    hide IsPow2;
    Distribute(a, u, g);
    ScaledMultiple(a, v, g);
  }

  /** An alignment that is no power of two is refused; one up to a page makes an ordinary request; a
      larger one is passed on as it is, with the size as it is. */
  lemma RouteIff(cfg: Config, nbytes: nat, align: nat)
    requires nbytes < SIZE_LIMIT && align < SIZE_LIMIT
    ensures var r := TsallocAligned(cfg, nbytes, align);
      && (r == InvalidArgs <==> !IsPow2(align))
      && (r.Alloc? <==> IsPow2(align) && align <= cfg.pageSize)
      && (r.SpecialAlignedBulk? ==> r.align == align && r.nbytes == nbytes && align > cfg.pageSize)
  {
    hide Pow2, AlignUpWord, IsPow2;
  }

  /** For every request that takes the ordinary route: every block of a page-aligned slab of the chosen
      class is aligned and large enough, and so is every page-aligned span. A request whose rounding
      wraps around is refused as a request for nothing; none is served with less than it asked for, and
      none is enlarged by as much as the alignment. */
  lemma AlignedResult(cfg: Config, slabs: seq<nat>, lookup: seq<nat>, nbytes: nat, align: nat, base: nat, k: nat)
    requires cfg.Pow2Steps() && cfg.minAlign <= cfg.slabMax
    requires IsSlabTable(cfg, slabs) && IsLookup(cfg, slabs, lookup)
    requires TsallocAligned(cfg, nbytes, align).Alloc? && nbytes < SIZE_LIMIT
    requires base % cfg.pageSize == 0
    ensures align > 0 && base % align == 0
    ensures var n := TsallocAligned(cfg, nbytes, align).nbytes;
      && (nbytes <= n || GetSzclass(cfg, lookup, n) == Request(0, -1))
      && (nbytes + align > SIZE_LIMIT ==> n == 0) && n < nbytes + align
      && (0 < n <= cfg.slabMax && n <= ALLOC_MAX ==>
        var c := GetSzclass(cfg, lookup, n).szclass;
        0 <= c < |slabs| && n <= slabs[c] && (base + k * slabs[c]) % align == 0)
  {
    AlignUpWordMultiple(nbytes, align);
    SmallerDivides(align, cfg.pageSize);
    ModTrans(base, align, cfg.pageSize);
    var n := AlignUpWord(nbytes, align);
    if 0 < n <= cfg.slabMax && n <= ALLOC_MAX {
      BlockAligned(cfg, slabs, lookup, n, align, base, k);
    }
  }

  lemma BlockAligned(cfg: Config, slabs: seq<nat>, lookup: seq<nat>, n: nat, align: nat, base: nat, k: nat)
    requires cfg.Pow2Steps() && cfg.minAlign <= cfg.slabMax
    requires IsSlabTable(cfg, slabs) && IsLookup(cfg, slabs, lookup)
    requires align > 0 && IsPow2(align) && 0 < n <= cfg.slabMax && n <= ALLOC_MAX && n % align == 0 && base % align == 0
    ensures var c := GetSzclass(cfg, lookup, n).szclass;
      0 <= c < |slabs| && n <= slabs[c] && (base + k * slabs[c]) % align == 0
  {
    hide GetSzclass, IsPow2, IsSlabTable;
    SlabClassIsLeast(cfg, slabs, lookup, n);
    assert align > 0;
    var c := GetSzclass(cfg, lookup, n).szclass;
    SlabClassAligned(cfg, slabs, c, n, align);
    MultipleOfBlock(slabs[c], k, align);
    ModAdd(base, k * slabs[c], align);
  }

  lemma MultipleOfBlock(size: nat, k: nat, align: nat)
    requires align > 0 && size % align == 0
    ensures (k * size) % align == 0
  {
    var q := size / align;
    assert k * size == align * (k * q);
    MulDiv(align, k * q);
  }
}
