/** How large the span is that scache_get_span hands out. */
module SpanSizes {
  import opened Bits
  import opened SizeClasses
  import opened SlabGeometry
  import opened SpanState
  import opened SpanInvariants
  import opened SpanSteps
  import opened SpanOps
  import opened SpanGet

  /** The request's own bin has a span, and its first one is smaller than the class: a hit in the
      same bin is not cut, and a bin also holds the remainders of cuts. */
  ghost predicate SmallHit(s: Cache, a: Arena, req: nat)
    requires ValidArena(a) && CoreInv(s, a, {}) && req < |a.sizes|
  {
    BitIs(s.bitmap, req) && (PopReady(s, a, req, {}); s.spans[FirstOf(s, req)].nbytes < a.sizes[req])
  }

  /** Whatever the path, the span is larger than the next smaller class and not larger than its
      own; it has the full class size exactly when there was no small hit. */
  lemma FullSizeIff(s: Cache, a: Arena, req: nat, slab: bool, e: Env)
    requires ValidArena(a) && GetCall(s, a, req, e) && req < |a.sizes|
    ensures var (out, s') := GetSpan(s, a, req, slab, e);
      out.Got? ==>
        && out.span in s'.spans && s'.spans[out.span].szclass == req
        && s'.spans[out.span].nbytes <= a.sizes[req]
        && (req > 0 ==> a.sizes[req - 1] < s'.spans[out.span].nbytes)
        && (s'.spans[out.span].nbytes == a.sizes[req] <==> !SmallHit(s, a, req))
  {
    hide WellConfigured, EnvOk, TrieInv, BinsInv, Serve, ClassOf, GoodSpan;
    var (out, over, s1) := Take(s, a, req, e);
    TakeCore(s, a, req, e);
    TakeSize(s, a, req, e);
    if out.Got? {
      ServeCore(s1, a, out.span, over, req, slab, e);
      GetSpanCore(s, a, req, slab, e);
      var (o, s') := GetSpan(s, a, req, slab, e);
      if o.Got? {
        SizeRange(a, s'.spans[o.span]);
      }
    }
  }

  /** A span's class brackets its size. */
  lemma SizeRange(a: Arena, sp: Span)
    requires ValidArena(a) && GoodSpan(a, sp)
    ensures var c := sp.szclass; 0 <= c < |a.sizes| && sp.nbytes <= a.sizes[c] && (c > 0 ==> a.sizes[c - 1] < sp.nbytes)
  {
    hide WellConfigured, ClassOf;
    assert 0 < sp.nbytes <= ALLOC_MAX && sp.szclass == ClassOf(a, sp.nbytes);
    hide GoodSpan;
    ClassFacts(a, sp.nbytes);
  }

  /** An exact take has the full size unless it is a small hit; an overfit one is not a hit in
      the request's bin. */
  lemma TakeSize(s: Cache, a: Arena, req: nat, e: Env)
    requires ValidArena(a) && CoreInv(s, a, {}) && req < |a.sizes| && EnvOk(s, a, req, e)
    ensures var (out, over, s') := Take(s, a, req, e);
      out.Got? ==>
        && out.span in s'.spans && (over ==> !SmallHit(s, a, req))
        && (!over ==> (s'.spans[out.span].nbytes == a.sizes[req] <==> !SmallHit(s, a, req)))
  {
    assert MintClass(a, req) < |a.sizes|;
    hide WellConfigured, EnvOk, Mint, Minted, Fresh, Pop, FirstOf, RegionOk, InSpan, BinPop, ClassOf, GoodSpan;
    var (out, over, s') := Take(s, a, req, e);
    var i := FindBin(s.bitmap, |a.sizes|, req);
    if i >= 0 {
      PopKeeps(s, a, i);
      assert BitIs(s.bitmap, req) ==> i == req;
      if i == req {
        var d := FirstOf(s, req);
        assert s'.spans[d].nbytes == s.spans[d].nbytes;
        SizeRange(a, s.spans[d]);
      }
    } else {
      MintIs(s, a, req, e);
      if out.Got? {
        MintCore(s, a, out.span, MintClass(a, req), e.region.value);
      }
    }
  }

  /** A slab of a class always fits the span it is put on, when a page holds eight units. */
  lemma SlabFitsGot(s: Cache, a: Arena, slabs: seq<nat>, req: nat, e: Env)
    requires ValidArena(a) && GetCall(s, a, req, e) && req < |a.sizes| && req < |slabs|
    requires IsSlabTable(a.cfg, slabs) && 8 * a.cfg.minAlign <= a.cfg.pageSize
    ensures forall k :: 0 <= k < |slabs| ==> slabs[k] > 0
    ensures var (out, s') := GetSpan(s, a, req, true, e);
      out.Got? ==> out.span in s'.spans && NBlocks(a.cfg.pageSize, slabs, req) * slabs[req] <= s'.spans[out.span].nbytes
  {
    assert a.cfg.Pow2Steps();
    hide WellConfigured, EnvOk, TrieInv, BinsInv, Serve, ClassOf, GoodSpan, NBlocks, IsSlabTable, GetSpan;
    SizesPositive(a.cfg, slabs);
    FullSizeIff(s, a, req, true, e);
    GetSpanCore(s, a, req, true, e);
    var (out, s') := GetSpan(s, a, req, true, e);
    if out.Got? {
      FitsGood(a, slabs, s'.spans[out.span]);
    }
  }

  lemma FitsGood(a: Arena, slabs: seq<nat>, sp: Span)
    requires ValidArena(a) && GoodSpan(a, sp) && 0 <= sp.szclass < |slabs|
    requires IsSlabTable(a.cfg, slabs) && 8 * a.cfg.minAlign <= a.cfg.pageSize
    ensures forall k :: 0 <= k < |slabs| ==> slabs[k] > 0
    ensures NBlocks(a.cfg.pageSize, slabs, sp.szclass) * slabs[sp.szclass] <= sp.nbytes
  {
    var page := a.cfg.pageSize;
    assert a.cfg.Pow2Steps();
    hide WellConfigured, IsSlabTable, NBlocks, GetSpanSzclass, IsPow2;
    assert 0 < sp.nbytes <= ALLOC_MAX && sp.nbytes % page == 0 && sp.szclass == GetSpanSzclass(a.cfg, sp.nbytes);
    hide GoodSpan;
    var q := sp.nbytes / page;
    Whole(sp.nbytes, page);
    assert PagesClass(a.cfg, q) == sp.szclass;
    FitsCase(a.cfg, slabs, q);
  }

  lemma Whole(n: nat, page: nat)
    requires page > 0 && n > 0 && n % page == 0
    ensures page * (n / page) == n && n / page > 0
  {
  }
}
