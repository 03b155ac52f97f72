/** scache_get_span: find or mint a span, cut the request off it if it is larger, and hand it
    out. What each step keeps, and how large the span handed out is. */
module SpanGet {
  import opened SizeClasses
  import opened SpanState
  import opened SpanInvariants
  import opened SpanSteps
  import opened SpanOps

  /** What holds besides the core: how ages lie, and no two free neighbours of one age. */
  ghost predicate NeatInv(s: Cache, a: Arena, hand: set<Desc>)
    requires ValidArena(a)
  {
    ApartInv(s, a) && CoalescedInv(s, a, hand)
  }

  // ----- cutting -----

  /** The origin can be put in a bin after the cut. */
  lemma CutReady(s: Cache, a: Arena, o: Desc, f: Desc, cut: nat, c: int)
    requires ValidArena(a) && SpansInv(s, a) && Mine(s, a, o) && Shape(s, |a.sizes|) && cut < s.spans[o].nbytes
    ensures var s' := CutTail(s, a, o, f, cut, c); Shape(s', |s'.bins|) && 0 <= s'.spans[o].szclass < |s'.bins|
  {
    hide WellConfigured, ClassOf, BinShape;
    assert GoodSpan(a, s.spans[o]);
    hide SpansInv, GoodSpan;
    ClassFacts(a, s.spans[o].nbytes - cut);
  }

  /** scache_cutout_span with span_split: too small, exact, no descriptor, or a cut. The result of
      the trie insert is ignored. */
  ghost function Cutout(s: Cache, a: Arena, o: Desc, c: nat, e: Env): (Outcome, Cache)
    requires ValidArena(a) && SpansInv(s, a) && Mine(s, a, o) && Shape(s, |a.sizes|) && c < |a.sizes|
  {
    var size := a.sizes[c];
    if s.spans[o].nbytes < size then (InvalidArgs, s)
    else if s.spans[o].nbytes == size then (Got(o), TrieInsert(s, o, e.nodes, e.stop).1)
    else if e.cutDesc.None? then (PoolError, s)
    else
      var f := e.cutDesc.value;
      SizeFacts(a, c);
      CutReady(s, a, o, f, size, c);
      (Got(f), TrieInsert(BinPut(CutTail(s, a, o, f, size, c), o), f, e.nodes, e.stop).1)
  }

  /** The pages are a mapped span's, so the trie has them, and the insert works. */
  lemma PartMapped(s: Cache, a: Arena, o: Desc, sp: Span)
    requires ValidArena(a) && TrieInv(s, a) && Mine(s, a, o) && GoodSpan(a, sp)
    requires forall p: nat :: InSpan(sp, p) ==> InSpan(s.spans[o], p)
    ensures PagesOf(sp) <= s.paths
  {
    hide WellConfigured, InSpan, GoodSpan, PagesOf;
    CutPages(a, sp);
    MappedInside(s, a, o);
  }

  lemma CutMapped(s: Cache, a: Arena, o: Desc, f: Desc, cut: nat)
    requires ValidArena(a) && SpansInv(s, a) && TrieInv(s, a) && Mine(s, a, o) && f !in s.spans && Cuttable(s, a, o, cut)
    ensures PagesOf(CutTail(s, a, o, f, cut, ClassOf(a, cut)).spans[f]) <= s.paths
  {
    hide WellConfigured, ClassOf, SpansInv, TrieInv, PagesOf, GoodSpan;
    CutGood(s, a, o, f, cut);
    var sp := Cut(s, a, o, f, cut).spans[f];
    assert sp == CutTail(s, a, o, f, cut, ClassOf(a, cut)).spans[f];
    assert forall p: nat :: InSpan(sp, p) ==> InSpan(s.spans[o], p);
    hide InSpan;
    PartMapped(s, a, o, sp);
  }

  lemma CutLeaves(s: Cache, a: Arena, o: Desc, f: Desc, cut: nat, c: int)
    requires a.cfg.Positive() && o in s.spans && cut < s.spans[o].nbytes && f != o
    ensures var s1 := CutTail(s, a, o, f, cut, c); f in s1.spans && o in s1.spans && s1.paths == s.paths && s1.bins == s.bins
  {
  }

  /** An insert on known paths is a cover, and does not mind a put of another span before it. */
  lemma InsertThenPut(s: Cache, o: Desc, f: Desc, e: Env)
    requires o in s.spans && f in s.spans && o != f && PagesOf(s.spans[f]) <= s.paths
    requires Shape(s, |s.bins|) && 0 <= s.spans[o].szclass < |s.bins|
    ensures TrieInsert(BinPut(s, o), f, e.nodes, e.stop).1 == BinPut(Cover(s, f), o)
  {
    hide SetBitmap, PagesOf;
    assert BinPut(s, o).spans[f] == s.spans[f];
  }

  lemma CutoutIs(s: Cache, a: Arena, o: Desc, c: nat, e: Env)
    requires ValidArena(a) && CoreInv(s, a, {o}) && Mine(s, a, o) && c < |a.sizes|
    requires a.sizes[c] < s.spans[o].nbytes && e.cutDesc.Some? && e.cutDesc.value !in s.spans
    ensures Cuttable(s, a, o, a.sizes[c])
    ensures var f := e.cutDesc.value; var s1 := Cut(s, a, o, f, a.sizes[c]);
      && Shape(s1, |s1.bins|) && 0 <= s1.spans[o].szclass < |s1.bins|
      && Cutout(s, a, o, c, e) == (Got(f), BinPut(s1, o))
  {
    var f := e.cutDesc.value;
    var size := a.sizes[c];
    assert Shape(s, |a.sizes|);
    hide WellConfigured, ClassOf, SpansInv, BinsInv, TrieInv, BinShape, InSpan, PagesOf, GoodSpan, SetBitmap;
    SizeFacts(a, c);
    CutReady(s, a, o, f, size, c);
    CutMapped(s, a, o, f, size);
    CutLeaves(s, a, o, f, size, c);
    hide BinPut, TrieInsert, Cover, CutTail;
    InsertThenPut(CutTail(s, a, o, f, size, c), o, f, e);
  }

  /** After a cut both parts are in hand. */
  lemma CutCore(s: Cache, a: Arena, o: Desc, f: Desc, cut: nat, hand: set<Desc>)
    requires ValidArena(a) && CoreInv(s, a, hand) && o in hand && f !in s.spans && Cuttable(s, a, o, cut)
    ensures var s1 := Cut(s, a, o, f, cut);
      CoreInv(s1, a, hand + {f}) && o in s1.spans && 0 <= s1.spans[o].szclass < |s1.bins|
  {
    hide WellConfigured, ClassOf, SpansInv, TrieInv, Cut, GoodSpan;
    var s1 := Cut(s, a, o, f, cut);
    assert Mine(s, a, o);
    CutTrie(s, a, o, f, cut);
    CutGood(s, a, o, f, cut);
    CutFree(s, a, o, f, cut, hand);
    assert |s1.bins| == |a.sizes|;
    hide BinsInv;
    SameFreeKeeps(s, s1, a, hand, hand + {f});
    CutMoves(s, a, o, f, cut);
    ClassInRange(a, s1.spans[o]);
  }

  /** Putting a span from the hand keeps the core. */
  lemma PutCore(s: Cache, a: Arena, d: Desc, hand: set<Desc>)
    requires ValidArena(a) && CoreInv(s, a, hand) && d in hand && d in s.spans && 0 <= s.spans[d].szclass < |s.bins|
    ensures Shape(s, |s.bins|) && OnlyFlagsOf(s, BinPut(s, d), d)
    ensures CoreInv(BinPut(s, d), a, hand - {d}) && FreeSpan(BinPut(s, d), a, hand - {d}, d)
    ensures ApartInv(s, a) ==> ApartInv(BinPut(s, d), a)
    ensures OriginsInv(s, a) ==> OriginsInv(BinPut(s, d), a)
  {
    assert Shape(s, |s.bins|);
    assert Mine(s, a, d);
    hide WellConfigured, BinsInv, SpansInv, TrieInv, RegionsInv, HomeInv, OriginsInv, BinShape, BinPut;
    BinPutKeeps(s, a, d, hand);
    StatesStay(s, BinPut(s, d), a, d);
    PlacesKeep(s, BinPut(s, d), a);
  }

  /** The origin's left neighbours are as before, and its right one is the cut. */
  lemma CutLonely(s: Cache, a: Arena, o: Desc, f: Desc, cut: nat, hand: set<Desc>)
    requires ValidArena(a) && CoreInv(s, a, hand) && o in hand && f !in s.spans && Cuttable(s, a, o, cut)
    requires Lonely(s, a, hand, o)
    ensures var s1 := Cut(s, a, o, f, cut);
      f in s1.spans && o in s1.spans && Lonely(s1, a, hand + {f}, o) && Lonely(s1, a, hand + {f}, f)
  {
    hide WellConfigured, ClassOf, TrieInv, SpansInv, GoodSpan;
    var s1 := Cut(s, a, o, f, cut);
    assert Mine(s, a, o);
    hide BinsInv;
    CutMoves(s, a, o, f, cut);
    CutTrie(s, a, o, f, cut);
    CutFree(s, a, o, f, cut, hand);
    assert s1.spans[o].age == s1.spans[f].age == s.spans[o].age;
    hide Cut;
    forall e | FreeSpan(s1, a, hand + {f}, e)
      ensures !Adjacent(s1.spans[e], s1.spans[o]) && !Adjacent(s1.spans[o], s1.spans[e])
      ensures !Adjacent(s1.spans[e], s1.spans[f]) && !Adjacent(s1.spans[f], s1.spans[e])
    {
      assert FreeSpan(s, a, hand, e) && s1.spans[e] == s.spans[e];
      NotInside(s1, a, f, e);
      NotInside(s1, a, o, e);
    }
  }

  ghost predicate CutCall(s: Cache, a: Arena, o: Desc, c: nat, e: Env)
    requires ValidArena(a)
  {
    && CoreInv(s, a, {o}) && Mine(s, a, o) && c < |a.sizes| && a.sizes[c] < s.spans[o].nbytes
    && e.cutDesc.Some? && e.cutDesc.value !in s.spans
  }

  /** A cut hands out exactly the class size, and bins the rest, next to it. */
  lemma CutoutCore(s: Cache, a: Arena, o: Desc, c: nat, e: Env)
    requires ValidArena(a) && CutCall(s, a, o, c, e)
    ensures Shape(s, |a.sizes|)
    ensures var (out, s') := Cutout(s, a, o, c, e); var f := e.cutDesc.value;
      && out == Got(f) && CoreInv(s', a, {f}) && Mine(s', a, f)
      && s'.spans[f].nbytes == a.sizes[c] && s'.spans[f].szclass == c
      && FreeSpan(s', a, {f}, o) && Adjacent(s'.spans[o], s'.spans[f])
  {
    hide WellConfigured, ClassOf, SpansInv, TrieInv, BinsInv, Cut, GoodSpan, BinPut, Cutout, BinShape;
    var f := e.cutDesc.value;
    HandReady(s, a, {o}, o);
    CutoutIs(s, a, o, c, e);
    SizeFacts(a, c);
    CutMoves(s, a, o, f, a.sizes[c]);
    CutCore(s, a, o, f, a.sizes[c], {o});
    assert {o} + {f} == {o, f};
    var s1 := Cut(s, a, o, f, a.sizes[c]);
    CutAges(s, a, o, f, a.sizes[c]);
    PutCore(s1, a, o, {o, f});
    assert {o, f} - {o} == {f};
    var s2 := BinPut(s1, o);
    assert s2.spans[f] == s1.spans[f];
    assert SamePlaces(s1, s2);
    assert s2.spans[o].addr == s1.spans[o].addr && s2.spans[o].nbytes == s1.spans[o].nbytes && s2.spans[o].age == s1.spans[o].age;
  }

  lemma CutAges(s: Cache, a: Arena, o: Desc, f: Desc, cut: nat)
    requires a.cfg.Positive() && Cuttable(s, a, o, cut)
    ensures var s1 := Cut(s, a, o, f, cut); o in s1.spans && f in s1.spans && s1.spans[o].age == s1.spans[f].age == s.spans[o].age
  {
  }

  lemma CutoutNeat(s: Cache, a: Arena, o: Desc, c: nat, e: Env)
    requires ValidArena(a) && CutCall(s, a, o, c, e)
    ensures Shape(s, |a.sizes|)
    ensures var s' := Cutout(s, a, o, c, e).1; var f := e.cutDesc.value;
      && (NeatInv(s, a, {o}) && Lonely(s, a, {o}, o) ==> NeatInv(s', a, {f}))
      && (OriginsInv(s, a) ==> OriginsInv(s', a))
  {
    hide WellConfigured, ClassOf, SpansInv, TrieInv, Cut, GoodSpan, BinPut, Cutout, BinShape;
    hide RegionsInv, HomeInv, OriginsInv, CoalescedInv, Lonely;
    var f := e.cutDesc.value;
    var cut := a.sizes[c];
    CutoutIs(s, a, o, c, e);
    CutCore(s, a, o, f, cut, {o});
    assert {o} + {f} == {o, f};
    var s1 := Cut(s, a, o, f, cut);
    PutCore(s1, a, o, {o, f});
    assert {o, f} - {o} == {f} && {o} + {f} == {o, f};
    if OriginsInv(s, a) {
      CutOrigins(s, a, o, f, cut);
    }
    if NeatInv(s, a, {o}) && Lonely(s, a, {o}, o) {
      CutApart(s, a, o, f, cut);
      CutFree(s, a, o, f, cut, {o});
      hide BinsInv;
      SameFreeKeeps(s, s1, a, {o}, {o, f});
      CutLonely(s, a, o, f, cut, {o});
      CutMoves(s, a, o, f, cut);
      BinPutCoalesced(s1, a, o, {o, f});
    }
  }

  // ----- finding or minting -----

  /** Bins from the request up, or else a new mapping; says whether the span is overfit. */
  ghost function Take(s: Cache, a: Arena, req: nat, e: Env): (Outcome, bool, Cache)
    requires ValidArena(a) && CoreInv(s, a, {}) && req < |a.sizes|
  {
    var i := FindBin(s.bitmap, |a.sizes|, req);
    if i < 0 then
      var (out, s1) := Mint(s, a, req, e);
      (out, a.defaultClass > req, s1)
    else
      PopReady(s, a, i, {});
      (Got(FirstOf(s, i)), i > req, Pop(s, i))
  }

  /** A span of a larger class is larger than the request's class size. */
  lemma OverfitRoom(a: Arena, sp: Span, c: nat)
    requires ValidArena(a) && GoodSpan(a, sp) && c < sp.szclass && c < |a.sizes|
    ensures a.sizes[c] < sp.nbytes
  {
    hide WellConfigured, ClassOf;
    assert 0 < sp.nbytes <= ALLOC_MAX && sp.szclass == ClassOf(a, sp.nbytes);
    hide GoodSpan;
    ClassFacts(a, sp.nbytes);
  }

  /** A failed mint breaks nothing. */
  lemma EpochKeeps(s: Cache, s': Cache, a: Arena, hand: set<Desc>)
    requires ValidArena(a) && OnlyEpochAndPaths(s, s')
    ensures CoreInv(s, a, hand) ==> CoreInv(s', a, hand)
    ensures NeatInv(s, a, hand) && s.epoch + 1 < UINT32_LIMIT ==> NeatInv(s', a, hand)
    ensures OriginsInv(s, a) ==> OriginsInv(s', a)
  {
    hide WellConfigured, InSpan, InRegion, GoodSpan, BinCounts, BitIs, BinShape, Placed, BlendInv;
    assert forall d :: Mine(s', a, d) <==> Mine(s, a, d);
    if s.epoch + 1 < UINT32_LIMIT {
      EpochBlend(s, s');
    }
    assert forall d :: FreeSpan(s', a, hand, d) <==> FreeSpan(s, a, hand, d);
    assert forall c: int, k, d :: InBucket(s', c, k, d) <==> InBucket(s, c, k, d);
  }

  lemma EpochBlend(s: Cache, s': Cache)
    requires OnlyEpochAndPaths(s, s') && s.epoch + 1 < UINT32_LIMIT
    ensures BlendInv(s) ==> BlendInv(s')
  {
    hide Ages, Valley, BlendInv;
    SameAges(s, s');
    BlendSame(s, s');
  }

  lemma MintCore(s: Cache, a: Arena, d: Desc, c: nat, addr: nat)
    requires ValidArena(a) && CoreInv(s, a, {}) && c < |a.sizes| && Fresh(s, a, d, c, addr)
    ensures var s' := Minted(s, a, d, c, addr);
      CoreInv(s', a, {d}) && Mine(s', a, d) && s'.spans[d].szclass == c && s'.spans[d].nbytes == a.sizes[c]
  {
    MintedIs(s, a, d, c, addr);
    hide WellConfigured, GoodSpan, Minted, Fresh, TrieInv, SpansInv;
    MintTrie(s, a, d, c, addr);
    MintSpans(s, a, d, c, addr);
    assert d !in s.spans;
    MintFree(s, a, d, c, addr, {});
    hide BinsInv;
    SameFreeKeeps(s, Minted(s, a, d, c, addr), a, {}, {} + {d});
    assert {} + {d} == {d};
  }

  /** A new mapping has no neighbours. */
  lemma MintNeat(s: Cache, a: Arena, d: Desc, c: nat, addr: nat)
    requires ValidArena(a) && CoreInv(s, a, {}) && c < |a.sizes| && Fresh(s, a, d, c, addr)
    requires s.epoch + 1 < AGE_LIMIT && ApartInv(s, a)
    ensures var s' := Minted(s, a, d, c, addr);
      && (CoalescedInv(s, a, {}) ==> NeatInv(s', a, {d}) && d in s'.spans && Lonely(s', a, {d}, d))
      && ApartInv(s', a) && (OriginsInv(s, a) ==> OriginsInv(s', a))
  {
    hide WellConfigured, GoodSpan, Minted, Fresh, TrieInv, SpansInv, OriginsInv, CoalescedInv, RegionsInv, HomeInv, BlendInv;
    MintApart(s, a, d, c, addr);
    if OriginsInv(s, a) {
      MintOrigins(s, a, d, c, addr);
    }
    assert d !in s.spans by { FreshIsNew(s, a, d, c, addr); }
    MintFree(s, a, d, c, addr, {});
    hide BinsInv;
    var s' := Minted(s, a, d, c, addr);
    SameFreeKeeps(s, s', a, {}, {} + {d});
    assert {} + {d} == {d};
    MintedFields(s, a, d, c, addr);
    hide SameFree;
    NewLonely(s, s', a, d, Region(addr, a.sizes[c]));
  }

  lemma NewLonely(s: Cache, s': Cache, a: Arena, d: Desc, r: Region)
    requires ValidArena(a) && SpansInv(s, a) && TrieInv(s, a) && ApartInv(s, a)
    requires NewHere(s, s', a, d, r) && SameFree(s, s', a, {}, {d})
    ensures Lonely(s', a, {d}, d)
  {
    hide WellConfigured, SpansInv, TrieInv, ApartInv;
    assert forall e :: FreeSpan(s', a, {d}, e) ==> FreeSpan(s, a, {}, e) && s'.spans[e] == s.spans[e];
    forall e | FreeSpan(s, a, {}, e) ensures s.spans[e].age != s.epoch {
      AgesOld(s, a, e);
    }
  }

  lemma FreshIsNew(s: Cache, a: Arena, d: Desc, c: nat, addr: nat)
    requires ValidArena(a) && c < |a.sizes| && Fresh(s, a, d, c, addr)
    ensures d !in s.spans
  {
    hide WellConfigured;
  }

  lemma TakeCore(s: Cache, a: Arena, req: nat, e: Env)
    requires ValidArena(a) && CoreInv(s, a, {}) && req < |a.sizes| && EnvOk(s, a, req, e)
    ensures var (out, over, s') := Take(s, a, req, e);
      if out.Got? then
        && CoreInv(s', a, {out.span}) && Mine(s', a, out.span)
        && (if over then a.sizes[req] < s'.spans[out.span].nbytes else s'.spans[out.span].szclass == req)
        && (e.cutDesc.Some? ==> e.cutDesc.value !in s'.spans)
        && (e.sideDesc.Some? ==> e.sideDesc.value !in s'.spans)
      else CoreInv(s', a, {})
  {
    assert MintClass(a, req) < |a.sizes|;
    hide WellConfigured, GoodSpan, Minted, Mint, Fresh, Pop, FirstOf, TrieInv, InBucket, RegionOk, InSpan, BinPop;
    var (out, over, s') := Take(s, a, req, e);
    var i := FindBin(s.bitmap, |a.sizes|, req);
    if i >= 0 {
      PopKeeps(s, a, i);
      hide BinsInv;
      if i > req {
        var d := out.span;
        assert GoodSpan(a, s.spans[d]) && s'.spans[d].nbytes == s.spans[d].nbytes;
        OverfitRoom(a, s.spans[d], req);
      }
    } else {
      hide BinsInv, SpansInv;
      MintIs(s, a, req, e);
      var c := MintClass(a, req);
      if out.Got? {
        MintCore(s, a, out.span, c, e.region.value);
        MintedKeys(s, a, out.span, c, e.region.value);
        if over {
          SizesGrow(a, req, c);
        }
      } else {
        EpochKeeps(s, s', a, {});
      }
    }
  }

  lemma MintedKeys(s: Cache, a: Arena, d: Desc, c: nat, addr: nat)
    requires c < |a.sizes|
    ensures Minted(s, a, d, c, addr).spans.Keys == s.spans.Keys + {d}
  {
  }

  lemma TakeNeat(s: Cache, a: Arena, req: nat, e: Env)
    requires ValidArena(a) && CoreInv(s, a, {}) && req < |a.sizes| && EnvOk(s, a, req, e)
    requires s.epoch + 1 < AGE_LIMIT && NeatInv(s, a, {})
    ensures var (out, over, s') := Take(s, a, req, e);
      && (OriginsInv(s, a) ==> OriginsInv(s', a))
      && if out.Got? then NeatInv(s', a, {out.span}) && out.span in s'.spans && Lonely(s', a, {out.span}, out.span)
         else NeatInv(s', a, {})
  {
    assert MintClass(a, req) < |a.sizes|;
    hide WellConfigured, GoodSpan, Minted, Mint, Fresh, Pop, FirstOf, TrieInv, BinsInv, SpansInv, RegionOk;
    hide RegionsInv, HomeInv, OriginsInv, CoalescedInv, Lonely, EnvOk, OnlyEpochAndPaths;
    var (out, over, s') := Take(s, a, req, e);
    var i := FindBin(s.bitmap, |a.sizes|, req);
    if i >= 0 {
      PopKeeps(s, a, i);
      InRange(s', a, {out.span});
      PlacesKeep(s, s', a);
    } else {
      MintIs(s, a, req, e);
      if out.Got? {
        MintNeat(s, a, out.span, MintClass(a, req), e.region.value);
      } else {
        EpochKeeps(s, s', a, {});
      }
    }
  }

  lemma InRange(s: Cache, a: Arena, hand: set<Desc>)
    requires ValidArena(a) && CoreInv(s, a, hand)
    ensures StatesInRange(s, a)
  {
    hide WellConfigured, TrieInv, BinsInv;
    assert forall d :: Mine(s, a, d) ==> GoodSpan(a, s.spans[d]);
  }

  // ----- serving the request from the span taken -----

  ghost predicate ServeCall(s: Cache, a: Arena, o: Desc, over: bool, req: nat, e: Env)
    requires ValidArena(a)
  {
    && CoreInv(s, a, {o}) && Mine(s, a, o) && req < |a.sizes| && (over ==> a.sizes[req] < s.spans[o].nbytes)
    && (e.cutDesc.Some? ==> e.cutDesc.value !in s.spans)
  }

  /** A span in hand can go to a bin. */
  lemma HandReady(s: Cache, a: Arena, hand: set<Desc>, d: Desc)
    requires ValidArena(a) && CoreInv(s, a, hand) && d in hand
    ensures Mine(s, a, d) && Shape(s, |a.sizes|) && |s.bins| == |a.sizes| && 0 <= s.spans[d].szclass < |a.sizes|
  {
    assert Mine(s, a, d);
    hide WellConfigured, ClassOf;
    assert GoodSpan(a, s.spans[d]);
    ClassInRange(a, s.spans[d]);
  }

  function HandOut(s: Cache, d: Desc, slab: bool): Cache
    requires d in s.spans
  {
    SetAlloc(if slab then MarkSlab(s, d, true) else s, d, true)
  }

  /** The cut, the slab metadata and the flag; a failure puts the span back. */
  ghost function Serve(s: Cache, a: Arena, o: Desc, over: bool, req: nat, slab: bool, e: Env): (Outcome, Cache)
    requires ValidArena(a) && ServeCall(s, a, o, over, req, e)
  {
    HandReady(s, a, {o}, o);
    var (out, s1) := if over then Cutout(s, a, o, req, e) else (Got(o), s);
    if !out.Got? then
      (out, BinPut(s, o))
    else
      assert CoreInv(s1, a, {out.span}) by { if over { CutoutCore(s, a, o, req, e); } }
      HandReady(s1, a, {out.span}, out.span);
      if slab && !e.slabMeta then (PoolError, BinPut(s1, out.span))
      else (out, HandOut(s1, out.span, slab))
  }

  predicate SameSize(x: Span, y: Span) {
    x.nbytes == y.nbytes && x.szclass == y.szclass
  }

  lemma HandOutIs(s: Cache, d: Desc, slab: bool)
    requires d in s.spans
    ensures var s' := HandOut(s, d, slab);
      && OnlyFlagsOf(s, s', d) && s'.bins == s.bins && s'.bitmap == s.bitmap
      && s'.spans[d] == s.spans[d].(isAlloc := true, isSlab := slab || s.spans[d].isSlab)
  {
  }

  lemma HandOutKeeps(s: Cache, a: Arena, d: Desc, slab: bool)
    requires ValidArena(a) && CoreInv(s, a, {d})
    ensures Mine(s, a, d)
    ensures var s' := HandOut(s, d, slab);
      && CoreInv(s', a, {}) && Mine(s', a, d) && SamePlaces(s, s')
      && s'.spans[d] == s.spans[d].(isAlloc := true, isSlab := slab || s.spans[d].isSlab)
      && (forall e :: FreeSpan(s', a, {}, e) <==> FreeSpan(s, a, {d}, e))
      && (NeatInv(s, a, {d}) ==> NeatInv(s', a, {}))
      && (OriginsInv(s, a) ==> OriginsInv(s', a))
  {
    HandReady(s, a, {d}, d);
    HandOutIs(s, d, slab);
    var s' := HandOut(s, d, slab);
    hide WellConfigured, SpansInv, TrieInv, RegionsInv, HomeInv, OriginsInv, CoalescedInv, BinsInv, HandOut, SamePlaces;
    InRange(s, a, {d});
    FlagStates(s, s', a, d);
    PlacesKeep(s, s', a);
    AllocSameFree(s, s', a, d);
    hide SameFree;
    SameFreeKeeps(s, s', a, {d}, {});
  }

  lemma FlagStates(s: Cache, s': Cache, a: Arena, d: Desc)
    requires StatesInRange(s, a) && OnlyFlagsOf(s, s', d) && s'.spans[d].state == s.spans[d].state
    ensures StatesInRange(s', a)
  {
    assert forall e :: Mine(s', a, e) ==> Mine(s, a, e);
  }

  lemma AllocSameFree(s: Cache, s': Cache, a: Arena, d: Desc)
    requires OnlyFlagsOf(s, s', d) && s'.bins == s.bins && s'.bitmap == s.bitmap && Mine(s, a, d) && s'.spans[d].isAlloc
    ensures SameFree(s, s', a, {d}, {}) && Mine(s', a, d)
    ensures forall e :: FreeSpan(s', a, {}, e) <==> FreeSpan(s, a, {d}, e)
  {
    assert forall e :: Mine(s', a, e) <==> Mine(s, a, e);
  }

  lemma ServeCore(s: Cache, a: Arena, o: Desc, over: bool, req: nat, slab: bool, e: Env)
    requires ValidArena(a) && ServeCall(s, a, o, over, req, e)
    ensures var (out, s') := Serve(s, a, o, over, req, slab, e);
      && CoreInv(s', a, {})
      && (out.Got? ==> Mine(s', a, out.span) && s'.spans[out.span].isAlloc)
      && (out.Got? && over ==> s'.spans[out.span].nbytes == a.sizes[req] && s'.spans[out.span].szclass == req)
      && (out.Got? && !over ==> out.span == o && SameSize(s'.spans[o], s.spans[o]))
  {
    hide WellConfigured, SpansInv, TrieInv, BinsInv, GoodSpan, ClassOf, Cutout, BinPut, HandOut, BinShape;
    HandReady(s, a, {o}, o);
    var s1, d := s, o;
    if over && e.cutDesc.Some? {
      CutoutCore(s, a, o, req, e);
      s1, d := Cutout(s, a, o, req, e).1, e.cutDesc.value;
    }
    if over && e.cutDesc.None? {
      CutoutPoor(s, a, o, req, e);
      PutCore(s, a, o, {o});
      assert {o} - {o} == {};
    } else {
      HandReady(s1, a, {d}, d);
      PutCore(s1, a, d, {d});
      assert {d} - {d} == {};
      HandOutKeeps(s1, a, d, slab);
    }
  }

  lemma CutoutPoor(s: Cache, a: Arena, o: Desc, c: nat, e: Env)
    requires ValidArena(a) && SpansInv(s, a) && Mine(s, a, o) && Shape(s, |a.sizes|) && c < |a.sizes|
    requires a.sizes[c] < s.spans[o].nbytes && e.cutDesc.None?
    ensures Cutout(s, a, o, c, e) == (PoolError, s)
  {
  }

  /** The one way to leave two free neighbours: the slab metadata fails after a cut. */
  predicate CutThenNoSlab(over: bool, slab: bool, e: Env) {
    over && e.cutDesc.Some? && slab && !e.slabMeta
  }

  lemma ServeApart(s: Cache, a: Arena, o: Desc, over: bool, req: nat, slab: bool, e: Env)
    requires ValidArena(a) && ServeCall(s, a, o, over, req, e)
    requires NeatInv(s, a, {o}) && Lonely(s, a, {o}, o)
    ensures var (out, s') := Serve(s, a, o, over, req, slab, e);
      && ApartInv(s', a) && (OriginsInv(s, a) ==> OriginsInv(s', a))
      && (CutThenNoSlab(over, slab, e) ==> out == PoolError)
      && (!CutThenNoSlab(over, slab, e) ==> CoalescedInv(s', a, {}))
  {
    hide WellConfigured, SpansInv, TrieInv, BinsInv, ClassOf, Cutout, BinPut, HandOut, BinShape, OriginsInv;
    hide RegionsInv, HomeInv, CoalescedInv, Lonely, Placed;
    HandReady(s, a, {o}, o);
    var s1, d := s, o;
    if over && e.cutDesc.Some? {
      CutoutCore(s, a, o, req, e);
      CutoutNeat(s, a, o, req, e);
      s1, d := Cutout(s, a, o, req, e).1, e.cutDesc.value;
    }
    HandReady(s1, a, {d}, d);
    PutCore(s1, a, d, {d});
    assert {d} - {d} == {};
    if over && e.cutDesc.None? {
      CutoutPoor(s, a, o, req, e);
      PutLonely(s, a, o);
    } else if slab && !e.slabMeta {
      if !over {
        PutLonely(s, a, o);
      }
    } else {
      HandOutKeeps(s1, a, d, slab);
    }
  }

  lemma PutLonely(s: Cache, a: Arena, d: Desc)
    requires ValidArena(a) && CoreInv(s, a, {d}) && CoalescedInv(s, a, {d})
    requires Mine(s, a, d) && Lonely(s, a, {d}, d)
    ensures Shape(s, |s.bins|) && 0 <= s.spans[d].szclass < |s.bins| && CoalescedInv(BinPut(s, d), a, {})
  {
    HandReady(s, a, {d}, d);
    hide WellConfigured, BinsInv, TrieInv, CoalescedInv, Lonely, BinPut, ClassOf;
    assert GoodSpan(a, s.spans[d]);
    BinPutCoalesced(s, a, d, {d});
    assert {d} - {d} == {};
  }

  /** In that one way, the cut and its origin lie side by side, both free. */
  lemma ServeSplits(s: Cache, a: Arena, o: Desc, over: bool, req: nat, slab: bool, e: Env)
    requires ValidArena(a) && ServeCall(s, a, o, over, req, e) && CutThenNoSlab(over, slab, e)
    ensures var s' := Serve(s, a, o, over, req, slab, e).1; !CoalescedInv(s', a, {})
  {
    hide WellConfigured, SpansInv, TrieInv, BinsInv, ClassOf, Cutout, BinPut, HandOut, BinShape;
    HandReady(s, a, {o}, o);
    CutoutCore(s, a, o, req, e);
    var s1, f := Cutout(s, a, o, req, e).1, e.cutDesc.value;
    HandReady(s1, a, {f}, f);
    PutCore(s1, a, f, {f});
    var s2 := BinPut(s1, f);
    assert {f} - {f} == {};
    assert f != o && s2.spans[o] == s1.spans[o];
    assert FreeSpan(s2, a, {}, o) && FreeSpan(s2, a, {}, f) && Adjacent(s2.spans[o], s2.spans[f]);
  }

  // ----- scache_get_span -----

  ghost predicate GetCall(s: Cache, a: Arena, req: int, e: Env)
    requires ValidArena(a)
  {
    CoreInv(s, a, {}) && (0 <= req < |a.sizes| ==> EnvOk(s, a, req, e))
  }

  ghost function GetSpan(s: Cache, a: Arena, req: int, slab: bool, e: Env): (Outcome, Cache)
    requires ValidArena(a) && GetCall(s, a, req, e)
  {
    if req < 0 || req >= |a.sizes| then (InvalidArgs, s)
    else
      var (out, over, s1) := Take(s, a, req, e);
      if !out.Got? then (out, s1)
      else
        TakeCore(s, a, req, e);
        Serve(s1, a, out.span, over, req, slab, e)
  }

  lemma GetSpanCore(s: Cache, a: Arena, req: int, slab: bool, e: Env)
    requires ValidArena(a) && GetCall(s, a, req, e)
    ensures var (out, s') := GetSpan(s, a, req, slab, e);
      CoreInv(s', a, {}) && (out.Got? ==> Mine(s', a, out.span) && s'.spans[out.span].isAlloc)
  {
    hide CoreInv, Take, Serve, WellConfigured, EnvOk;
    if 0 <= req < |a.sizes| {
      TakeCore(s, a, req, e);
      var (out, over, s1) := Take(s, a, req, e);
      if out.Got? {
        ServeCore(s1, a, out.span, over, req, slab, e);
      }
    }
  }

  /** Whether the call cut a span, and then could not make slab metadata. */
  ghost predicate SplitByGet(s: Cache, a: Arena, req: int, slab: bool, e: Env)
    requires ValidArena(a) && CoreInv(s, a, {})
  {
    0 <= req < |a.sizes| && Take(s, a, req, e).0.Got? && CutThenNoSlab(Take(s, a, req, e).1, slab, e)
  }

  lemma GetSpanApart(s: Cache, a: Arena, req: int, slab: bool, e: Env)
    requires ValidArena(a) && GetCall(s, a, req, e) && NeatInv(s, a, {}) && s.epoch + 1 < AGE_LIMIT
    ensures var s' := GetSpan(s, a, req, slab, e).1;
      && ApartInv(s', a) && (OriginsInv(s, a) ==> OriginsInv(s', a))
      && (CoalescedInv(s', a, {}) <==> !SplitByGet(s, a, req, slab, e))
  {
    hide CoreInv, Take, Serve, WellConfigured, EnvOk, ApartInv, CoalescedInv, Lonely, OriginsInv;
    if 0 <= req < |a.sizes| {
      TakeCore(s, a, req, e);
      TakeNeat(s, a, req, e);
      var (out, over, s1) := Take(s, a, req, e);
      if out.Got? {
        ServeApart(s1, a, out.span, over, req, slab, e);
        if CutThenNoSlab(over, slab, e) {
          ServeSplits(s1, a, out.span, over, req, slab, e);
        }
      }
    }
  }
}
