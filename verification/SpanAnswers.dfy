/** What a get answers, stated over the free spans and the environment: which span is taken, when the
    call succeeds, and what becomes of the descriptors. Bins, trie and bitmaps do not occur here; the
    invariant ties them to the descriptors. */
module SpanAnswers {
  import opened Bits
  import opened SizeClasses
  import opened SpanState
  import opened SpanInvariants
  import opened SpanSteps
  import opened SpanOps
  import opened SpanGet
  import opened SpanAligned
  import opened SpanDecay

  // ----- which free span is taken -----

  /** The smaller class first, dirty before retained, then the older, then the lower address. */
  predicate Preferred(x: Span, y: Span) {
    x.szclass < y.szclass || (x.szclass == y.szclass && (
      (x.state == DIRTY && y.state == RETAINED) ||
      (x.state == y.state && (x.age < y.age || (x.age == y.age && x.addr < y.addr)))))
  }

  /** A free span of the class asked for, or of a larger one. */
  ghost predicate Usable(s: Cache, a: Arena, req: nat, d: Desc) {
    FreeSpan(s, a, {}, d) && s.spans[d].szclass >= req
  }

  ghost predicate SomeUsable(s: Cache, a: Arena, req: nat) {
    exists d :: Usable(s, a, req, d)
  }

  ghost predicate Best(s: Cache, a: Arena, req: nat, d: Desc) {
    Usable(s, a, req, d) && forall e :: Usable(s, a, req, e) && e != d ==> Preferred(s.spans[d], s.spans[e])
  }

  lemma BestUnique(s: Cache, a: Arena, req: nat, d: Desc, e: Desc)
    requires Best(s, a, req, d) && Best(s, a, req, e)
    ensures d == e
  {
  }

  /** A free span shows in the bitmap under its class. */
  lemma UsableShows(s: Cache, a: Arena, req: nat, d: Desc)
    requires BinsInv(s, a, {}) && Usable(s, a, req, d)
    ensures var c := s.spans[d].szclass;
      && 0 <= c < |s.bins| && BitIs(s.bitmap, c) && InBucket(s, c, s.spans[d].state, d)
      && s.spans[d].state in s.bins[c].bits && s.spans[d].state in {DIRTY, RETAINED}
  {
    var c: nat := s.spans[d].szclass;
    assert InBucket(s, c, s.spans[d].state, d);
    assert BinCounts(s.bins[c]);
  }

  /** The bitmap's answer: none, or the class of the best span, which heads its bin. */
  lemma PopsBest(s: Cache, a: Arena, req: nat)
    requires ValidArena(a) && CoreInv(s, a, {}) && req < |a.sizes|
    ensures var i := FindBin(s.bitmap, |a.sizes|, req);
      && (i < 0 <==> !SomeUsable(s, a, req))
      && (i >= 0 ==> Poppable(s, i) && Best(s, a, req, FirstOf(s, i)) && s.spans[FirstOf(s, i)].szclass == i)
  {
    hide WellConfigured, SpansInv, TrieInv, BinsInv, BitIs, InBucket, FirstOf, Before;
    var i := FindBin(s.bitmap, |a.sizes|, req);
    forall e | Usable(s, a, req, e) ensures i >= 0 && s.spans[e].szclass >= i {
      UsableShows(s, a, req, e);
      BinsCount(s, a);
    }
    if i >= 0 {
      HeadIsBest(s, a, req, i);
    }
  }

  lemma BinsCount(s: Cache, a: Arena)
    requires BinsInv(s, a, {})
    ensures |s.bins| == |a.sizes|
  {
  }

  lemma HeadIsBest(s: Cache, a: Arena, req: nat, c: nat)
    requires ValidArena(a) && CoreInv(s, a, {}) && req <= c && BitIs(s.bitmap, c)
    requires forall e :: Usable(s, a, req, e) ==> s.spans[e].szclass >= c
    ensures Poppable(s, c) && Best(s, a, req, FirstOf(s, c)) && s.spans[FirstOf(s, c)].szclass == c
  {
    hide WellConfigured, SpansInv, TrieInv, BinsInv, BitIs, InBucket, FirstOf, Before;
    var _ := PopIs(s, a, c);
    var d := FirstOf(s, c);
    UsableShows(s, a, req, d);
    forall e | Usable(s, a, req, e) && e != d ensures Preferred(s.spans[d], s.spans[e]) {
      if s.spans[e].szclass == c {
        SameBin(s, a, req, c, d, e);
      }
    }
  }

  lemma SameBin(s: Cache, a: Arena, req: nat, c: nat, d: Desc, e: Desc)
    requires ValidArena(a) && CoreInv(s, a, {}) && Poppable(s, c) && d == FirstOf(s, c)
    requires Usable(s, a, req, d) && Usable(s, a, req, e) && e != d && s.spans[e].szclass == c == s.spans[d].szclass
    requires InBucket(s, c, FirstBucket(s.bins[c].bits), d)
    ensures Preferred(s.spans[d], s.spans[e])
  {
    hide WellConfigured, SpansInv, TrieInv, BitIs;
    UsableShows(s, a, req, d);
    UsableShows(s, a, req, e);
    if s.spans[e].state == s.spans[d].state {
      assert e in s.bins[c].buckets[FirstBucket(s.bins[c].bits)];
      BeforeTotal(s, a, d, e);
      assert !Before(s.spans[e], s.spans[d]);
    }
  }

  // ----- what is taken -----

  /** Memory, trie, records and epoch are as they were. */
  ghost predicate SameMemory(s: Cache, s': Cache) {
    && s'.mapped == s.mapped && s'.regions == s.regions && s'.epoch == s.epoch
    && s'.trie == s.trie && s'.paths == s.paths && s'.origins == s.origins
  }

  /** What a free span becomes when it is put in a bin that is not of retained spans. */
  function Idle(sp: Span): Span {
    sp.(state := DIRTY)
  }

  lemma TakeBest(s: Cache, a: Arena, req: nat, e: Env, d: Desc)
    requires ValidArena(a) && CoreInv(s, a, {}) && req < |a.sizes| && EnvOk(s, a, req, e) && Best(s, a, req, d)
    ensures var (out, over, s1) := Take(s, a, req, e);
      && out == Got(d) && (over <==> s.spans[d].szclass > req)
      && SameMemory(s, s1) && s1.spans == s.spans[d := Idle(s.spans[d])]
  {
    PopsBest(s, a, req);
    hide WellConfigured, SpansInv, TrieInv, BinsInv, FirstOf, Mint, Preferred, Pop, EnvOk;
    var i := FindBin(s.bitmap, |a.sizes|, req);
    assert i >= 0;
    BestUnique(s, a, req, d, FirstOf(s, i));
    PopSpans(s, a, i);
  }

  lemma PopSpans(s: Cache, a: Arena, c: nat)
    requires ValidArena(a) && CoreInv(s, a, {}) && BitIs(s.bitmap, c)
    ensures Poppable(s, c)
    ensures var d := FirstOf(s, c); var s' := Pop(s, c);
      d in s.spans && SameMemory(s, s') && s'.spans == s.spans[d := Idle(s.spans[d])]
  {
    hide WellConfigured, SpansInv, TrieInv, BinsInv, FirstOf, FirstBucket, BitIs, InBucket, Unbin, Pop;
    var epochMin := PopIs(s, a, c);
    var (k, d) := (FirstBucket(s.bins[c].bits), FirstOf(s, c));
    BinStates(s, a, c, k, d);
    UnbinSpans(s, c, k, d, epochMin);
    assert s.spans[d].state == DIRTY ==> s.spans[d := Idle(s.spans[d])] == s.spans;
  }

  lemma BinStates(s: Cache, a: Arena, c: nat, k: nat, d: Desc)
    requires BinsInv(s, a, {}) && InBucket(s, c, k, d)
    ensures d in s.spans && s.spans[d].state == k && k != CLEAN && k < SPAN_NSTATES
  {
  }

  lemma UnbinSpans(s: Cache, c: nat, k: nat, d: Desc, epochMin: nat)
    requires d in s.spans && Shape(s, |s.bins|) && c < |s.bins| && k < SPAN_NSTATES && s.bins[c].nspans > 0
    ensures var s' := Unbin(s, c, k, d, epochMin);
      SameMemory(s, s') && s'.spans == if k == RETAINED then s.spans[d := Idle(s.spans[d])] else s.spans
  {
  }

  // ----- what is mapped -----

  /** The larger of the default class and the class asked for. */
  function NewClass(a: Arena, req: nat): nat {
    if req < a.defaultClass then a.defaultClass else req
  }

  /** A descriptor, memory, and nodes of the trie for all its pages are to be had. */
  predicate CanMap(s: Cache, a: Arena, req: nat, e: Env)
    requires NewClass(a, req) < |a.sizes|
  {
    && e.mintDesc.Some? && e.region.Some?
    && (e.nodes || Pages(e.region.value, a.sizes[NewClass(a, req)]) <= s.paths)
  }

  lemma NewClassIn(a: Arena, req: nat)
    requires ValidArena(a) && req < |a.sizes|
    ensures NewClass(a, req) < |a.sizes| && MintClass(a, req) == NewClass(a, req)
  {
  }

  /** The descriptors after a mapping: one more, with the mapping's size in its record if records are
      kept. */
  function WithNew(s: Cache, a: Arena, req: nat, e: Env): map<Desc, Span>
    requires NewClass(a, req) < |a.sizes| && e.mintDesc.Some? && e.region.Some?
  {
    var size := a.sizes[NewClass(a, req)];
    s.spans[e.mintDesc.value := Span(s.epoch % AGE_LIMIT, NewClass(a, req), a.uid, CLEAN, false, false, e.region.value, size,
                                     if a.unmapOnTermination then Some(size) else None)]
  }

  /** The memory just mapped counts as the arena's, from the epoch on that was current. */
  ghost predicate OneMapping(s: Cache, s': Cache, a: Arena, req: nat, e: Env)
    requires NewClass(a, req) < |a.sizes| && e.mintDesc.Some? && e.region.Some?
  {
    var size := a.sizes[NewClass(a, req)];
    && s'.mapped == s.mapped + Pages(e.region.value, size)
    && s'.regions == s.regions[s.epoch := Region(e.region.value, size)] && s'.epoch == (s.epoch + 1) % UINT32_LIMIT
    && s'.origins == if a.unmapOnTermination then [e.mintDesc.value] + s.origins else s.origins
  }

  lemma TakeNew(s: Cache, a: Arena, req: nat, e: Env)
    requires ValidArena(a) && CoreInv(s, a, {}) && req < |a.sizes| && EnvOk(s, a, req, e) && !SomeUsable(s, a, req)
    ensures NewClass(a, req) < |a.sizes|
    ensures var (out, over, s1) := Take(s, a, req, e);
      && (over <==> a.defaultClass > req)
      && (e.mintDesc.None? ==> out == PoolError && s1 == s)
      && (e.mintDesc.Some? && e.region.None? ==> out == MapError && s1 == s)
      && (e.mintDesc.Some? && e.region.Some? && !CanMap(s, a, req, e) ==>
            out == PoolError && s1 == s.(paths := s1.paths, epoch := (s.epoch + 1) % UINT32_LIMIT))
      && (CanMap(s, a, req, e) ==>
            out == Got(e.mintDesc.value) && s1.spans == WithNew(s, a, req, e) && OneMapping(s, s1, a, req, e))
  {
    NewClassIn(a, req);
    PopsBest(s, a, req);
    hide WellConfigured, SpansInv, TrieInv, BinsInv, FirstOf, Mint, Pop, SomeUsable;
    MintNew(s, a, req, e);
  }

  lemma MintNew(s: Cache, a: Arena, req: nat, e: Env)
    requires ValidArena(a) && req < |a.sizes| && EnvOk(s, a, req, e)
    ensures NewClass(a, req) < |a.sizes| && MintClass(a, req) == NewClass(a, req)
    ensures var (out, s1) := Mint(s, a, req, e);
      && (e.mintDesc.None? ==> out == PoolError && s1 == s)
      && (e.mintDesc.Some? && e.region.None? ==> out == MapError && s1 == s)
      && (e.mintDesc.Some? && e.region.Some? && !CanMap(s, a, req, e) ==>
            out == PoolError && s1 == s.(paths := s1.paths, epoch := (s.epoch + 1) % UINT32_LIMIT))
      && (CanMap(s, a, req, e) ==>
            out == Got(e.mintDesc.value) && s1.spans == WithNew(s, a, req, e) && OneMapping(s, s1, a, req, e))
  {
    NewClassIn(a, req);
    hide WellConfigured;
    if e.mintDesc.Some? && e.region.Some? {
      var (c, d, addr) := (NewClass(a, req), e.mintDesc.value, e.region.value);
      var sp := NewSpan(a, s.epoch % AGE_LIMIT, c, addr);
      assert PagesOf(sp) == Pages(addr, a.sizes[c]);
      hide Pages, PagesOf;
      var s1 := s.(spans := s.spans[d := sp], epoch := (s.epoch + 1) % UINT32_LIMIT);
      if !CanMap(s, a, req, e) {
        assert TrieInsert(s1, d, e.nodes, e.stop).1.trie == s.trie;
        assert s1.spans - {d} == s.spans;
      }
    }
  }

  // ----- the cut, the slab metadata and the flag -----

  /** The last bytes of a span, as a span of class `c` of their own. */
  function Tail(sp: Span, c: nat, size: nat): Span
    requires size <= sp.nbytes
  {
    sp.(szclass := c, addr := sp.addr + sp.nbytes - size, nbytes := size, record := None)
  }

  /** What is left before them, under the class of its size. */
  function Rest(a: Arena, sp: Span, size: nat): Span
    requires a.cfg.Positive() && size <= sp.nbytes
  {
    sp.(nbytes := sp.nbytes - size, szclass := ClassOf(a, sp.nbytes - size))
  }

  function HandedOut(sp: Span, slab: bool): Span {
    sp.(isAlloc := true, isSlab := slab || sp.isSlab)
  }

  /** The descriptors after a request was served from span `o`, of which the tail is cut if `over`. */
  function Served(a: Arena, spans: map<Desc, Span>, o: Desc, over: bool, req: nat, slab: bool, e: Env): (Outcome, map<Desc, Span>)
    requires a.cfg.Positive() && o in spans && req < |a.sizes| && (over ==> a.sizes[req] < spans[o].nbytes)
  {
    var (sp, fails) := (spans[o], slab && !e.slabMeta);
    if over && e.cutDesc.None? then (PoolError, spans[o := Idle(sp)])
    else if over then
      var (f, tail) := (e.cutDesc.value, Tail(sp, req, a.sizes[req]));
      (if fails then PoolError else Got(f),
       spans[f := if fails then Idle(tail) else HandedOut(tail, slab)][o := Idle(Rest(a, sp, a.sizes[req]))])
    else if fails then (PoolError, spans[o := Idle(sp)])
    else (Got(o), spans[o := HandedOut(sp, slab)])
  }

  ghost predicate OnlyBinned(s: Cache, s': Cache) {
    s' == s.(spans := s'.spans, bins := s'.bins, bitmap := s'.bitmap)
  }

  lemma BinPutSpans(s: Cache, d: Desc)
    requires d in s.spans && Shape(s, |s.bins|) && 0 <= s.spans[d].szclass < |s.bins| && s.spans[d].state != RETAINED
    ensures BinPut(s, d).spans == s.spans[d := Idle(s.spans[d])] && OnlyBinned(s, BinPut(s, d))
  {
  }

  lemma HandOutSpans(s: Cache, d: Desc, slab: bool)
    requires d in s.spans
    ensures HandOut(s, d, slab).spans == s.spans[d := HandedOut(s.spans[d], slab)] && OnlyBinned(s, HandOut(s, d, slab))
  {
  }

  lemma CutoutSpans(s: Cache, a: Arena, o: Desc, c: nat, e: Env)
    requires ValidArena(a) && CutCall(s, a, o, c, e) && s.spans[o].state != RETAINED
    ensures Shape(s, |a.sizes|)
    ensures var (out, s') := Cutout(s, a, o, c, e); var sp := s.spans[o];
      && out == Got(e.cutDesc.value) && s' == s.(spans := s'.spans, bins := s'.bins, bitmap := s'.bitmap, trie := s'.trie, paths := s'.paths)
      && s'.spans == s.spans[e.cutDesc.value := Tail(sp, c, a.sizes[c])][o := Idle(Rest(a, sp, a.sizes[c]))]
  {
    hide WellConfigured, ClassOf, SpansInv, TrieInv, BinsInv, Cut, GoodSpan, BinPut, Cutout, BinShape, Cuttable;
    var (f, size) := (e.cutDesc.value, a.sizes[c]);
    HandReady(s, a, {o}, o);
    CutoutIs(s, a, o, c, e);
    CutMoves(s, a, o, f, size);
    CutFields(s, a, o, f, size);
    SizeFacts(a, c);
    CutSpansAre(s, a, o, f, size, c);
    BinPutSpans(Cut(s, a, o, f, size), o);
  }

  lemma CutSpansAre(s: Cache, a: Arena, o: Desc, f: Desc, cut: nat, c: nat)
    requires a.cfg.Positive() && o in s.spans && cut < s.spans[o].nbytes && f !in s.spans && c == ClassOf(a, cut)
    ensures Cut(s, a, o, f, cut).spans == s.spans[f := Tail(s.spans[o], c, cut)][o := Rest(a, s.spans[o], cut)]
  {
    hide ClassOf, PagesOf;
  }

  lemma LastWrite(m: map<Desc, Span>, f: Desc, o: Desc, x: Span, y: Span, z: Span)
    requires f != o
    ensures m[f := x][o := y][f := z] == m[f := z][o := y]
  {
  }

  lemma ServeSpans(s: Cache, a: Arena, o: Desc, over: bool, req: nat, slab: bool, e: Env)
    requires ValidArena(a) && ServeCall(s, a, o, over, req, e) && s.spans[o].state != RETAINED
    ensures var (out, s') := Serve(s, a, o, over, req, slab, e);
      && (out, s'.spans) == Served(a, s.spans, o, over, req, slab, e)
      && s' == s.(spans := s'.spans, bins := s'.bins, bitmap := s'.bitmap, trie := s'.trie, paths := s'.paths)
  {
    hide WellConfigured, SpansInv, TrieInv, BinsInv, Cutout, BinPut, HandOut, ClassOf;
    HandReady(s, a, {o}, o);
    if over && e.cutDesc.None? {
      CutoutPoor(s, a, o, req, e);
      BinPutSpans(s, o);
    } else {
      var s1, d := s, o;
      if over {
        CutoutSpans(s, a, o, req, e);
        CutoutCore(s, a, o, req, e);
        s1, d := Cutout(s, a, o, req, e).1, e.cutDesc.value;
        var (tail, rest) := (Tail(s.spans[o], req, a.sizes[req]), Idle(Rest(a, s.spans[o], a.sizes[req])));
        LastWrite(s.spans, d, o, tail, rest, Idle(tail));
        LastWrite(s.spans, d, o, tail, rest, HandedOut(tail, slab));
      }
      HandReady(s1, a, {d}, d);
      HandOutSpans(s1, d, slab);
      BinPutSpans(s1, d);
    }
  }

  // ----- scache_get_span -----

  /** No memory was mapped or entered in the records; bins apart, only descriptors and entries of the
      trie may differ. */
  ghost predicate NothingMapped(s: Cache, s': Cache) {
    && s'.mapped == s.mapped && s'.regions == s.regions && s'.epoch == s.epoch && s'.origins == s.origins
  }

  /** While a free span of the class or above is left, the best of them serves the request, and nothing is
      mapped. */
  lemma GetFromBin(s: Cache, a: Arena, req: nat, slab: bool, e: Env, d: Desc)
    requires ValidArena(a) && GetCall(s, a, req, e) && req < |a.sizes| && Best(s, a, req, d)
    ensures var over := s.spans[d].szclass > req; var (out, s') := GetSpan(s, a, req, slab, e);
      && (over ==> a.sizes[req] < s.spans[d].nbytes)
      && (out, s'.spans) == Served(a, s.spans[d := Idle(s.spans[d])], d, over, req, slab, e)
      && NothingMapped(s, s')
  {
    hide WellConfigured, CoreInv, Take, Serve, EnvOk, Best, Served;
    TakeCore(s, a, req, e);
    TakeBest(s, a, req, e, d);
    var (_, over, s1) := Take(s, a, req, e);
    ServeSpans(s1, a, d, over, req, slab, e);
  }

  /** Otherwise the request is served from a new mapping, if there can be one. */
  lemma GetFromMapper(s: Cache, a: Arena, req: nat, slab: bool, e: Env)
    requires ValidArena(a) && GetCall(s, a, req, e) && req < |a.sizes| && !SomeUsable(s, a, req)
    ensures NewClass(a, req) < |a.sizes|
    ensures var (out, s') := GetSpan(s, a, req, slab, e);
      && (!CanMap(s, a, req, e) ==>
            && out == (if e.mintDesc.Some? && e.region.None? then MapError else PoolError)
            && s'.spans == s.spans && s'.trie == s.trie && s'.mapped == s.mapped && s'.regions == s.regions && s'.origins == s.origins
            && s'.epoch == if e.mintDesc.Some? && e.region.Some? then (s.epoch + 1) % UINT32_LIMIT else s.epoch)
      && (CanMap(s, a, req, e) ==>
            && (a.defaultClass > req ==> a.sizes[req] < a.sizes[NewClass(a, req)])
            && (out, s'.spans) == Served(a, WithNew(s, a, req, e), e.mintDesc.value, a.defaultClass > req, req, slab, e)
            && OneMapping(s, s', a, req, e))
  {
    hide WellConfigured, CoreInv, Take, Serve, EnvOk, Served, SomeUsable;
    TakeCore(s, a, req, e);
    TakeNew(s, a, req, e);
    var (out, over, s1) := Take(s, a, req, e);
    if out.Got? {
      ServeSpans(s1, a, out.span, over, req, slab, e);
    }
  }

  /** What a caller can see beforehand of whether the call will succeed. */
  ghost predicate GetWorks(s: Cache, a: Arena, req: int, slab: bool, e: Env) {
    && 0 <= req < |a.sizes| && (slab ==> e.slabMeta)
    && if SomeUsable(s, a, req) then
         forall d :: Best(s, a, req, d) && s.spans[d].szclass > req ==> e.cutDesc.Some?
       else NewClass(a, req) < |a.sizes| && CanMap(s, a, req, e) && (a.defaultClass > req ==> e.cutDesc.Some?)
  }

  lemma ServedGot(a: Arena, spans: map<Desc, Span>, o: Desc, over: bool, req: nat, slab: bool, e: Env)
    requires a.cfg.Positive() && o in spans && req < |a.sizes| && (over ==> a.sizes[req] < spans[o].nbytes)
    ensures Served(a, spans, o, over, req, slab, e).0.Got? <==> (slab ==> e.slabMeta) && (over ==> e.cutDesc.Some?)
  {
  }

  /** A get succeeds exactly if some free span serves it, or else memory can be mapped, a descriptor for
      the cut is there when the span is of a larger class, and the metadata when a slab is asked for. */
  lemma GetWorksIff(s: Cache, a: Arena, req: int, slab: bool, e: Env)
    requires ValidArena(a) && GetCall(s, a, req, e)
    ensures GetSpan(s, a, req, slab, e).0.Got? <==> GetWorks(s, a, req, slab, e)
  {
    hide WellConfigured, CoreInv, Take, Serve, EnvOk, Served, Best, CanMap;
    if 0 <= req < |a.sizes| {
      if SomeUsable(s, a, req) {
        var d := BestExists(s, a, req);
        GetFromBin(s, a, req, slab, e, d);
        ServedGot(a, s.spans[d := Idle(s.spans[d])], d, s.spans[d].szclass > req, req, slab, e);
        forall x | Best(s, a, req, x) ensures x == d {
          BestUnique(s, a, req, x, d);
        }
      } else {
        GetFromMapper(s, a, req, slab, e);
        if CanMap(s, a, req, e) {
          NewIsThere(s, a, req, e);
          ServedGot(a, WithNew(s, a, req, e), e.mintDesc.value, a.defaultClass > req, req, slab, e);
        }
      }
    }
  }

  lemma NewIsThere(s: Cache, a: Arena, req: nat, e: Env)
    requires NewClass(a, req) < |a.sizes| && CanMap(s, a, req, e)
    ensures e.mintDesc.Some? && e.region.Some? && e.mintDesc.value in WithNew(s, a, req, e)
    ensures var sp := WithNew(s, a, req, e)[e.mintDesc.value]; sp.nbytes == a.sizes[NewClass(a, req)] && sp.addr == e.region.value
  {
  }

  lemma BestExists(s: Cache, a: Arena, req: nat) returns (d: Desc)
    requires ValidArena(a) && CoreInv(s, a, {}) && req < |a.sizes| && SomeUsable(s, a, req)
    ensures Best(s, a, req, d) && d in s.spans
  {
    PopsBest(s, a, req);
    d := FirstOf(s, FindBin(s.bitmap, |a.sizes|, req));
  }

  // ----- scache_get_span_aligned -----

  /** How many bytes lie before the first aligned address. */
  function BytesBefore(addr: nat, align: nat): nat
    requires align > 0
  {
    (align - addr % align) % align
  }

  lemma OffsetIsGap(addr: nat, align: nat)
    requires align > 0
    ensures Offset(addr, align) == BytesBefore(addr, align)
  {
    var (q, r) := (addr / align, addr % align);
    assert addr == align * q + r;
    if r == 0 {
      DivUnique(addr + align - 1, align, q, align - 1);
      DivUnique(align, align, 1, 0);
    } else {
      Distribute(align, q, 1);
      DivUnique(addr + align - 1, align, q + 1, r - 1);
      DivUnique(align - r, align, 0, align - r);
    }
  }

  /** The descriptors after a span was split for alignment: the middle piece is handed out, the others are
      idle, and none has a record. A span that is too small, or lacks descriptors, stays as it is. */
  function SplitFor(a: Arena, spans: map<Desc, Span>, o: Desc, align: nat, c: nat, e: Env): (Outcome, map<Desc, Span>)
    requires a.cfg.Positive() && o in spans && align > 0 && c < |a.sizes|
  {
    var (sp, size) := (spans[o].(record := None), a.sizes[c]);
    var gap := BytesBefore(sp.addr, align);
    if sp.nbytes < size + align then (InvalidArgs, spans)
    else if e.cutDesc.None? || (gap > 0 && e.sideDesc.None?) then (PoolError, spans)
    else
      var rest: nat := sp.nbytes - gap - size;
      var right := sp.(addr := sp.addr + gap + size, nbytes := rest, szclass := ClassOf(a, rest));
      var middle := sp.(addr := sp.addr + gap, nbytes := size, szclass := c, isAlloc := true);
      var left := sp.(nbytes := gap, szclass := ClassOf(a, gap));
      if gap == 0 then (Got(o), spans[e.cutDesc.value := Idle(right)][o := middle])
      else (Got(e.sideDesc.value), spans[e.cutDesc.value := Idle(right)][o := Idle(left)][e.sideDesc.value := middle])
  }

  lemma SplitSpansAre(s: Cache, a: Arena, o: Desc, align: nat, c: nat, e: Env)
    requires ValidArena(a) && SplitCall(s, a, o, align, c, e)
    ensures var off := Offset(s.spans[o].addr, align); var s' := SplitAndInsert(s, a, o, align, c, e);
      && off + a.sizes[c] < s.spans[o].nbytes && s'.spans == SplitInto(s, a, o, off, c, e).spans
      && s' == s.(spans := s'.spans, trie := s'.trie, paths := s'.paths)
  {
    hide WellConfigured, CoreInv, SplitAndInsert, Offset, Pieces, ClassOf, SplitInto;
    var off := Offset(s.spans[o].addr, align);
    SplitBasics(s, a, o, align, c, e);
    SplitAndInsertIs(s, a, o, align, c, e);
    SplitSpans(s, a, o, off, c, e);
  }

  /** The pieces in the bins, and the middle one marked. */
  lemma RebinSpans(s: Cache, a: Arena, o: Desc, off: nat, c: nat, e: Env)
    requires ValidArena(a) && HasDescs(off, e) && SplitInHand(s, a, o, off, c, e) && DistinctDescs(o, e)
    requires e.cutDesc.value in s.spans && s.spans[e.cutDesc.value].state != RETAINED && o in s.spans && s.spans[o].state != RETAINED
    ensures var (f, x) := (e.cutDesc.value, SplitDesc(o, off, e)); var s' := Rebin(s, a, o, off, c, e); var sp := s.spans;
      && x in sp && OnlyBinned(s, s')
      && s'.spans == if off > 0 then sp[f := Idle(sp[f])][o := Idle(sp[o])][x := sp[x].(isAlloc := true)]
                     else sp[f := Idle(sp[f])][o := sp[o].(isAlloc := true)]
  {
    hide WellConfigured, SpansInv, TrieInv, BinsInv, BinPut, TrieInsert;
    var (f, x) := (e.cutDesc.value, SplitDesc(o, off, e));
    var hand := PieceSet(o, off, e);
    HandReady(s, a, hand, f);
    PutCore(s, a, f, hand);
    BinPutSpans(s, f);
    var s1 := BinPut(s, f);
    if off > 0 {
      RebinLeft(s, a, o, off, c, e);
      HandReady(s1, a, {o, x}, o);
      PutCore(s1, a, o, {o, x});
      BinPutSpans(s1, o);
    }
  }

  lemma SplitIntoSpans(s: Cache, a: Arena, o: Desc, off: nat, c: nat, e: Env)
    requires a.cfg.Positive() && o in s.spans && c < |a.sizes| && off + a.sizes[c] <= s.spans[o].nbytes && HasDescs(off, e)
    requires DistinctDescs(o, e)
    ensures var (f, x) := (e.cutDesc.value, SplitDesc(o, off, e)); var sp := s.spans[o].(record := None);
      var size := a.sizes[c]; var rest := sp.nbytes - off - size; var now := SplitInto(s, a, o, off, c, e).spans;
      && f in now && o in now && x in now
      && now[f] == sp.(szclass := ClassOf(a, rest), addr := sp.addr + off + size, nbytes := rest)
      && now[x] == sp.(szclass := c, addr := sp.addr + off, nbytes := size)
      && (off > 0 ==> now[o] == sp.(szclass := ClassOf(a, off), nbytes := off))
      && now == if off > 0 then s.spans[f := now[f]][o := now[o]][x := now[x]] else s.spans[f := now[f]][o := now[o]]
  {
    hide ClassOf;
  }

  lemma ThreeWrites(m: map<Desc, Span>, f: Desc, o: Desc, x: Desc, u: Span, v: Span, w: Span, u': Span, v': Span, w': Span)
    requires f != o && f != x && o != x
    ensures m[f := u][o := v][x := w][f := u'][o := v'][x := w'] == m[f := u'][o := v'][x := w']
  {
  }

  lemma TwoWrites(m: map<Desc, Span>, f: Desc, o: Desc, u: Span, v: Span, u': Span, v': Span)
    requires f != o
    ensures m[f := u][o := v][f := u'][o := v'] == m[f := u'][o := v']
  {
  }

  lemma ServeAlignedSpans(s: Cache, a: Arena, o: Desc, align: nat, c: nat, e: Env)
    requires ValidArena(a) && TakenCall(s, a, o, align, c, e) && s.spans[o].state != RETAINED
    ensures align > 0
    ensures var (out, s') := ServeAligned(s, a, o, align, c, e);
      && (out, s'.spans) == SplitFor(a, s.spans, o, align, c, e)
      && s' == s.(spans := s'.spans, bins := s'.bins, bitmap := s'.bitmap, trie := s'.trie, paths := s'.paths)
  {
    hide WellConfigured, CoreInv, SplitAndInsert, Rebin, Offset, AlignUp, IsPow2, ClassOf, SplitInto, BytesBefore;
    PageFacts(a, align);
    OffsetIsGap(s.spans[o].addr, align);
    if SplitGoes(s, a, o, align, c, e) {
      var off := Offset(s.spans[o].addr, align);
      var f := e.cutDesc.value;
      SplitReady(s, a, o, align, c, e);
      SplitSpansAre(s, a, o, align, c, e);
      SplitIntoSpans(s, a, o, off, c, e);
      var s2 := SplitAndInsert(s, a, o, align, c, e);
      var x := SplitDesc(o, off, e);
      RebinSpans(s2, a, o, off, c, e);
      var sp := s2.spans;
      if off > 0 {
        ThreeWrites(s.spans, f, o, x, sp[f], sp[o], sp[x], Idle(sp[f]), Idle(sp[o]), sp[x].(isAlloc := true));
      } else {
        TwoWrites(s.spans, f, o, sp[f], sp[o], Idle(sp[f]), sp[o].(isAlloc := true));
      }
    }
  }

  /** While a free span of the class or above is left, the best of them is split, and nothing is mapped. */
  lemma GetAlignedFromBin(s: Cache, a: Arena, lookup: seq<nat>, align: nat, c: nat, e: Env, d: Desc)
    requires ValidArena(a) && AlignedCall(s, a, lookup, align, c, e) && 0 <= ReqClass(a, lookup, align, c) < |a.sizes|
    requires Best(s, a, ReqClass(a, lookup, align, c), d)
    ensures align > 0
    ensures var (out, s') := GetAligned(s, a, lookup, align, c, e);
      && (out, s'.spans) == SplitFor(a, s.spans[d := Idle(s.spans[d])], d, align, c, e)
      && NothingMapped(s, s')
  {
    PageFacts(a, align);
    assert a.cfg.Valid();
    hide WellConfigured, CoreInv, Take, EnvOk, ReqClass, IsPow2, ServeAligned, Best, SplitFor;
    var req := ReqClass(a, lookup, align, c);
    TakeCore(s, a, req, e);
    TakeGivesTaken(s, a, req, align, c, e);
    TakeBest(s, a, req, e, d);
    ServeAlignedSpans(Take(s, a, req, e).2, a, d, align, c, e);
  }

  /** Otherwise a new mapping is. */
  lemma GetAlignedFromMapper(s: Cache, a: Arena, lookup: seq<nat>, align: nat, c: nat, e: Env)
    requires ValidArena(a) && AlignedCall(s, a, lookup, align, c, e) && 0 <= ReqClass(a, lookup, align, c) < |a.sizes|
    requires !SomeUsable(s, a, ReqClass(a, lookup, align, c))
    ensures align > 0 && NewClass(a, ReqClass(a, lookup, align, c)) < |a.sizes|
    ensures var req := ReqClass(a, lookup, align, c); var (out, s') := GetAligned(s, a, lookup, align, c, e);
      && (!CanMap(s, a, req, e) ==>
            && out == (if e.mintDesc.Some? && e.region.None? then MapError else PoolError)
            && s'.spans == s.spans && s'.trie == s.trie && s'.mapped == s.mapped && s'.regions == s.regions && s'.origins == s.origins
            && s'.epoch == if e.mintDesc.Some? && e.region.Some? then (s.epoch + 1) % UINT32_LIMIT else s.epoch)
      && (CanMap(s, a, req, e) ==>
            && (out, s'.spans) == SplitFor(a, WithNew(s, a, req, e), e.mintDesc.value, align, c, e)
            && OneMapping(s, s', a, req, e))
  {
    PageFacts(a, align);
    assert a.cfg.Valid();
    hide WellConfigured, CoreInv, Take, EnvOk, ReqClass, IsPow2, ServeAligned, SplitFor, SomeUsable;
    var req := ReqClass(a, lookup, align, c);
    TakeCore(s, a, req, e);
    TakeGivesTaken(s, a, req, align, c, e);
    TakeNew(s, a, req, e);
    var (out, _, s1) := Take(s, a, req, e);
    if out.Got? {
      ServeAlignedSpans(s1, a, out.span, align, c, e);
    }
  }

  /** There is room for the alignment in a span at this address, and descriptors for the pieces. */
  predicate CanSplit(a: Arena, addr: nat, nbytes: nat, align: nat, c: nat, e: Env)
    requires align > 0 && c < |a.sizes|
  {
    a.sizes[c] + align <= nbytes && e.cutDesc.Some? && (addr % align != 0 ==> e.sideDesc.Some?)
  }

  lemma SplitGot(a: Arena, spans: map<Desc, Span>, o: Desc, align: nat, c: nat, e: Env)
    requires a.cfg.Positive() && o in spans && align > 0 && c < |a.sizes|
    ensures SplitFor(a, spans, o, align, c, e).0.Got? <==> CanSplit(a, spans[o].addr, spans[o].nbytes, align, c, e)
  {
    var r := spans[o].addr % align;
    if r == 0 {
      DivUnique(align, align, 1, 0);
    } else {
      DivUnique(align - r, align, 0, align - r);
    }
    hide ClassOf;
  }

  /** What a caller can see beforehand of whether an aligned get will succeed. */
  ghost predicate AlignedWorks(s: Cache, a: Arena, req: int, align: nat, c: nat, e: Env)
    requires align > 0 && c < |a.sizes|
  {
    && 0 <= req < |a.sizes|
    && if SomeUsable(s, a, req) then
         forall d :: Best(s, a, req, d) ==> CanSplit(a, s.spans[d].addr, s.spans[d].nbytes, align, c, e)
       else
         && NewClass(a, req) < |a.sizes| && CanMap(s, a, req, e)
         && CanSplit(a, e.region.value, a.sizes[NewClass(a, req)], align, c, e)
  }

  /** An aligned get succeeds exactly if the best free span, or else a new mapping, has room for the
      alignment, and descriptors for the pieces are there. */
  lemma GetAlignedWorksIff(s: Cache, a: Arena, lookup: seq<nat>, align: nat, c: nat, e: Env)
    requires ValidArena(a) && AlignedCall(s, a, lookup, align, c, e)
    ensures align > 0
    ensures GetAligned(s, a, lookup, align, c, e).0.Got? <==> AlignedWorks(s, a, ReqClass(a, lookup, align, c), align, c, e)
  {
    PageFacts(a, align);
    assert a.cfg.Valid();
    hide WellConfigured, CoreInv, Take, EnvOk, ReqClass, IsPow2, ServeAligned, SplitFor, Best, CanMap, CanSplit;
    var req := ReqClass(a, lookup, align, c);
    if 0 <= req < |a.sizes| {
      if SomeUsable(s, a, req) {
        var d := BestExists(s, a, req);
        GetAlignedFromBin(s, a, lookup, align, c, e, d);
        SplitGot(a, s.spans[d := Idle(s.spans[d])], d, align, c, e);
        forall x | Best(s, a, req, x) ensures x == d {
          BestUnique(s, a, req, x, d);
        }
      } else {
        GetAlignedFromMapper(s, a, lookup, align, c, e);
        if CanMap(s, a, req, e) {
          NewIsThere(s, a, req, e);
          SplitGot(a, WithNew(s, a, req, e), e.mintDesc.value, align, c, e);
        }
      }
    }
  }
}
