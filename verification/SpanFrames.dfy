/** What the operations leave alone: spans that are allocated, spans of other arenas, and the
    trie on pages that are not theirs. */
module SpanFrames {
  import opened Bits
  import opened SizeClasses
  import opened SpanState
  import opened SpanInvariants
  import opened SpanSteps
  import opened SpanOps
  import opened SpanGet
  import opened SpanMerge
  import opened SpanPut
  import opened SpanAligned
  import opened SpanDecay

  ghost predicate Untouchable(s: Cache, a: Arena, d: Desc) {
    d in s.spans && (s.spans[d].arena != a.uid || s.spans[d].isAlloc)
  }

  ghost predicate Allocated(s: Cache, a: Arena, d: Desc) {
    Mine(s, a, d) && s.spans[d].isAlloc
  }

  /** From `s` to `s'` arena `a` has touched only its own free spans, and allocated none; the spans
      in `x` are exempt. */
  ghost predicate Framed(s: Cache, s': Cache, a: Arena, x: set<Desc>) {
    && (forall d :: Untouchable(s, a, d) && d !in x ==> d in s'.spans && s'.spans[d] == s.spans[d])
    && (forall d :: Allocated(s', a, d) && d !in x ==> Allocated(s, a, d))
    && (forall d :: d in s'.spans && (d !in s.spans || s.spans[d].arena == a.uid) ==> s'.spans[d].arena == a.uid)
    && TrieFramed(s, s')
  }

  ghost predicate TrieFramed(s: Cache, s': Cache) {
    && (forall p :: p !in s'.mapped ==> (p in s'.trie <==> p in s.trie) && (p in s.trie ==> s'.trie[p] == s.trie[p]))
    && (forall p :: p in s'.mapped && p !in s.mapped ==> p !in s.trie)
    && s.mapped <= s'.mapped && s.paths <= s'.paths
  }

  lemma FramedSelf(s: Cache, a: Arena, x: set<Desc>)
    ensures Framed(s, s, a, x)
  {
  }

  lemma FramedTrans(s: Cache, s1: Cache, s': Cache, a: Arena, x: set<Desc>)
    requires Framed(s, s1, a, x) && Framed(s1, s', a, x)
    ensures Framed(s, s', a, x)
  {
    assert TrieFramed(s, s') by {
      assert forall p :: p !in s'.mapped ==> p !in s1.mapped;
    }
    hide TrieFramed;
  }

  // ----- the small steps -----

  /** One own span that is not allocated, or in `x`, changed in its flags or record. */
  lemma FramedOne(s: Cache, s': Cache, a: Arena, d: Desc, x: set<Desc>)
    requires d in s.spans && s'.spans.Keys == s.spans.Keys && s'.spans[d].arena == s.spans[d].arena
    requires forall e :: e in s.spans && e != d ==> s'.spans[e] == s.spans[e]
    requires s'.trie == s.trie && s'.mapped == s.mapped && s'.paths == s.paths
    requires Mine(s, a, d) && (d in x || (!s.spans[d].isAlloc && !s'.spans[d].isAlloc))
    ensures Framed(s, s', a, x)
  {
  }

  lemma FramedFlags(s: Cache, s': Cache, a: Arena, d: Desc, x: set<Desc>)
    requires OnlyFlagsOf(s, s', d) && Mine(s, a, d) && (d in x || (!s.spans[d].isAlloc && !s'.spans[d].isAlloc))
    ensures Framed(s, s', a, x)
  {
    assert SamePlaces(s, s');
    FramedOne(s, s', a, d, x);
  }

  lemma CoverFrame(s: Cache, d: Desc)
    requires d in s.spans && PagesOf(s.spans[d]) <= s.mapped
    ensures TrieFramed(s, Cover(s, d))
  {
    hide PagesOf;
  }

  lemma CutFramed(s: Cache, a: Arena, o: Desc, f: Desc, cut: nat, x: set<Desc>)
    requires ValidArena(a) && SpansInv(s, a) && TrieInv(s, a) && Mine(s, a, o) && !s.spans[o].isAlloc
    requires f !in s.spans && Cuttable(s, a, o, cut)
    ensures Framed(s, Cut(s, a, o, f, cut), a, x)
  {
    hide WellConfigured, SpansInv, TrieInv, PagesOf, ClassOf;
    var s1 := CutTail(s, a, o, f, cut, ClassOf(a, cut));
    assert f in s1.spans && s1.mapped == s.mapped && s1.trie == s.trie && s1.paths == s.paths;
    CutMoves(s, a, o, f, cut);
    CutTrie(s, a, o, f, cut);
    var s' := Cut(s, a, o, f, cut);
    assert s'.mapped == s.mapped && s'.spans[f] == s1.spans[f];
    assert s' == Cover(s1, f);
    hide Cut, CutTail, Cuttable;
    OwnPages(s', a, f);
    CoverFrame(s1, f);
    hide Cover;
    assert TrieFramed(s, s');
  }

  lemma JoinFramed(s: Cache, a: Arena, l: Desc, r: Desc, x: set<Desc>)
    requires ValidArena(a) && SpansInv(s, a) && TrieInv(s, a) && Joinable(s, a, l, r)
    ensures Framed(s, Join(s, a, l, r), a, x)
  {
    hide WellConfigured, SpansInv, TrieInv, PagesOf, ClassOf;
    var s1 := Coalesce(s, a, l, r);
    assert l in s1.spans && s1.mapped == s.mapped && s1.trie == s.trie && s1.paths == s.paths;
    JoinGeometry(s, a, l, r);
    JoinTrie(s, a, l, r);
    JoinSpans(s, a, l, r);
    var s' := Join(s, a, l, r);
    assert s'.mapped == s.mapped && s'.spans[l] == s1.spans[l];
    assert s' == Cover(s1, l);
    hide Join, Coalesce;
    OwnPages(s', a, l);
    CoverFrame(s1, l);
    hide Cover;
    assert TrieFramed(s, s');
  }

  lemma MintFramed(s: Cache, a: Arena, req: nat, e: Env, x: set<Desc>)
    requires ValidArena(a) && CoreInv(s, a, {}) && MintClass(a, req) < |a.sizes| && EnvOk(s, a, req, e)
    ensures Framed(s, Mint(s, a, req, e).1, a, x)
  {
    hide WellConfigured, CoreInv, EnvOk, Mint, PagesOf;
    MintIs(s, a, req, e);
    var (out, s') := Mint(s, a, req, e);
    if out.Got? {
      var (d, c, addr) := (out.span, MintClass(a, req), e.region.value);
      MintedFrame(s, a, d, c, addr, x);
    }
  }

  lemma MintedParts(s: Cache, a: Arena, d: Desc, c: nat, addr: nat)
    requires c < |a.sizes|
    ensures var s' := Minted(s, a, d, c, addr); var pages := Pages(addr, a.sizes[c]);
      && s'.spans == s.spans[d := s'.spans[d]] && s'.spans[d].arena == a.uid && !s'.spans[d].isAlloc && s'.mapped == s.mapped + pages
      && s'.trie == s.trie + (map p | p in pages :: d) && s'.paths == s.paths + pages
  {
    var sp := NewSpan(a, s.epoch % AGE_LIMIT, c, addr);
    assert PagesOf(sp) == Pages(addr, a.sizes[c]);
    hide PagesOf, Pages;
  }

  lemma MintedFrame(s: Cache, a: Arena, d: Desc, c: nat, addr: nat, x: set<Desc>)
    requires ValidArena(a) && c < |a.sizes| && Fresh(s, a, d, c, addr)
    ensures Framed(s, Minted(s, a, d, c, addr), a, x)
  {
    hide WellConfigured, Pages, Placed, Minted;
    MintedParts(s, a, d, c, addr);
    NewFrame(s, Minted(s, a, d, c, addr), a, Pages(addr, a.sizes[c]), d, x);
  }

  lemma NewFrame(s: Cache, s': Cache, a: Arena, pages: set<nat>, d: Desc, x: set<Desc>)
    requires d !in s.spans && d in s'.spans && s'.spans == s.spans[d := s'.spans[d]] && s'.spans[d].arena == a.uid && !s'.spans[d].isAlloc
    requires s'.mapped == s.mapped + pages && s'.paths == s.paths + pages && s'.trie == s.trie + (map p | p in pages :: d)
    requires forall p: nat :: p in pages ==> p !in s.trie
    ensures Framed(s, s', a, x)
  {
    NewPagesFrame(s, s', pages, d);
    hide TrieFramed;
  }

  lemma NewPagesFrame(s: Cache, s': Cache, pages: set<nat>, d: Desc)
    requires s'.mapped == s.mapped + pages && s'.paths == s.paths + pages && s'.trie == s.trie + (map p | p in pages :: d)
    requires forall p :: p in pages ==> p !in s.trie
    ensures TrieFramed(s, s')
  {
  }

  // ----- the operations -----

  lemma PutFramed(s: Cache, a: Arena, d: Desc, hand: set<Desc>, x: set<Desc>)
    requires ValidArena(a) && CoreInv(s, a, hand) && d in hand
    ensures Mine(s, a, d) && Shape(s, |s.bins|) && 0 <= s.spans[d].szclass < |s.bins|
    ensures Framed(s, BinPut(s, d), a, x)
  {
    HandReady(s, a, hand, d);
    hide WellConfigured, SpansInv, TrieInv, BinPut;
    assert !s.spans[d].isAlloc;
    hide BinsInv;
    PutCore(s, a, d, hand);
    FramedFlags(s, BinPut(s, d), a, d, x);
  }

  lemma HandOutFramed(s: Cache, a: Arena, d: Desc, slab: bool, x: set<Desc>)
    requires ValidArena(a) && CoreInv(s, a, {d}) && d in x
    ensures Mine(s, a, d) && Framed(s, HandOut(s, d, slab), a, x)
  {
    HandReady(s, a, {d}, d);
    hide WellConfigured, SpansInv, TrieInv, HandOut;
    HandOutIs(s, d, slab);
    FramedFlags(s, HandOut(s, d, slab), a, d, x);
  }

  lemma TakeFramed(s: Cache, a: Arena, req: nat, e: Env, x: set<Desc>)
    requires ValidArena(a) && CoreInv(s, a, {}) && req < |a.sizes| && EnvOk(s, a, req, e)
    ensures Framed(s, Take(s, a, req, e).2, a, x)
  {
    assert MintClass(a, req) < |a.sizes|;
    hide WellConfigured, SpansInv, TrieInv, BinsInv, EnvOk, Pop, Mint, BinPop;
    var i := FindBin(s.bitmap, |a.sizes|, req);
    if i >= 0 {
      PopKeeps(s, a, i);
      var d := FirstOf(s, i);
      assert !s.spans[d].isAlloc by { assert OnlyFlagsOf(s, Pop(s, i), d); PopFree(s, a, i); }
      FramedFlags(s, Pop(s, i), a, d, x);
    } else {
      MintFramed(s, a, req, e, x);
    }
  }

  lemma PopFree(s: Cache, a: Arena, c: nat)
    requires BinsInv(s, a, {}) && BitIs(s.bitmap, c)
    ensures Poppable(s, c) && FreeSpan(s, a, {}, FirstOf(s, c))
  {
    PopReady(s, a, c, {});
  }

  lemma CutoutFramed(s: Cache, a: Arena, o: Desc, c: nat, e: Env, x: set<Desc>)
    requires ValidArena(a) && CutCall(s, a, o, c, e)
    ensures Shape(s, |a.sizes|) && Framed(s, Cutout(s, a, o, c, e).1, a, x)
  {
    HandReady(s, a, {o}, o);
    assert !s.spans[o].isAlloc by { assert o in {o}; }
    hide WellConfigured, SpansInv, TrieInv, BinsInv, Cutout, Cut;
    var f := e.cutDesc.value;
    CutoutIs(s, a, o, c, e);
    CutFramed(s, a, o, f, a.sizes[c], x);
    CutCore(s, a, o, f, a.sizes[c], {o});
    var s1 := Cut(s, a, o, f, a.sizes[c]);
    PutFramed(s1, a, o, {o} + {f}, x);
    FramedTrans(s, s1, BinPut(s1, o), a, x);
  }

  lemma ServeFramed(s: Cache, a: Arena, o: Desc, over: bool, req: nat, slab: bool, e: Env, x: set<Desc>)
    requires ValidArena(a) && ServeCall(s, a, o, over, req, e)
    requires var out := Serve(s, a, o, over, req, slab, e).0; out.Got? ==> out.span in x
    ensures Framed(s, Serve(s, a, o, over, req, slab, e).1, a, x)
  {
    hide WellConfigured, SpansInv, TrieInv, BinsInv, ClassOf, Cutout, BinPut, HandOut, BinShape, Framed;
    HandReady(s, a, {o}, o);
    FramedSelf(s, a, x);
    var s1, d := s, o;
    if over && e.cutDesc.Some? {
      CutoutCore(s, a, o, req, e);
      CutoutFramed(s, a, o, req, e, x);
      s1, d := Cutout(s, a, o, req, e).1, e.cutDesc.value;
    }
    if over && e.cutDesc.None? {
      CutoutPoor(s, a, o, req, e);
      PutFramed(s, a, o, {o}, x);
    } else if slab && !e.slabMeta {
      HandReady(s1, a, {d}, d);
      PutFramed(s1, a, d, {d}, x);
      FramedTrans(s, s1, BinPut(s1, d), a, x);
    } else {
      HandReady(s1, a, {d}, d);
      HandOutFramed(s1, a, d, slab, x);
      FramedTrans(s, s1, HandOut(s1, d, slab), a, x);
    }
  }

  /** The span an operation hands out, if it hands one out. */
  function Handed(out: Outcome): set<Desc> {
    if out.Got? then {out.span} else {}
  }

  /** scache_get_span leaves allocated spans and other arenas alone, and allocates one span at most. */
  lemma GetSpanFramed(s: Cache, a: Arena, req: int, slab: bool, e: Env)
    requires ValidArena(a) && GetCall(s, a, req, e)
    ensures var (out, s') := GetSpan(s, a, req, slab, e); Framed(s, s', a, Handed(out))
  {
    hide CoreInv, Take, Serve, WellConfigured, EnvOk, Framed;
    var x := Handed(GetSpan(s, a, req, slab, e).0);
    FramedSelf(s, a, x);
    if 0 <= req < |a.sizes| {
      TakeCore(s, a, req, e);
      TakeFramed(s, a, req, e, x);
      var (out, over, s1) := Take(s, a, req, e);
      if out.Got? {
        ServeFramed(s1, a, out.span, over, req, slab, e, x);
        FramedTrans(s, s1, Serve(s1, a, out.span, over, req, slab, e).1, a, x);
      }
    }
  }

  lemma TakeOutFramed(s: Cache, a: Arena, hand: set<Desc>, y: Option<Desc>, x: set<Desc>)
    requires ValidArena(a) && CanTakeOut(s, a, hand, y)
    ensures Framed(s, TakeOut(s, a, hand, y), a, x)
  {
    hide WellConfigured, CoreInv, BinRemove, Lonely;
    FramedSelf(s, a, x);
    if y.Some? {
      RemoveKeeps(s, a, y.value, hand);
      FramedFlags(s, BinRemove(s, y.value), a, y.value, x);
    }
  }

  lemma RemovedFramed(s: Cache, a: Arena, d: Desc, p: Plan, x: set<Desc>)
    requires ValidArena(a) && PlanOk(s, a, d, p)
    ensures Framed(s, Removed(s, a, d, p), a, x)
  {
    hide WellConfigured, CoreInv, TakeOut, Joinable, CanTakeOut, Framed;
    RightStill(s, a, d, p);
    var s1 := TakeOut(s, a, {d}, p.left);
    TakeOutFramed(s, a, {d}, p.left, x);
    TakeOutFramed(s1, a, Add({d}, p.left), p.right, x);
    FramedTrans(s, s1, Removed(s, a, d, p), a, x);
  }

  lemma JoinedFramed(s: Cache, a: Arena, d: Desc, p: Plan, x: set<Desc>)
    requires ValidArena(a) && SpansInv(s, a) && TrieInv(s, a) && Joinables(s, a, d, p)
    ensures Framed(s, Joined(s, a, d, p), a, x)
  {
    hide WellConfigured, SpansInv, TrieInv, Join, Framed;
    FramedSelf(s, a, x);
    var s1 := if p.left.Some? then Join(s, a, p.left.value, d) else s;
    if p.left.Some? {
      JoinFramed(s, a, p.left.value, d, x);
      JoinTrie(s, a, p.left.value, d);
      JoinSpans(s, a, p.left.value, d);
      if p.right.Some? {
        SecondJoin(s, a, p.left.value, d, p.right.value);
      }
    }
    if p.right.Some? {
      JoinFramed(s1, a, Leftmost(d, p), p.right.value, x);
      FramedTrans(s, s1, Joined(s, a, d, p), a, x);
    }
  }

  lemma MergeAdjFramed(s: Cache, a: Arena, d: Desc, e: Env, x: set<Desc>)
    requires ValidArena(a) && CoreInv(s, a, {d})
    ensures Framed(s, MergeAdj(s, a, d, e).1, a, x)
  {
    hide WellConfigured, Removed, Coalesced, Joined, TrieInsert, SpansInv, TrieInv, BinsInv, PlanOk, Framed;
    PlanIsOk(s, a, d);
    var p := MakePlan(s, a, d);
    PlanSides(s, a, d, p);
    RemovedKeeps(s, a, d, p);
    var s1 := Removed(s, a, d, p);
    JoinedIs(s1, a, d, p, e);
    RemovedFramed(s, a, d, p, x);
    JoinedFramed(s1, a, d, p, x);
    FramedTrans(s, s1, Joined(s1, a, d, p), a, x);
  }

  /** scache_put_span touches no other allocated span. */
  lemma PutSpanFramed(s: Cache, a: Arena, d: Desc, e: Env)
    requires ValidArena(a) && PutCall(s, a, d)
    ensures Framed(s, PutSpan(s, a, d, e), a, {d})
  {
    hide WellConfigured, SpansInv, TrieInv, BinsInv, MergeAdj, Release, SetAlloc, BinPut, Framed;
    ReleaseKeeps(s, a, d);
    var s1 := Release(s, d);
    FramedFlags(s, s1, a, d, {d});
    MergeAdjCore(s1, a, d, e);
    MergeAdjFramed(s1, a, d, e, {d});
    var (m, s2) := MergeAdj(s1, a, d, e);
    HandReady(s2, a, {m}, m);
    PutFramed(s2, a, m, {m}, {d});
    FramedTrans(s, s1, s2, a, {d});
    FramedTrans(s, s2, BinPut(s2, m), a, {d});
  }

  lemma PiecesFramed(s: Cache, a: Arena, o: Desc, align: nat, c: nat, e: Env, x: set<Desc>)
    requires ValidArena(a) && SplitCall(s, a, o, align, c, e)
    ensures var off := Offset(s.spans[o].addr, align);
      && 0 < a.sizes[c] && off + a.sizes[c] < s.spans[o].nbytes
      && Framed(s, Pieces(s, a, o, off, a.sizes[c], e), a, x)
  {
    hide WellConfigured, SpansInv, TrieInv, Cut, Offset, Framed, ClassOf, IsPow2;
    SplitFacts(s, a, o, align, c, e);
    var off := Offset(s.spans[o].addr, align);
    var size := a.sizes[c];
    var f := e.cutDesc.value;
    var rest := s.spans[o].nbytes - off - size;
    assert !s.spans[o].isAlloc by { assert o in {o}; }
    hide BinsInv;
    CutFramed(s, a, o, f, rest, x);
    if off > 0 {
      SplitTwo(s, a, o, align, c, e);
      TwoCutsCore(s, a, o, f, e.sideDesc.value, rest, size);
      SecondCut(s, a, o, f, e.sideDesc.value, rest, size);
      var s1 := Cut(s, a, o, f, rest);
      HandReady(s1, a, {o, f}, o);
      HandFree(s1, a, {o, f}, o);
      CutFramed(s1, a, o, e.sideDesc.value, size, x);
      FramedTrans(s, s1, Cut(s1, a, o, e.sideDesc.value, size), a, x);
    }
  }

  lemma HandFree(s: Cache, a: Arena, hand: set<Desc>, d: Desc)
    requires BinsInv(s, a, hand) && d in hand
    ensures Mine(s, a, d) && !s.spans[d].isAlloc
  {
  }

  lemma SplitFramed(s: Cache, a: Arena, o: Desc, align: nat, c: nat, e: Env, x: set<Desc>)
    requires ValidArena(a) && SplitCall(s, a, o, align, c, e)
    ensures Framed(s, SplitAndInsert(s, a, o, align, c, e), a, x)
  {
    hide WellConfigured, SpansInv, TrieInv, BinsInv, Pieces, Offset, Framed, SplitAndInsert, ClassOf;
    var off := Offset(s.spans[o].addr, align);
    PiecesFramed(s, a, o, align, c, e, x);
    SplitAndInsertIs(s, a, o, align, c, e);
    var t := Pieces(s, a, o, off, a.sizes[c], e);
    HandFree(t, a, PieceSet(o, off, e), o);
    DropFields(t, o, o);
    FramedOne(t, DropRecord(t, o), a, o, x);
    FramedTrans(s, t, DropRecord(t, o), a, x);
  }

  lemma RebinFramed(s: Cache, a: Arena, o: Desc, off: nat, c: nat, e: Env, others: set<Desc>)
    requires ValidArena(a) && HasDescs(off, e) && SplitInHand(s, a, o, off, c, e) && DistinctDescs(o, e)
    requires SplitDesc(o, off, e) in others
    ensures Framed(s, Rebin(s, a, o, off, c, e), a, others)
  {
    hide WellConfigured, SpansInv, TrieInv, BinsInv, BinPut, TrieInsert, Framed;
    var f, x := e.cutDesc.value, SplitDesc(o, off, e);
    var hand := PieceSet(o, off, e);
    HandReady(s, a, hand, f);
    PutFramed(s, a, f, hand, others);
    PutCore(s, a, f, hand);
    var s1 := BinPut(s, f);
    if off > 0 {
      RebinLeft(s, a, o, off, c, e);
      HandReady(s1, a, {o, x}, o);
      PutFramed(s1, a, o, {o, x}, others);
      var s2 := BinPut(s1, o);
      HandOutFramed(s2, a, x, false, others);
      FramedTrans(s, s1, s2, a, others);
      FramedTrans(s, s2, HandOut(s2, x, false), a, others);
    } else {
      assert hand - {f} == {o};
      HandOutFramed(s1, a, o, false, others);
      FramedTrans(s, s1, HandOut(s1, o, false), a, others);
    }
  }

  lemma ServeAlignedFramed(s: Cache, a: Arena, o: Desc, align: nat, c: nat, e: Env, x: set<Desc>)
    requires ValidArena(a) && TakenCall(s, a, o, align, c, e)
    requires var out := ServeAligned(s, a, o, align, c, e).0; out.Got? ==> out.span in x
    ensures Framed(s, ServeAligned(s, a, o, align, c, e).1, a, x)
  {
    hide WellConfigured, CoreInv, SplitAndInsert, Rebin, Offset, AlignUp, IsPow2, Framed;
    FramedSelf(s, a, x);
    if SplitGoes(s, a, o, align, c, e) {
      var off := Offset(s.spans[o].addr, align);
      SplitReady(s, a, o, align, c, e);
      SplitFramed(s, a, o, align, c, e, x);
      var s2 := SplitAndInsert(s, a, o, align, c, e);
      RebinFramed(s2, a, o, off, c, e, x);
      FramedTrans(s, s2, Rebin(s2, a, o, off, c, e), a, x);
    }
  }

  /** scache_get_span_aligned, whether or not it loses a span. */
  lemma GetAlignedFramed(s: Cache, a: Arena, lookup: seq<nat>, align: nat, c: nat, e: Env)
    requires ValidArena(a) && AlignedCall(s, a, lookup, align, c, e)
    ensures var (out, s') := GetAligned(s, a, lookup, align, c, e); Framed(s, s', a, Handed(out))
  {
    assert a.cfg.Valid();
    hide WellConfigured, CoreInv, Take, EnvOk, ReqClass, IsPow2, Framed, ServeAligned;
    var x := Handed(GetAligned(s, a, lookup, align, c, e).0);
    FramedSelf(s, a, x);
    var req := ReqClass(a, lookup, align, c);
    if 0 <= req < |a.sizes| {
      TakeGivesTaken(s, a, req, align, c, e);
      TakeFramed(s, a, req, e, x);
      var (out, _, s1) := Take(s, a, req, e);
      if out.Got? {
        ServeAlignedFramed(s1, a, out.span, align, c, e, x);
        FramedTrans(s, s1, ServeAligned(s1, a, out.span, align, c, e).1, a, x);
      }
    }
  }

  lemma {:induction false} DecayLoopFramed(s: Cache, a: Arena, c: nat, n: nat)
    requires ValidArena(a) && CoreInv(s, a, {}) && c < |a.sizes|
    ensures Framed(s, DecayLoop(s, a, c, n), a, {})
    decreases n
  {
    hide WellConfigured, SpansInv, TrieInv, BinsInv, MoveOne, CanDecay, Framed, FirstOf, OnlyStates;
    FramedSelf(s, a, {});
    if n > 0 && CanDecay(s, c) {
      MoveKeeps(s, a, c);
      DecayReady(s, a, c);
      var d := FirstOf(s, c);
      BucketFree(s, a, c, DIRTY, d);
      MoveStates(s, c, DIRTY, d);
      var s1 := MoveOne(s, c, DIRTY, d);
      FramedFlags(s, s1, a, d, {});
      DecayLoopFramed(s1, a, c, n - 1);
      FramedTrans(s, s1, DecayLoop(s1, a, c, n - 1), a, {});
    }
  }

  lemma BucketFree(s: Cache, a: Arena, c: nat, k: nat, d: Desc)
    requires BinsInv(s, a, {}) && InBucket(s, c, k, d)
    ensures Mine(s, a, d) && !s.spans[d].isAlloc
  {
  }

  lemma {:induction false} DecayFromFramed(s: Cache, a: Arena, c: nat)
    requires ValidArena(a) && CoreInv(s, a, {}) && c <= |a.sizes|
    ensures Framed(s, DecayFrom(s, a, c), a, {})
    decreases |a.sizes| - c
  {
    hide WellConfigured, SpansInv, TrieInv, BucketsInv, CountsInv, BitmapInv, DecayLoop, Framed;
    FramedSelf(s, a, {});
    if c < |a.sizes| {
      var s1 := DecayBin(s, a, c);
      DecayBinKeeps(s, a, c);
      if a.hasMadvise {
        var n := s.bins[c].epochMin % UINT32_LIMIT;
        DecayLoopFramed(s, a, c, n);
        var t := DecayLoop(s, a, c, n);
        DecayLoopKeeps(s, a, c, n);
        SameSharedFramed(t, SetEpochMin(t, c), a);
        FramedTrans(s, t, s1, a, {});
      }
      DecayFromFramed(s1, a, c + 1);
      FramedTrans(s, s1, DecayFrom(s1, a, c + 1), a, {});
    }
  }

  lemma SameSharedFramed(s: Cache, s': Cache, a: Arena)
    requires s'.spans == s.spans && s'.trie == s.trie && s'.mapped == s.mapped && s'.paths == s.paths
    ensures Framed(s, s', a, {})
  {
  }
}
