/** The slab flag, by which a free and a put decide what a span is: no span that is not allocated
    carries it, so a span handed out carries it exactly if it was asked for as a slab. */
module SpanFlags {
  import opened Bits
  import opened SpanState
  import opened SpanInvariants
  import opened SpanSteps
  import opened SpanOps
  import opened SpanGet
  import opened SpanMerge
  import opened SpanPut
  import opened SpanAligned
  import opened SpanDecay
  import opened SpanRuns

  ghost predicate Unmarked(s: Cache, a: Arena) {
    forall d :: Mine(s, a, d) && !s.spans[d].isAlloc ==> !s.spans[d].isSlab
  }

  // ----- the small steps -----

  lemma StatesUnmarked(s: Cache, s': Cache, a: Arena)
    requires OnlyStates(s, s') && Unmarked(s, a)
    ensures Unmarked(s', a)
  {
  }

  lemma BinPutUnmarked(s: Cache, a: Arena, d: Desc)
    requires d in s.spans && Shape(s, |s.bins|) && 0 <= s.spans[d].szclass < |s.bins| && Unmarked(s, a)
    ensures Unmarked(BinPut(s, d), a)
  {
    hide SetBitmap;
  }

  lemma UnbinUnmarked(s: Cache, a: Arena, c: nat, k: nat, d: Desc, epochMin: nat)
    requires d in s.spans && Shape(s, |s.bins|) && c < |s.bins| && k < SPAN_NSTATES && s.bins[c].nspans > 0 && Unmarked(s, a)
    ensures Unmarked(Unbin(s, c, k, d, epochMin), a)
  {
    hide SetBitmap;
  }

  lemma InsertUnmarked(s: Cache, a: Arena, d: Desc, canAlloc: bool, stop: nat)
    requires d in s.spans && Unmarked(s, a)
    ensures Unmarked(TrieInsert(s, d, canAlloc, stop).1, a)
  {
    hide PagesOf;
  }

  /** Both parts of a cut have the origin's flags. */
  lemma CutUnmarked(s: Cache, a: Arena, o: Desc, f: Desc, cut: nat)
    requires a.cfg.Positive() && Mine(s, a, o) && f !in s.spans && Cuttable(s, a, o, cut) && Unmarked(s, a)
    ensures Unmarked(Cut(s, a, o, f, cut), a)
  {
    hide ClassOf, PagesOf;
  }

  lemma MintUnmarked(s: Cache, a: Arena, d: Desc, c: nat, addr: nat)
    requires c < |a.sizes| && Unmarked(s, a)
    ensures Unmarked(Minted(s, a, d, c, addr), a)
  {
    MintedFlags(s, a, d, c, addr);
  }

  lemma CoalesceUnmarked(s: Cache, a: Arena, l: Desc, r: Desc)
    requires a.cfg.Positive() && l in s.spans && r in s.spans && l != r && Unmarked(s, a)
    ensures Unmarked(Coalesce(s, a, l, r), a)
  {
    hide ClassOf;
  }

  // ----- scache_get_span -----

  lemma TakeUnmarked(s: Cache, a: Arena, req: nat, e: Env)
    requires ValidArena(a) && CoreInv(s, a, {}) && req < |a.sizes| && EnvOk(s, a, req, e) && Unmarked(s, a)
    ensures Unmarked(Take(s, a, req, e).2, a)
  {
    assert MintClass(a, req) < |a.sizes|;
    hide WellConfigured, CoreInv, Mint, Minted, Unbin, Unmarked, RegionOk;
    var i := FindBin(s.bitmap, |a.sizes|, req);
    var s' := Take(s, a, req, e).2;
    if i < 0 {
      MintIs(s, a, req, e);
      var out := Mint(s, a, req, e).0;
      if out.Got? {
        MintUnmarked(s, a, out.span, MintClass(a, req), e.region.value);
      } else {
        PathsUnmarked(s, s', a);
      }
    } else {
      PopUnmarked(s, a, i);
    }
  }

  lemma PathsUnmarked(s: Cache, s': Cache, a: Arena)
    requires OnlyEpochAndPaths(s, s') && Unmarked(s, a)
    ensures Unmarked(s', a)
  {
  }

  lemma PopUnmarked(s: Cache, a: Arena, c: nat)
    requires ValidArena(a) && CoreInv(s, a, {}) && BitIs(s.bitmap, c) && Unmarked(s, a)
    ensures Poppable(s, c) && Unmarked(Pop(s, c), a)
  {
    hide WellConfigured, SpansInv, TrieInv, Unmarked, BitIs, Unbin, Pop;
    var epochMin := PopIs(s, a, c);
    UnbinUnmarked(s, a, c, FirstBucket(s.bins[c].bits), FirstOf(s, c), epochMin);
  }

  lemma CutoutUnmarked(s: Cache, a: Arena, o: Desc, c: nat, e: Env)
    requires ValidArena(a) && CutCall(s, a, o, c, e) && Unmarked(s, a)
    ensures Shape(s, |a.sizes|) && Unmarked(Cutout(s, a, o, c, e).1, a)
  {
    hide WellConfigured, ClassOf, SpansInv, TrieInv, BinsInv, Cut, GoodSpan, BinPut, Cutout, BinShape, Unmarked, Cuttable;
    HandReady(s, a, {o}, o);
    CutoutIs(s, a, o, c, e);
    CutMoves(s, a, o, e.cutDesc.value, a.sizes[c]);
    CutUnmarked(s, a, o, e.cutDesc.value, a.sizes[c]);
    BinPutUnmarked(Cut(s, a, o, e.cutDesc.value, a.sizes[c]), a, o);
  }

  lemma HandOutMarks(s: Cache, a: Arena, d: Desc, slab: bool)
    requires Mine(s, a, d) && !s.spans[d].isAlloc && Unmarked(s, a)
    ensures Unmarked(HandOut(s, d, slab), a) && d in HandOut(s, d, slab).spans && HandOut(s, d, slab).spans[d].isSlab == slab
  {
  }

  lemma ServeMarks(s: Cache, a: Arena, o: Desc, over: bool, req: nat, slab: bool, e: Env)
    requires ValidArena(a) && ServeCall(s, a, o, over, req, e) && Unmarked(s, a)
    ensures var (out, s') := Serve(s, a, o, over, req, slab, e);
      Unmarked(s', a) && (out.Got? ==> out.span in s'.spans && s'.spans[out.span].isSlab == slab)
  {
    hide WellConfigured, SpansInv, TrieInv, BinsInv, Cutout, BinPut, HandOut, Unmarked;
    HandReady(s, a, {o}, o);
    if over && e.cutDesc.None? {
      CutoutPoor(s, a, o, req, e);
      BinPutUnmarked(s, a, o);
    } else {
      var s1, d := s, o;
      if over {
        CutoutUnmarked(s, a, o, req, e);
        CutoutCore(s, a, o, req, e);
        s1, d := Cutout(s, a, o, req, e).1, e.cutDesc.value;
      }
      HandReady(s1, a, {d}, d);
      InHandFree(s1, a, {d}, d);
      BinPutUnmarked(s1, a, d);
      HandOutMarks(s1, a, d, slab);
    }
  }

  lemma InHandFree(s: Cache, a: Arena, hand: set<Desc>, d: Desc)
    requires BinsInv(s, a, hand) && d in hand
    ensures Mine(s, a, d) && !s.spans[d].isAlloc
  {
  }

  /** A get hands out a span that is marked as a slab exactly if metadata was asked for. */
  lemma GetMarks(s: Cache, a: Arena, req: int, slab: bool, e: Env)
    requires ValidArena(a) && GetCall(s, a, req, e) && Unmarked(s, a)
    ensures var (out, s') := GetSpan(s, a, req, slab, e);
      Unmarked(s', a) && (out.Got? ==> out.span in s'.spans && s'.spans[out.span].isSlab == slab)
  {
    hide WellConfigured, CoreInv, Take, Serve, EnvOk, Unmarked;
    if 0 <= req < |a.sizes| {
      TakeCore(s, a, req, e);
      TakeUnmarked(s, a, req, e);
      var (out, over, s1) := Take(s, a, req, e);
      if out.Got? {
        ServeMarks(s1, a, out.span, over, req, slab, e);
      }
    }
  }

  // ----- scache_put_span -----

  lemma ReleaseUnmarked(s: Cache, a: Arena, d: Desc)
    requires d in s.spans && Unmarked(s, a)
    ensures Unmarked(Release(s, d), a)
  {
  }

  lemma CoalescedUnmarked(s: Cache, a: Arena, d: Desc, p: Plan)
    requires a.cfg.Positive() && Sides(s, d, p) && Unmarked(s, a)
    ensures Unmarked(Coalesced(s, a, d, p), a)
  {
    hide Unmarked, Coalesce;
    var s1 := s;
    if p.left.Some? {
      CoalesceUnmarked(s, a, p.left.value, d);
      CoalesceSpans(s, a, p.left.value, d);
      s1 := Coalesce(s, a, p.left.value, d);
    }
    if p.right.Some? {
      CoalesceUnmarked(s1, a, Leftmost(d, p), p.right.value);
    }
  }

  lemma CoalesceSpans(s: Cache, a: Arena, l: Desc, r: Desc)
    requires a.cfg.Positive() && l in s.spans && r in s.spans && l != r
    ensures Coalesce(s, a, l, r).spans.Keys == s.spans.Keys - {r}
  {
  }

  lemma MergeUnmarked(s: Cache, a: Arena, d: Desc, e: Env)
    requires ValidArena(a) && CoreInv(s, a, {d}) && Unmarked(s, a)
    ensures Unmarked(MergeAdj(s, a, d, e).1, a)
  {
    hide WellConfigured, CoreInv, Removed, Coalesced, TrieInsert, Joinable, PlanOk, Unmarked;
    PlanIsOk(s, a, d);
    var p := MakePlan(s, a, d);
    PlanSides(s, a, d, p);
    RemovedKeeps(s, a, d, p);
    var s1 := Removed(s, a, d, p);
    StatesUnmarked(s, s1, a);
    CoalescedUnmarked(s1, a, d, p);
    InsertUnmarked(Coalesced(s1, a, d, p), a, Leftmost(d, p), e.nodes, e.stop);
  }

  lemma PutUnmarked(s: Cache, a: Arena, d: Desc, e: Env)
    requires ValidArena(a) && PutCall(s, a, d) && Unmarked(s, a)
    ensures Unmarked(PutSpan(s, a, d, e), a)
  {
    hide WellConfigured, SpansInv, TrieInv, BinsInv, MergeAdj, Release, SetAlloc, BinPut, Unmarked;
    ReleaseKeeps(s, a, d);
    MergeAdjCore(Release(s, d), a, d, e);
    var (m, s1) := MergeAdj(Release(s, d), a, d, e);
    HandReady(s1, a, {m}, m);
    ReleaseUnmarked(s, a, d);
    MergeUnmarked(Release(s, d), a, d, e);
    BinPutUnmarked(s1, a, m);
  }

  // ----- scache_get_span_aligned -----

  lemma DropUnmarked(s: Cache, a: Arena, o: Desc)
    requires o in s.spans && Unmarked(s, a)
    ensures Unmarked(DropRecord(s, o), a)
  {
  }

  lemma SplitUnmarked(s: Cache, a: Arena, o: Desc, align: nat, c: nat, e: Env)
    requires ValidArena(a) && SplitCall(s, a, o, align, c, e) && Unmarked(s, a)
    ensures Unmarked(SplitAndInsert(s, a, o, align, c, e), a)
  {
    hide WellConfigured, CoreInv, Cut, Offset, SplitAndInsert, Unmarked, DropRecord;
    SplitFacts(s, a, o, align, c, e);
    SplitAndInsertIs(s, a, o, align, c, e);
    var off := Offset(s.spans[o].addr, align);
    var size := a.sizes[c];
    var f := e.cutDesc.value;
    var rest := s.spans[o].nbytes - off - size;
    CutUnmarked(s, a, o, f, rest);
    if off > 0 {
      SplitTwo(s, a, o, align, c, e);
      TwoCutsCore(s, a, o, f, e.sideDesc.value, rest, size);
      SecondCut(s, a, o, f, e.sideDesc.value, rest, size);
      HandReady(Cut(s, a, o, f, rest), a, {o, f}, o);
      CutUnmarked(Cut(s, a, o, f, rest), a, o, e.sideDesc.value, size);
    }
    DropUnmarked(Pieces(s, a, o, off, size, e), a, o);
  }

  lemma AllocUnmarked(s: Cache, a: Arena, d: Desc)
    requires d in s.spans && Unmarked(s, a)
    ensures Unmarked(SetAlloc(s, d, true), a)
    ensures Mine(s, a, d) && !s.spans[d].isAlloc ==> !SetAlloc(s, d, true).spans[d].isSlab
  {
  }

  lemma RebinMarks(s: Cache, a: Arena, o: Desc, off: nat, c: nat, e: Env)
    requires ValidArena(a) && HasDescs(off, e) && SplitInHand(s, a, o, off, c, e) && DistinctDescs(o, e) && Unmarked(s, a)
    ensures var s' := Rebin(s, a, o, off, c, e); var x := SplitDesc(o, off, e);
      Unmarked(s', a) && x in s'.spans && !s'.spans[x].isSlab
  {
    hide WellConfigured, SpansInv, TrieInv, BinsInv, BinPut, TrieInsert, SetAlloc, Unmarked, SamePlaces;
    var f, x := e.cutDesc.value, SplitDesc(o, off, e);
    HandReady(s, a, PieceSet(o, off, e), f);
    PutCore(s, a, f, PieceSet(o, off, e));
    BinPutUnmarked(s, a, f);
    var s1 := BinPut(s, f);
    if off > 0 {
      RebinLeft(s, a, o, off, c, e);
      HandReady(s1, a, {o, x}, o);
      BinPutUnmarked(s1, a, o);
      InHandFree(BinPut(s1, o), a, {x}, x);
      AllocUnmarked(BinPut(s1, o), a, x);
      AllocSpans(BinPut(s1, o), x);
    } else {
      assert PieceSet(o, off, e) - {f} == {o};
      InHandFree(s1, a, {o}, o);
      AllocUnmarked(s1, a, o);
      AllocSpans(s1, o);
    }
  }

  lemma AllocSpans(s: Cache, d: Desc)
    requires d in s.spans
    ensures d in SetAlloc(s, d, true).spans
  {
  }

  /** An aligned get never hands out a slab, and marks nothing, lost spans included. */
  lemma GetAlignedMarks(s: Cache, a: Arena, lookup: seq<nat>, align: nat, c: nat, e: Env)
    requires ValidArena(a) && AlignedCall(s, a, lookup, align, c, e) && Unmarked(s, a)
    ensures var (out, s') := GetAligned(s, a, lookup, align, c, e);
      Unmarked(s', a) && (out.Got? ==> out.span in s'.spans && !s'.spans[out.span].isSlab)
  {
    ValidConfig(a);
    hide WellConfigured, CoreInv, Take, EnvOk, ReqClass, IsPow2, Unmarked, SplitAndInsert, Rebin, Offset;
    var req := ReqClass(a, lookup, align, c);
    if 0 <= req < |a.sizes| {
      TakeCore(s, a, req, e);
      TakeGivesTaken(s, a, req, align, c, e);
      TakeUnmarked(s, a, req, e);
      var (out, _, s1) := Take(s, a, req, e);
      if out.Got? && SplitGoes(s1, a, out.span, align, c, e) {
        SplitReady(s1, a, out.span, align, c, e);
        SplitUnmarked(s1, a, out.span, align, c, e);
        RebinMarks(SplitAndInsert(s1, a, out.span, align, c, e), a, out.span, Offset(s1.spans[out.span].addr, align), c, e);
      }
    }
  }

  // ----- runs -----

  lemma ForeignUnmarked(s: Cache, s': Cache, a: Arena)
    requires Foreign(s, s', a) && Unmarked(s, a)
    ensures Unmarked(s', a)
  {
  }

  /** No step marks a span that is not allocated. */
  lemma StepUnmarked(s: Cache, a: Arena, lookup: seq<nat>, t: Step)
    requires Configured(a, lookup) && CoreInv(s, a, {}) && MayStep(s, a, lookup, t) && Unmarked(s, a)
    ensures Unmarked(Apply(s, a, lookup, t), a)
  {
    hide WellConfigured, CoreInv, EnvOk, GetSpan, GetAligned, PutSpan, Decay, Foreign, Unmarked;
    match t
    case Get(req, slab, e) =>
      GetMarks(s, a, req, slab, e);
    case GetAlign(align, c, e) =>
      GetAlignedMarks(s, a, lookup, align, c, e);
    case Put(d, e) =>
      PutUnmarked(s, a, d, e);
    case DecayAll =>
      DecayUnmarked(s, a);
    case Others(_, _, _) =>
      ForeignUnmarked(s, Apply(s, a, lookup, t), a);
  }

  lemma DecayUnmarked(s: Cache, a: Arena)
    requires ValidArena(a) && CoreInv(s, a, {}) && Unmarked(s, a)
    ensures Unmarked(Decay(s, a), a)
  {
    hide WellConfigured, CoreInv, Unmarked, DecayFrom;
    DecayFromKeeps(s, a, 0);
    StatesUnmarked(s, Decay(s, a), a);
  }

  /** So in every state of every safe run without a lost span, what is not allocated is not marked. */
  lemma {:induction false} RunUnmarked(states: seq<Cache>, steps: seq<Step>, a: Arena, lookup: seq<nat>, i: nat)
    requires Configured(a, lookup) && IsRun(states, steps, a, lookup) && NoLeaks(states, steps, a, lookup)
    requires Safe(states, steps, a, lookup)
    requires CoreInv(states[0], a, {}) && Unmarked(states[0], a) && i < |states|
    ensures Unmarked(states[i], a)
  {
    hide WellConfigured, CoreInv, MayStep, Apply, LeakStep, Unmarked, StepSafe;
    if i > 0 {
      RunUnmarked(states, steps, a, lookup, i - 1);
      RunCore(states, steps, a, lookup, i - 1);
      assert i - 1 < |steps|;
      StepUnmarked(states[i - 1], a, lookup, steps[i - 1]);
    }
  }
}
