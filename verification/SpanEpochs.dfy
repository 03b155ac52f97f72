/** The least number of free spans of a bin in the current epoch, which decides how many the next decay
    retains: what the counter holds over whole runs, and where it differs from that number. */
module SpanEpochs {
  import opened Bits
  import opened Lists
  import opened SizeClasses
  import opened SpanState
  import opened SpanInvariants
  import opened SpanSteps
  import opened SpanOps
  import opened SpanGet
  import opened SpanMerge
  import opened SpanPut
  import opened SpanAligned
  import opened SpanDecay
  import opened SpanRuns
  import opened SpanAnswers
  import opened SpanReturns
  import opened SpanStates

  // ----- counters through the small steps -----

  ghost predicate SameLows(s: Cache, s': Cache) {
    |s'.bins| == |s.bins| && forall c :: 0 <= c < |s.bins| ==> s'.bins[c].epochMin == s.bins[c].epochMin
  }

  /** No bin has fewer spans, and the counters are the same. */
  ghost predicate MoreSpans(s: Cache, s': Cache) {
    SameLows(s, s') && forall c :: 0 <= c < |s.bins| ==> s'.bins[c].nspans >= s.bins[c].nspans
  }

  function One(b: bool): nat {
    if b then 1 else 0
  }

  lemma BinPutLow(s: Cache, d: Desc)
    requires d in s.spans && Shape(s, |s.bins|) && 0 <= s.spans[d].szclass < |s.bins|
    ensures MoreSpans(s, BinPut(s, d))
    ensures forall c :: 0 <= c < |s.bins| ==> BinPut(s, d).bins[c].nspans == s.bins[c].nspans + One(c == s.spans[d].szclass)
  {
  }

  lemma UnbinLow(s: Cache, c: nat, k: nat, d: Desc, epochMin: nat)
    requires d in s.spans && Shape(s, |s.bins|) && c < |s.bins| && k < SPAN_NSTATES && s.bins[c].nspans > 0
    ensures var s' := Unbin(s, c, k, d, epochMin);
      && |s'.bins| == |s.bins| && s'.bins[c].epochMin == epochMin
      && (forall i :: 0 <= i < |s.bins| && i != c ==> s'.bins[i].epochMin == s.bins[i].epochMin)
      && (forall i :: 0 <= i < |s.bins| ==> s'.bins[i].nspans == s.bins[i].nspans - One(i == c))
  {
  }

  lemma SameBinsLow(s: Cache, s': Cache)
    requires s'.bins == s.bins
    ensures MoreSpans(s, s')
  {
  }

  lemma MoreTrans(s: Cache, s1: Cache, s2: Cache)
    requires MoreSpans(s, s1) && MoreSpans(s1, s2)
    ensures MoreSpans(s, s2)
  {
  }

  lemma InsertBins(s: Cache, d: Desc, canAlloc: bool, stop: nat)
    requires d in s.spans
    ensures TrieInsert(s, d, canAlloc, stop).1.bins == s.bins
  {
    hide PagesOf;
  }

  // ----- a get -----

  /** One span has left bin `c`, and its counter is not above what is left. */
  ghost predicate PoppedFrom(s: Cache, s': Cache, c: nat) {
    && c < |s.bins| == |s'.bins| && s.bins[c].nspans > 0
    && s'.bins[c].epochMin == (if s.bins[c].epochMin > s.bins[c].nspans - 1 then s.bins[c].nspans - 1 else s.bins[c].epochMin)
    && s'.bins[c].nspans >= s.bins[c].nspans - 1
    && (forall i :: 0 <= i < |s.bins| && i != c ==> s'.bins[i].epochMin == s.bins[i].epochMin && s'.bins[i].nspans >= s.bins[i].nspans)
  }

  lemma PopLow(s: Cache, a: Arena, c: nat)
    requires ValidArena(a) && CoreInv(s, a, {}) && BitIs(s.bitmap, c)
    ensures Poppable(s, c) && PoppedFrom(s, Pop(s, c), c)
  {
    hide WellConfigured, SpansInv, TrieInv, BinsInv, FirstOf, FirstBucket, BitIs, InBucket, Unbin;
    var _ := PopIs(s, a, c);
    var (k, d, left) := (FirstBucket(s.bins[c].bits), FirstOf(s, c), s.bins[c].nspans - 1);
    BinStates(s, a, c, k, d);
    UnbinLow(s, c, k, d, if s.bins[c].epochMin > left then left else s.bins[c].epochMin);
  }

  lemma PoppedMore(s: Cache, s1: Cache, s2: Cache, c: nat)
    requires PoppedFrom(s, s1, c) && MoreSpans(s1, s2)
    ensures PoppedFrom(s, s2, c)
  {
  }

  /** Whether a request takes a span out of bin `c`: it is the class of the best free span. */
  ghost predicate Pops(s: Cache, a: Arena, req: int, c: nat) {
    0 <= req < |a.sizes| && exists d :: Best(s, a, req, d) && s.spans[d].szclass == c
  }

  lemma TakeLow(s: Cache, a: Arena, req: nat, e: Env, c: nat)
    requires ValidArena(a) && CoreInv(s, a, {}) && req < |a.sizes| && EnvOk(s, a, req, e) && Pops(s, a, req, c)
    ensures PoppedFrom(s, Take(s, a, req, e).2, c)
  {
    var d :| Best(s, a, req, d) && s.spans[d].szclass == c;
    hide WellConfigured, SpansInv, TrieInv, BinsInv, FirstOf, Mint, Preferred, Pop, EnvOk, Best, PoppedFrom;
    PopsBest(s, a, req);
    var i := FindBin(s.bitmap, |a.sizes|, req);
    BestIsUsable(s, a, req, d);
    BestUnique(s, a, req, d, FirstOf(s, i));
    PopLow(s, a, i);
  }

  lemma BestIsUsable(s: Cache, a: Arena, req: nat, d: Desc)
    requires Best(s, a, req, d)
    ensures SomeUsable(s, a, req) && d in s.spans
  {
  }

  lemma TakeLowNone(s: Cache, a: Arena, req: nat, e: Env)
    requires ValidArena(a) && CoreInv(s, a, {}) && req < |a.sizes| && EnvOk(s, a, req, e) && !SomeUsable(s, a, req)
    ensures Take(s, a, req, e).2.bins == s.bins
  {
    hide WellConfigured, SpansInv, TrieInv, BinsInv, SomeUsable, EnvOk, PagesOf, Pop;
    PopsBest(s, a, req);
    NewClassIn(a, req);
  }

  lemma CutoutLow(s: Cache, a: Arena, o: Desc, c: nat, e: Env)
    requires ValidArena(a) && CutCall(s, a, o, c, e)
    ensures Shape(s, |a.sizes|) && MoreSpans(s, Cutout(s, a, o, c, e).1)
  {
    hide WellConfigured, ClassOf, SpansInv, TrieInv, BinsInv, Cut, GoodSpan, BinPut, Cutout, BinShape, Cuttable, MoreSpans;
    HandReady(s, a, {o}, o);
    CutoutIs(s, a, o, c, e);
    CutFields(s, a, o, e.cutDesc.value, a.sizes[c]);
    var s1 := Cut(s, a, o, e.cutDesc.value, a.sizes[c]);
    SameBinsLow(s, s1);
    BinPutLow(s1, o);
    MoreTrans(s, s1, BinPut(s1, o));
  }

  lemma ServeLow(s: Cache, a: Arena, o: Desc, over: bool, req: nat, slab: bool, e: Env)
    requires ValidArena(a) && ServeCall(s, a, o, over, req, e)
    ensures MoreSpans(s, Serve(s, a, o, over, req, slab, e).1)
  {
    hide WellConfigured, SpansInv, TrieInv, BinsInv, Cutout, BinPut, MoreSpans;
    HandReady(s, a, {o}, o);
    if over && e.cutDesc.None? {
      CutoutPoor(s, a, o, req, e);
      BinPutLow(s, o);
    } else {
      var s1, d := s, o;
      SameBinsLow(s, s);
      if over {
        CutoutLow(s, a, o, req, e);
        CutoutCore(s, a, o, req, e);
        s1, d := Cutout(s, a, o, req, e).1, e.cutDesc.value;
      }
      HandReady(s1, a, {d}, d);
      BinPutLow(s1, d);
      MoreTrans(s, s1, BinPut(s1, d));
      SameBinsLow(s1, HandOut(s1, d, slab));
      MoreTrans(s, s1, HandOut(s1, d, slab));
    }
  }

  /** A get lowers the counter of the bin it takes the span from, if that is left with fewer, and no other. */
  lemma GetLow(s: Cache, a: Arena, req: int, slab: bool, e: Env)
    requires ValidArena(a) && GetCall(s, a, req, e)
    ensures var s' := GetSpan(s, a, req, slab, e).1;
      && (forall c :: Pops(s, a, req, c) ==> PoppedFrom(s, s', c))
      && ((forall c :: !Pops(s, a, req, c)) ==> MoreSpans(s, s'))
  {
    hide WellConfigured, CoreInv, Take, Serve, EnvOk, MoreSpans, PoppedFrom, Best, SomeUsable;
    SameBinsLow(s, s);
    if 0 <= req < |a.sizes| {
      TakeCore(s, a, req, e);
      var (out, over, s1) := Take(s, a, req, e);
      SameBinsLow(s1, s1);
      if out.Got? {
        ServeLow(s1, a, out.span, over, req, slab, e);
      }
      TakenLow(s, a, req, e, GetSpan(s, a, req, slab, e).1);
    }
  }

  lemma TakenLow(s: Cache, a: Arena, req: nat, e: Env, s': Cache)
    requires ValidArena(a) && CoreInv(s, a, {}) && req < |a.sizes| && EnvOk(s, a, req, e) && MoreSpans(Take(s, a, req, e).2, s')
    ensures forall c :: Pops(s, a, req, c) ==> PoppedFrom(s, s', c)
    ensures (forall c :: !Pops(s, a, req, c)) ==> MoreSpans(s, s')
  {
    hide WellConfigured, CoreInv, Take, EnvOk, MoreSpans, PoppedFrom, Best, SomeUsable;
    var s1 := Take(s, a, req, e).2;
    if SomeUsable(s, a, req) {
      var d := BestExists(s, a, req);
      var c := s.spans[d].szclass;
      BestClass(s, a, req, d);
      forall i | Pops(s, a, req, i) ensures PoppedFrom(s, s', i) {
        TakeLow(s, a, req, e, i);
        PoppedMore(s, s1, s', i);
      }
      assert Pops(s, a, req, c);
    } else {
      NoneToPop(s, a, req);
      TakeLowNone(s, a, req, e);
      SameBinsLow(s, s1);
      MoreTrans(s, s1, s');
    }
  }

  lemma NoneToPop(s: Cache, a: Arena, req: nat)
    requires !SomeUsable(s, a, req)
    ensures forall c :: !Pops(s, a, req, c)
  {
  }

  lemma BestClass(s: Cache, a: Arena, req: nat, d: Desc)
    requires Best(s, a, req, d)
    ensures s.spans[d].szclass >= 0
  {
  }

  // ----- an aligned get -----

  lemma RebinLow(s: Cache, a: Arena, o: Desc, off: nat, c: nat, e: Env)
    requires ValidArena(a) && HasDescs(off, e) && SplitInHand(s, a, o, off, c, e) && DistinctDescs(o, e)
    ensures MoreSpans(s, Rebin(s, a, o, off, c, e))
  {
    hide WellConfigured, SpansInv, TrieInv, BinsInv, BinPut, TrieInsert, MoreSpans;
    var f, x := e.cutDesc.value, SplitDesc(o, off, e);
    var hand := PieceSet(o, off, e);
    HandReady(s, a, hand, f);
    PutCore(s, a, f, hand);
    var s1 := BinPut(s, f);
    BinPutLow(s, f);
    if off > 0 {
      RebinLeft(s, a, o, off, c, e);
      HandReady(s1, a, {o, x}, o);
      PutCore(s1, a, o, {o, x});
      BinPutLow(s1, o);
      MoreTrans(s, s1, BinPut(s1, o));
      SameBinsLow(BinPut(s1, o), Rebin(s, a, o, off, c, e));
      MoreTrans(s, BinPut(s1, o), Rebin(s, a, o, off, c, e));
    } else {
      SameBinsLow(s1, Rebin(s, a, o, off, c, e));
      MoreTrans(s, s1, Rebin(s, a, o, off, c, e));
    }
  }

  lemma ServeAlignedLow(s: Cache, a: Arena, o: Desc, align: nat, c: nat, e: Env)
    requires ValidArena(a) && TakenCall(s, a, o, align, c, e)
    ensures MoreSpans(s, ServeAligned(s, a, o, align, c, e).1)
  {
    hide WellConfigured, CoreInv, SplitAndInsert, Rebin, Offset, AlignUp, IsPow2, MoreSpans;
    SameBinsLow(s, s);
    if SplitGoes(s, a, o, align, c, e) {
      var off := Offset(s.spans[o].addr, align);
      SplitReady(s, a, o, align, c, e);
      SplitSpansAre(s, a, o, align, c, e);
      var s2 := SplitAndInsert(s, a, o, align, c, e);
      RebinLow(s2, a, o, off, c, e);
      SameBinsLow(s, s2);
      MoreTrans(s, s2, Rebin(s2, a, o, off, c, e));
    }
  }

  lemma GetAlignedLow(s: Cache, a: Arena, lookup: seq<nat>, align: nat, c: nat, e: Env)
    requires ValidArena(a) && AlignedCall(s, a, lookup, align, c, e)
    ensures var s' := GetAligned(s, a, lookup, align, c, e).1; var req := ReqClass(a, lookup, align, c);
      && (forall i :: Pops(s, a, req, i) ==> PoppedFrom(s, s', i))
      && ((forall i :: !Pops(s, a, req, i)) ==> MoreSpans(s, s'))
  {
    assert a.cfg.Valid();
    hide WellConfigured, CoreInv, Take, EnvOk, ReqClass, IsPow2, ServeAligned, MoreSpans, PoppedFrom, Best;
    SameBinsLow(s, s);
    var req := ReqClass(a, lookup, align, c);
    if 0 <= req < |a.sizes| {
      TakeCore(s, a, req, e);
      TakeGivesTaken(s, a, req, align, c, e);
      var (out, _, s1) := Take(s, a, req, e);
      SameBinsLow(s1, s1);
      if out.Got? {
        ServeAlignedLow(s1, a, out.span, align, c, e);
      }
      TakenLow(s, a, req, e, GetAligned(s, a, lookup, align, c, e).1);
    }
  }

  // ----- a put -----

  lemma RemoveLow(s: Cache, a: Arena, x: Desc, hand: set<Desc>)
    requires ValidArena(a) && CoreInv(s, a, hand) && FreeSpan(s, a, hand, x)
    ensures Shape(s, |s.bins|) && 0 <= s.spans[x].szclass < |s.bins|
    ensures s.spans[x].state < SPAN_NSTATES && s.bins[s.spans[x].szclass].nspans > 0
    ensures SameLows(s, BinRemove(s, x))
    ensures forall c :: 0 <= c < |s.bins| ==> BinRemove(s, x).bins[c].nspans == s.bins[c].nspans - One(c == s.spans[x].szclass)
  {
    hide WellConfigured, SpansInv, TrieInv, BinsInv, InBucket, Unbin;
    RemoveReady(s, a, x, hand);
    UnbinLow(s, s.spans[x].szclass, s.spans[x].state, x, s.bins[s.spans[x].szclass].epochMin);
  }

  /** Whether a span, if there is one, is counted in bin `c`. */
  function Counted(spans: map<Desc, Span>, x: Option<Desc>, c: int): nat {
    One(x.Some? && x.value in spans && spans[x.value].szclass == c)
  }

  lemma TakeOutLow(s: Cache, a: Arena, hand: set<Desc>, x: Option<Desc>)
    requires ValidArena(a) && CanTakeOut(s, a, hand, x)
    ensures var s' := TakeOut(s, a, hand, x);
      && SameLows(s, s')
      && forall c :: 0 <= c < |s.bins| ==> s'.bins[c].nspans == s.bins[c].nspans - Counted(s.spans, x, c)
  {
    hide WellConfigured, CoreInv, BinRemove;
    if x.Some? {
      RemoveLow(s, a, x.value, hand);
    }
  }

  lemma RemovedLow(s: Cache, a: Arena, d: Desc, p: Plan)
    requires ValidArena(a) && PlanOk(s, a, d, p)
    ensures var s' := Removed(s, a, d, p);
      && SameLows(s, s')
      && forall c :: 0 <= c < |s.bins| ==>
           s'.bins[c].nspans == s.bins[c].nspans - Counted(s.spans, p.left, c) - Counted(s.spans, p.right, c)
  {
    hide WellConfigured, CoreInv, TakeOut, Joinable;
    RightStill(s, a, d, p);
    SidesHere(s, a, d, p);
    TakeOutLow(s, a, {d}, p.left);
    TakeOutSpans(s, a, {d}, p.left);
    var s1 := TakeOut(s, a, {d}, p.left);
    assert forall c :: Counted(s1.spans, p.right, c) == Counted(s.spans, p.right, c);
    TakeOutLow(s1, a, Add({d}, p.left), p.right);
  }

  /** Merging takes the neighbours out of their bins without lowering the counters there. */
  lemma MergeLow(s: Cache, a: Arena, d: Desc, e: Env, p: Plan)
    requires ValidArena(a) && CoreInv(s, a, {d})
    requires Mine(s, a, d) && s.spans[d].addr > 0 && p == MakePlan(s, a, d) && PlanOk(s, a, d, p)
    ensures var s' := MergeAdj(s, a, d, e).1;
      && SameLows(s, s')
      && forall c :: 0 <= c < |s.bins| ==>
           s'.bins[c].nspans == s.bins[c].nspans - Counted(s.spans, p.left, c) - Counted(s.spans, p.right, c)
  {
    hide WellConfigured, CoreInv, Removed, Coalesced, CanTakeOut, MakePlan, TrieInsert, PlanOk, Joinable, Counted;
    PlanSides(s, a, d, p);
    RemovedLow(s, a, d, p);
    var s1 := Removed(s, a, d, p);
    CoalescedBins(s1, a, d, p);
    InsertBins(Coalesced(s1, a, d, p), Leftmost(d, p), e.nodes, e.stop);
  }

  lemma CoalescedBins(s: Cache, a: Arena, d: Desc, p: Plan)
    requires a.cfg.Positive() && Sides(s, d, p)
    ensures Coalesced(s, a, d, p).bins == s.bins
  {
    hide ClassOf, Without;
  }

  /** A put lowers no counter. It takes the neighbours merged off the counts of their bins and adds the
      whole to that of its own. */
  lemma PutLow(s: Cache, a: Arena, d: Desc, l: Option<Desc>, r: Option<Desc>, e: Env)
    requires ValidArena(a) && PutCall(s, a, d) && s.spans[d].state != RETAINED
    requires IsLeft(s, a, d, l) && IsRight(s, a, d, r)
    ensures (l.Some? ==> l.value in s.spans) && (r.Some? ==> r.value in s.spans)
    ensures var s' := PutSpan(s, a, d, e);
      && SameLows(s, s')
      && forall c :: 0 <= c < |s.bins| ==>
           s'.bins[c].nspans == s.bins[c].nspans - Counted(s.spans, l, c) - Counted(s.spans, r, c) + One(Whole(a, s.spans, d, l, r).szclass == c)
  {
    hide WellConfigured, CoreInv, MergeAdj, Release, BinPut, Freed, PlanOk, MakePlan, FreeSpan, Merges, Whole, OneWhole;
    SidesApart(s, a, d, l, r);
    ReleaseKeeps(s, a, d);
    ReleaseSpans(s, d);
    ReleaseIs(s, d);
    var s0 := Release(s, d);
    PlanIs(s, a, d, l, r);
    PlanIsOk(s0, a, d);
    MergeLow(s0, a, d, e, Plan(l, r));
    assert forall c :: Counted(s0.spans, l, c) == Counted(s.spans, l, c) && Counted(s0.spans, r, c) == Counted(s.spans, r, c);
    MergeAdjCore(s0, a, d, e);
    MergeSpans(s0, a, d, e, Plan(l, r));
    FreeAfter(s, a, d, l, r, e);
    var (m, s1) := MergeAdj(s0, a, d, e);
    HandReady(s1, a, {m}, m);
    BinPutLow(s1, m);
    BinPutSpans(s1, m);
    IsTheWhole(s, PutSpan(s, a, d, e), a, m, l, r, Whole(a, s.spans, d, l, r));
  }

  lemma IsTheWhole(s: Cache, s': Cache, a: Arena, m: Desc, l: Option<Desc>, r: Option<Desc>, w: Span)
    requires OneWhole(s, s', a, m, l, r, w)
    ensures m in s'.spans && s'.spans[m] == w
  {
  }

  // ----- a decay -----

  lemma DecayLow(s: Cache, a: Arena, c: nat)
    requires ValidArena(a) && CoreInv(s, a, {}) && c < |a.sizes|
    ensures var s' := Decay(s, a);
      && |s.bins| == |s'.bins| == |a.sizes| && s'.bins[c].nspans == s.bins[c].nspans
      && s'.bins[c].epochMin == if a.hasMadvise then s.bins[c].nspans else s.bins[c].epochMin
  {
    BinsCount(s, a);
    hide WellConfigured, CoreInv, DecayFrom, Before;
    DecayDoes(s, a);
    assert BinDecayed(s, Decay(s, a), a, c);
  }

  // ----- steps -----

  /** The class a step looks for, if it asks for a span. */
  function Asks(a: Arena, lookup: seq<nat>, t: Step): int
    requires Configured(a, lookup) && (t.GetAlign? ==> t.szclass < |a.sizes|)
  {
    match t
    case Get(req, _, _) => req
    case GetAlign(align, c, _) => ValidConfig(a); ReqClass(a, lookup, align, c)
    case _ => -1
  }

  /** The step takes a span out of bin `c` to serve a request. */
  ghost predicate StepPops(s: Cache, a: Arena, lookup: seq<nat>, t: Step, c: nat)
    requires Configured(a, lookup) && MayStep(s, a, lookup, t)
  {
    Pops(s, a, Asks(a, lookup, t), c)
  }

  predicate Resets(a: Arena, t: Step) {
    t.DecayAll? && a.hasMadvise
  }

  /** Decays set the counter of a bin to its count, and requests served from it lower it to what they
      leave, if that is less. Nothing else touches it. */
  lemma StepLow(s: Cache, a: Arena, lookup: seq<nat>, t: Step, c: nat)
    requires Configured(a, lookup) && CoreInv(s, a, {}) && MayStep(s, a, lookup, t) && c < |a.sizes|
    requires t.Put? ==> s.spans[t.span].state != RETAINED
    ensures var s' := Apply(s, a, lookup, t);
      && |s.bins| == |s'.bins| == |a.sizes| && (StepPops(s, a, lookup, t, c) ==> s.bins[c].nspans > 0)
      && s'.bins[c].epochMin ==
           if Resets(a, t) then s.bins[c].nspans
           else if StepPops(s, a, lookup, t, c) && s.bins[c].nspans - 1 < s.bins[c].epochMin then s.bins[c].nspans - 1
           else s.bins[c].epochMin
  {
    ValidConfig(a);
    BinsCount(s, a);
    hide WellConfigured, CoreInv, EnvOk, GetSpan, GetAligned, PutSpan, Decay, Pops, Foreign, Counted, Whole, IsLeft, IsRight, ReqClass;
    match t
    case Get(req, slab, e) =>
      GetLow(s, a, req, slab, e);
      PopsOne(s, a, req, c, GetSpan(s, a, req, slab, e).1);
    case GetAlign(align, k, e) =>
      GetAlignedLow(s, a, lookup, align, k, e);
      PopsOne(s, a, ReqClass(a, lookup, align, k), c, GetAligned(s, a, lookup, align, k, e).1);
    case Put(d, e) =>
      var l, r := NeighboursExist(s, a, d);
      PutLow(s, a, d, l, r, e);
      NothingPops(s, a, c);
    case DecayAll =>
      DecayLow(s, a, c);
      NothingPops(s, a, c);
    case Others(_, _, _) =>
      NothingPops(s, a, c);
      ForeignBins(s, Apply(s, a, lookup, t), a);
  }

  lemma ForeignBins(s: Cache, s': Cache, a: Arena)
    requires Foreign(s, s', a)
    ensures s'.bins == s.bins
  {
  }

  lemma NothingPops(s: Cache, a: Arena, c: nat)
    ensures !Pops(s, a, -1, c)
  {
  }

  /** All requests are served from one bin, so the others keep their counters. */
  lemma PopsOne(s: Cache, a: Arena, req: int, c: nat, s': Cache)
    requires forall i :: Pops(s, a, req, i) ==> PoppedFrom(s, s', i)
    requires (forall i :: !Pops(s, a, req, i)) ==> MoreSpans(s, s')
    requires c < |s.bins|
    ensures |s'.bins| == |s.bins| && (Pops(s, a, req, c) ==> PoppedFrom(s, s', c))
    ensures !Pops(s, a, req, c) ==> s'.bins[c].epochMin == s.bins[c].epochMin && s'.bins[c].nspans >= s.bins[c].nspans
  {
    hide Pops;
    if i: nat :| Pops(s, a, req, i) {
      assert PoppedFrom(s, s', i);
    }
  }

  // ----- runs -----

  /** Step `j` sets the counter of bin `c` anew, or takes a span out of it. */
  ghost predicate Counts(states: seq<Cache>, steps: seq<Step>, a: Arena, lookup: seq<nat>, c: nat, j: nat)
    requires Configured(a, lookup) && IsRun(states, steps, a, lookup) && j < |steps|
  {
    Resets(a, steps[j]) || StepPops(states[j], a, lookup, steps[j], c)
  }

  /** How many free spans the bin is left with at that point of the step. */
  ghost function CountAt(states: seq<Cache>, steps: seq<Step>, a: Arena, c: nat, j: nat): int
    requires j < |steps| && |states| == |steps| + 1 && c < |states[j].bins|
  {
    if Resets(a, steps[j]) then states[j].bins[c].nspans else states[j].bins[c].nspans - 1
  }

  /** A run in order, so far as the counters depend on it. */
  ghost predicate CountedRun(states: seq<Cache>, steps: seq<Step>, a: Arena, lookup: seq<nat>)
    requires Configured(a, lookup) && IsRun(states, steps, a, lookup)
  {
    NoLeaks(states, steps, a, lookup) && Safe(states, steps, a, lookup) && CoreInv(states[0], a, {}) && RetainedFree(states[0], a)
  }

  lemma RunStepLow(states: seq<Cache>, steps: seq<Step>, a: Arena, lookup: seq<nat>, c: nat, j: nat)
    requires Configured(a, lookup) && IsRun(states, steps, a, lookup) && CountedRun(states, steps, a, lookup)
    requires c < |a.sizes| && j < |steps|
    ensures |states[j].bins| == |states[j + 1].bins| == |a.sizes|
    ensures states[j + 1].bins[c].epochMin ==
      if Counts(states, steps, a, lookup, c, j) && (Resets(a, steps[j]) || CountAt(states, steps, a, c, j) < states[j].bins[c].epochMin)
      then CountAt(states, steps, a, c, j) else states[j].bins[c].epochMin
  {
    hide WellConfigured, CoreInv, MayStep, Apply, LeakStep, RetainedFree, InBucket, StepPops, Safe, NoLeaks;
    RunRetains(states, steps, a, lookup, j);
    PutNotRetained(states[j], a, lookup, steps[j]);
    StepLow(states[j], a, lookup, steps[j], c);
  }

  lemma PutNotRetained(s: Cache, a: Arena, lookup: seq<nat>, t: Step)
    requires Configured(a, lookup) && MayStep(s, a, lookup, t) && RetainedFree(s, a)
    ensures t.Put? ==> t.span in s.spans && s.spans[t.span].state != RETAINED
  {
    hide WellConfigured;
  }

  /** Before the first decay, and ever if there is no madvise, the counter of a new cache stays 0. */
  lemma {:induction false} RunLowFirst(states: seq<Cache>, steps: seq<Step>, a: Arena, lookup: seq<nat>, c: nat, i: nat)
    requires Configured(a, lookup) && IsRun(states, steps, a, lookup) && CountedRun(states, steps, a, lookup)
    requires c < |a.sizes| && i <= |steps| && c < |states[0].bins| && states[0].bins[c].epochMin == 0
    requires forall j :: 0 <= j < i ==> !Resets(a, steps[j])
    ensures c < |states[i].bins| && states[i].bins[c].epochMin == 0
  {
    hide WellConfigured, IsRun, CountedRun, Counts;
    if i > 0 {
      RunLowFirst(states, steps, a, lookup, c, i - 1);
      RunStepLow(states, steps, a, lookup, c, i - 1);
      CountsLeft(states, steps, a, lookup, c, i - 1);
    }
  }

  lemma CountsLeft(states: seq<Cache>, steps: seq<Step>, a: Arena, lookup: seq<nat>, c: nat, j: nat)
    requires Configured(a, lookup) && IsRun(states, steps, a, lookup) && CountedRun(states, steps, a, lookup)
    requires c < |a.sizes| && j < |steps|
    ensures c < |states[j].bins| && (Counts(states, steps, a, lookup, c, j) ==> CountAt(states, steps, a, c, j) >= 0)
  {
    hide WellConfigured, CoreInv, MayStep, Apply, LeakStep, RetainedFree, InBucket, StepPops, Safe, NoLeaks;
    RunRetains(states, steps, a, lookup, j);
    PutNotRetained(states[j], a, lookup, steps[j]);
    StepLow(states[j], a, lookup, steps[j], c);
  }

  /** After a decay, and until the next, the counter is the least of the number of spans the decay found in
      the bin and the numbers left there by the requests served from it since. */
  lemma {:induction false} RunLow(states: seq<Cache>, steps: seq<Step>, a: Arena, lookup: seq<nat>, c: nat, l: nat, i: nat)
    requires Configured(a, lookup) && IsRun(states, steps, a, lookup) && CountedRun(states, steps, a, lookup)
    requires c < |a.sizes| && l < i <= |steps| && Resets(a, steps[l]) && forall j :: l < j < i ==> !Resets(a, steps[j])
    ensures c < |states[i].bins| && forall j :: l <= j < i ==> c < |states[j].bins|
    ensures forall j :: l <= j < i && Counts(states, steps, a, lookup, c, j) ==> states[i].bins[c].epochMin <= CountAt(states, steps, a, c, j)
    ensures exists j :: l <= j < i && Counts(states, steps, a, lookup, c, j) && states[i].bins[c].epochMin == CountAt(states, steps, a, c, j)
    decreases i
  {
    hide WellConfigured, CoreInv, MayStep, Apply, CountedRun, StepPops;
    RunStepLow(states, steps, a, lookup, c, i - 1);
    if i - 1 > l {
      RunLow(states, steps, a, lookup, c, l, i - 1);
      if states[i].bins[c].epochMin != states[i - 1].bins[c].epochMin {
        assert Counts(states, steps, a, lookup, c, i - 1) && states[i].bins[c].epochMin == CountAt(states, steps, a, c, i - 1);
      }
    } else {
      assert Counts(states, steps, a, lookup, c, l);
    }
  }

  lemma InitLow(a: Arena, spans: map<Desc, Span>, trie: map<nat, Desc>, paths: set<nat>, c: nat)
    requires c < |a.sizes|
    ensures c < |Init(a, spans, trie, paths).bins| && Init(a, spans, trie, paths).bins[c].epochMin == 0
  {
  }

  // ----- where the counter is above the number of spans -----

  /** The counter says more spans lay idle than there are now. */
  predicate TooHigh(s: Cache, c: nat) {
    c < |s.bins| && s.bins[c].epochMin > s.bins[c].nspans
  }

  /** Only a put can make it so, since merging takes spans out of bins without lowering their counters:
      exactly if it takes more off the bin's count than the count is above the counter. */
  lemma PutTooHighIff(s: Cache, a: Arena, d: Desc, l: Option<Desc>, r: Option<Desc>, e: Env, c: nat)
    requires ValidArena(a) && PutCall(s, a, d) && s.spans[d].state != RETAINED && c < |a.sizes| && !TooHigh(s, c)
    requires IsLeft(s, a, d, l) && IsRight(s, a, d, r)
    ensures (l.Some? ==> l.value in s.spans) && (r.Some? ==> r.value in s.spans) && c < |s.bins|
    ensures TooHigh(PutSpan(s, a, d, e), c) <==>
      Counted(s.spans, l, c) + Counted(s.spans, r, c) >
        s.bins[c].nspans - s.bins[c].epochMin + One(Whole(a, s.spans, d, l, r).szclass == c)
  {
    BinsCount(s, a);
    hide WellConfigured, CoreInv, PutSpan, Counted, Whole, IsLeft, IsRight;
    PutLow(s, a, d, l, r, e);
  }

  lemma StepNotTooHigh(s: Cache, a: Arena, lookup: seq<nat>, t: Step, c: nat)
    requires Configured(a, lookup) && CoreInv(s, a, {}) && MayStep(s, a, lookup, t) && c < |a.sizes|
    requires !t.Put? && !TooHigh(s, c)
    ensures !TooHigh(Apply(s, a, lookup, t), c)
  {
    ValidConfig(a);
    BinsCount(s, a);
    hide WellConfigured, CoreInv, EnvOk, GetSpan, GetAligned, Decay, Pops, Foreign, ReqClass;
    match t
    case Get(req, slab, e) =>
      GetLow(s, a, req, slab, e);
      PopsOne(s, a, req, c, GetSpan(s, a, req, slab, e).1);
    case GetAlign(align, k, e) =>
      GetAlignedLow(s, a, lookup, align, k, e);
      PopsOne(s, a, ReqClass(a, lookup, align, k), c, GetAligned(s, a, lookup, align, k, e).1);
    case DecayAll =>
      DecayLow(s, a, c);
    case Others(_, _, _) =>
      ForeignBins(s, Apply(s, a, lookup, t), a);
  }
}
