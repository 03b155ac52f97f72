/** Who holds what: the allocated spans change by exactly what is handed out and put back, and keep
    their place, size and bytes meanwhile. */
module SpanLedger {
  import opened SizeClasses
  import opened SpanState
  import opened SpanInvariants
  import opened SpanOps
  import opened SpanGet
  import opened SpanPut
  import opened SpanAligned
  import opened SpanRoom
  import opened SpanDecay
  import opened SpanFrames
  import opened SpanRuns

  ghost function AllocSet(s: Cache, a: Arena): set<Desc> {
    set d | d in s.spans && Allocated(s, a, d)
  }

  /** Everything allocated before and after is the very same span. */
  ghost predicate Undisturbed(s: Cache, s': Cache, a: Arena) {
    forall d :: Allocated(s, a, d) && Allocated(s', a, d) ==> s'.spans[d] == s.spans[d]
  }

  // ----- what is handed out was not allocated -----

  lemma TakenIsFree(s: Cache, a: Arena, req: nat, e: Env)
    requires ValidArena(a) && CoreInv(s, a, {}) && req < |a.sizes| && EnvOk(s, a, req, e)
    ensures var (out, _, _) := Take(s, a, req, e); out.Got? ==> !Untouchable(s, a, out.span)
  {
    assert MintClass(a, req) < |a.sizes|;
    hide WellConfigured, SpansInv, TrieInv, BinsInv, EnvOk, Pop, Mint, BinPop;
    var i := FindBin(s.bitmap, |a.sizes|, req);
    if i >= 0 {
      PopFree(s, a, i);
    } else {
      MintIs(s, a, req, e);
    }
  }

  lemma ServedSpan(s: Cache, a: Arena, o: Desc, over: bool, req: nat, slab: bool, e: Env)
    requires ValidArena(a) && ServeCall(s, a, o, over, req, e)
    ensures var out := Serve(s, a, o, over, req, slab, e).0; out.Got? ==> out.span == o || Some(out.span) == e.cutDesc
  {
    hide WellConfigured, SpansInv, TrieInv, BinsInv, ClassOf, BinPut, HandOut, BinShape, Cutout;
    HandReady(s, a, {o}, o);
    if over && e.cutDesc.Some? {
      CutoutCore(s, a, o, req, e);
    } else if over {
      CutoutPoor(s, a, o, req, e);
    }
  }

  lemma GetHandsFree(s: Cache, a: Arena, req: int, slab: bool, e: Env)
    requires ValidArena(a) && GetCall(s, a, req, e)
    ensures var out := GetSpan(s, a, req, slab, e).0; out.Got? ==> !Untouchable(s, a, out.span)
  {
    hide CoreInv, Take, Serve, WellConfigured, RegionOk;
    if 0 <= req < |a.sizes| {
      TakeCore(s, a, req, e);
      TakenIsFree(s, a, req, e);
      var (out, over, s1) := Take(s, a, req, e);
      if out.Got? {
        ServedSpan(s1, a, out.span, over, req, slab, e);
      }
    }
  }

  lemma GetAlignedHandsFree(s: Cache, a: Arena, lookup: seq<nat>, align: nat, c: nat, e: Env)
    requires ValidArena(a) && AlignedCall(s, a, lookup, align, c, e)
    ensures var out := GetAligned(s, a, lookup, align, c, e).0; out.Got? ==> !Untouchable(s, a, out.span)
  {
    ValidConfig(a);
    hide CoreInv, Take, WellConfigured, RegionOk, ReqClass, Rebin, SplitAndInsert;
    var req := ReqClass(a, lookup, align, c);
    if 0 <= req < |a.sizes| {
      TakeGivesTaken(s, a, req, align, c, e);
      TakenIsFree(s, a, req, e);
    }
  }

  // ----- the ledger -----

  /** A step that is framed but for `x`, none of it allocated before, allocates within `x`. */
  lemma FramedLedger(s: Cache, s': Cache, a: Arena, x: set<Desc>)
    requires Framed(s, s', a, x) && (forall d :: d in x ==> !Untouchable(s, a, d) && Allocated(s', a, d))
    ensures AllocSet(s', a) == AllocSet(s, a) + x && AllocSet(s, a) !! x && Undisturbed(s, s', a)
  {
    hide TrieFramed;
    assert forall d :: Allocated(s, a, d) ==> Untouchable(s, a, d);
  }

  lemma PutAfterRelease(s: Cache, a: Arena, d: Desc, e: Env)
    requires ValidArena(a) && PutCall(s, a, d)
    ensures Framed(Release(s, d), PutSpan(s, a, d, e), a, {})
  {
    hide WellConfigured, SpansInv, TrieInv, BinsInv, MergeAdj, Release, SetAlloc, BinPut, Framed;
    ReleaseKeeps(s, a, d);
    var s1 := Release(s, d);
    MergeAdjCore(s1, a, d, e);
    MergeAdjFramed(s1, a, d, e, {});
    var (m, s2) := MergeAdj(s1, a, d, e);
    HandReady(s2, a, {m}, m);
    PutFramed(s2, a, m, {m}, {});
    FramedTrans(s1, s2, BinPut(s2, m), a, {});
  }

  lemma ReleaseLedger(s: Cache, a: Arena, d: Desc)
    requires Mine(s, a, d) && s.spans[d].isAlloc
    ensures AllocSet(Release(s, d), a) == AllocSet(s, a) - {d} && d in AllocSet(s, a)
    ensures forall e :: Allocated(Release(s, d), a, e) ==> Allocated(s, a, e) && Release(s, d).spans[e] == s.spans[e]
  {
  }

  /** Putting a span back takes it, and it alone, off the ledger. */
  lemma PutLedger(s: Cache, a: Arena, d: Desc, e: Env)
    requires ValidArena(a) && PutCall(s, a, d)
    ensures var s' := PutSpan(s, a, d, e);
      AllocSet(s', a) == AllocSet(s, a) - {d} && d in AllocSet(s, a) && Undisturbed(s, s', a)
  {
    hide WellConfigured, CoreInv, PutSpan, Release, Framed;
    ReleaseLedger(s, a, d);
    PutAfterRelease(s, a, d, e);
    FramedLedger(Release(s, d), PutSpan(s, a, d, e), a, {});
    FromRelease(s, Release(s, d), PutSpan(s, a, d, e), a);
  }

  lemma FromRelease(s: Cache, s1: Cache, s': Cache, a: Arena)
    requires Undisturbed(s1, s', a) && AllocSet(s', a) == AllocSet(s1, a) + {}
    requires forall e :: Allocated(s1, a, e) ==> Allocated(s, a, e) && s1.spans[e] == s.spans[e]
    ensures Undisturbed(s, s', a)
  {
    forall d | Allocated(s, a, d) && Allocated(s', a, d) ensures s'.spans[d] == s.spans[d] {
      assert d in AllocSet(s', a);
    }
  }

  /** What a step hands out, and what it takes back. */
  ghost function HandedBy(s: Cache, a: Arena, lookup: seq<nat>, t: Step): set<Desc>
    requires Configured(a, lookup) && CoreInv(s, a, {}) && MayStep(s, a, lookup, t)
  {
    if t.Get? then Handed(GetSpan(s, a, t.req, t.slab, t.env).0)
    else if t.GetAlign? then Handed(GetAligned(s, a, lookup, t.align, t.szclass, t.env).0)
    else {}
  }

  ghost function TakenBy(t: Step): set<Desc> {
    if t.Put? then {t.span} else {}
  }

  /** Every step changes the set of allocated spans by exactly what it hands out and takes back;
      what it hands out was free or did not exist, and no other allocated span changes at all. */
  lemma StepLedger(s: Cache, a: Arena, lookup: seq<nat>, t: Step)
    requires Configured(a, lookup) && CoreInv(s, a, {}) && MayStep(s, a, lookup, t)
    ensures var s' := Apply(s, a, lookup, t);
      && AllocSet(s', a) == AllocSet(s, a) + HandedBy(s, a, lookup, t) - TakenBy(t)
      && AllocSet(s, a) !! HandedBy(s, a, lookup, t) && TakenBy(t) <= AllocSet(s, a)
      && Undisturbed(s, s', a)
  {
    hide WellConfigured, CoreInv, EnvOk, GetSpan, GetAligned, PutSpan, Decay, Framed, AllocSet, Undisturbed, Untouchable;
    match t
    case Get(req, slab, e) =>
      GetSpanCore(s, a, req, slab, e);
      GetSpanFramed(s, a, req, slab, e);
      GetHandsFree(s, a, req, slab, e);
      FramedLedger(s, Apply(s, a, lookup, t), a, HandedBy(s, a, lookup, t));
    case GetAlign(align, c, e) =>
      GetAlignedCore(s, a, lookup, align, c, e);
      GetAlignedFramed(s, a, lookup, align, c, e);
      GetAlignedHandsFree(s, a, lookup, align, c, e);
      FramedLedger(s, Apply(s, a, lookup, t), a, HandedBy(s, a, lookup, t));
    case Put(d, e) =>
      PutLedger(s, a, d, e);
    case DecayAll =>
      DecayFramed(s, a);
      FramedLedger(s, Apply(s, a, lookup, t), a, {});
    case Others(_, _, _) =>
      ForeignLedger(s, Apply(s, a, lookup, t), a);
  }

  lemma DecayFramed(s: Cache, a: Arena)
    requires ValidArena(a) && CoreInv(s, a, {})
    ensures Framed(s, Decay(s, a), a, {})
  {
    hide WellConfigured, CoreInv, Framed;
    DecayFromFramed(s, a, 0);
  }

  lemma ForeignLedger(s: Cache, s': Cache, a: Arena)
    requires Foreign(s, s', a)
    ensures AllocSet(s', a) == AllocSet(s, a) && Undisturbed(s, s', a)
  {
  }

  /** Two different allocated spans never share a byte. */
  lemma AllocatedApart(s: Cache, a: Arena, d: Desc, e: Desc)
    requires ValidArena(a) && CoreInv(s, a, {}) && Allocated(s, a, d) && Allocated(s, a, e) && d != e
    ensures s.spans[d].addr + s.spans[d].nbytes <= s.spans[e].addr || s.spans[e].addr + s.spans[e].nbytes <= s.spans[d].addr
  {
    hide WellConfigured, BinsInv, TrieInv, SpansInv;
    NotInside(s, a, d, e);
    NotInside(s, a, e, d);
  }

  // ----- arenas do not disturb one another -----

  lemma FramedStep(t: Cache, b: Arena, lookup: seq<nat>, step: Step) returns (x: set<Desc>)
    requires Configured(b, lookup) && CoreInv(t, b, {}) && MayStep(t, b, lookup, step) && !step.Others?
    ensures Framed(t, Apply(t, b, lookup, step), b, x)
    ensures forall d :: d in x && d in t.spans ==> t.spans[d].arena == b.uid
  {
    hide WellConfigured, CoreInv, EnvOk, GetSpan, GetAligned, PutSpan, Decay, Framed;
    match step
    case Get(req, slab, e) =>
      GetSpanFramed(t, b, req, slab, e);
      GetHandsFree(t, b, req, slab, e);
      x := Handed(GetSpan(t, b, req, slab, e).0);
    case GetAlign(align, c, e) =>
      GetAlignedFramed(t, b, lookup, align, c, e);
      GetAlignedHandsFree(t, b, lookup, align, c, e);
      x := Handed(GetAligned(t, b, lookup, align, c, e).0);
    case Put(d, e) =>
      PutSpanFramed(t, b, d, e);
      x := {d};
    case DecayAll =>
      DecayFramed(t, b);
      x := {};
  }

  /** Spans and trie still agree after every step, also one that loses a span. */
  lemma StepTrie(t: Cache, b: Arena, lookup: seq<nat>, step: Step)
    requires Configured(b, lookup) && CoreInv(t, b, {}) && MayStep(t, b, lookup, step)
    ensures TrieInv(Apply(t, b, lookup, step), b)
  {
    hide WellConfigured, SpansInv, BinsInv, TrieInv, EnvOk, GetSpan, GetAligned, PutSpan, Decay, Leaks, Foreign;
    StepCore(t, b, lookup, step);
    if LeakStep(t, b, lookup, step) {
      var _ := LeakLeaves(t, b, lookup, step.align, step.szclass, step.env);
    }
  }

  /** Any operation of arena `b` on the shared structures, even one that loses a span, is one that
      arena `a` tolerates. */
  lemma StepIsForeign(s: Cache, t: Cache, a: Arena, b: Arena, lookup: seq<nat>, step: Step)
    requires a.uid != b.uid && ValidArena(a) && Configured(b, lookup) && Shares(s, t)
    requires CoreInv(s, a, {}) && CoreInv(t, b, {}) && MayStep(t, b, lookup, step) && !step.Others?
    ensures var t' := Apply(t, b, lookup, step); Foreign(s, s.(spans := t'.spans, trie := t'.trie, paths := t'.paths), a)
  {
    hide WellConfigured, SpansInv, BinsInv, TrieInv, MayStep, Apply, LeakStep, Framed, Foreign, Shares;
    var x := FramedStep(t, b, lookup, step);
    StepTrie(t, b, lookup, step);
    FramedIsForeign(s, t, Apply(t, b, lookup, step), a, b, x);
  }
}
