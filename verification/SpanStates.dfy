/** Retained spans: nothing but a decay makes one, and every one is free. */
module SpanStates {
  import opened Bits
  import opened SizeClasses
  import opened SpanState
  import opened SpanInvariants
  import opened SpanOps
  import opened SpanGet
  import opened SpanPut
  import opened SpanAligned
  import opened SpanDecay
  import opened SpanFrames
  import opened SpanRuns
  import opened SpanAnswers
  import opened SpanReturns

  /** What is allocated is not retained. */
  ghost predicate RetainedFree(s: Cache, a: Arena) {
    forall d :: Mine(s, a, d) && s.spans[d].state == RETAINED ==> !s.spans[d].isAlloc
  }

  /** The retained spans of `s'` were retained in `s`, and are what they were. */
  ghost predicate NoneRetained(s: Cache, s': Cache, a: Arena) {
    forall d :: Mine(s', a, d) && s'.spans[d].state == RETAINED ==> Mine(s, a, d) && s'.spans[d] == s.spans[d]
  }

  lemma NoneRetainedKeeps(s: Cache, s': Cache, a: Arena)
    requires RetainedFree(s, a) && NoneRetained(s, s', a)
    ensures RetainedFree(s', a)
  {
  }

  // ----- what becomes of the descriptors -----

  lemma ServedStates(a: Arena, spans: map<Desc, Span>, o: Desc, over: bool, req: nat, slab: bool, e: Env, x: Desc)
    requires a.cfg.Positive() && o in spans && req < |a.sizes| && (over ==> a.sizes[req] < spans[o].nbytes)
    requires spans[o].state != RETAINED
    ensures var now := Served(a, spans, o, over, req, slab, e).1;
      x in now && now[x].state == RETAINED ==> x in spans && now[x] == spans[x]
  {
    hide ClassOf;
  }

  lemma SplitStates(a: Arena, spans: map<Desc, Span>, o: Desc, align: nat, c: nat, e: Env, x: Desc)
    requires a.cfg.Positive() && o in spans && align > 0 && c < |a.sizes| && spans[o].state != RETAINED
    ensures var now := SplitFor(a, spans, o, align, c, e).1;
      x in now && now[x].state == RETAINED ==> x in spans && now[x] == spans[x]
  {
    hide ClassOf, BytesBefore;
  }

  lemma FreedStates(a: Arena, spans: map<Desc, Span>, d: Desc, l: Option<Desc>, r: Option<Desc>, x: Desc)
    requires a.cfg.Positive() && d in spans && (l.Some? ==> l.value in spans) && (r.Some? ==> r.value in spans)
    ensures var now := Freed(a, spans, d, l, r);
      x in now && now[x].state == RETAINED ==> x in spans && now[x] == spans[x]
  {
    hide ClassOf, RecordOf;
  }

  // ----- the operations -----

  lemma GetRetains(s: Cache, a: Arena, req: int, slab: bool, e: Env)
    requires ValidArena(a) && GetCall(s, a, req, e)
    ensures NoneRetained(s, GetSpan(s, a, req, slab, e).1, a)
  {
    hide WellConfigured, CoreInv, GetSpan, EnvOk, Best, Served, CanMap, SomeUsable;
    var s' := GetSpan(s, a, req, slab, e).1;
    if 0 <= req < |a.sizes| {
      if SomeUsable(s, a, req) {
        var d := BestExists(s, a, req);
        GetFromBin(s, a, req, slab, e, d);
        forall x | Mine(s', a, x) && s'.spans[x].state == RETAINED ensures Mine(s, a, x) && s'.spans[x] == s.spans[x] {
          ServedStates(a, s.spans[d := Idle(s.spans[d])], d, s.spans[d].szclass > req, req, slab, e, x);
        }
      } else {
        GetFromMapper(s, a, req, slab, e);
        if CanMap(s, a, req, e) {
          NewIsThere(s, a, req, e);
          forall x | Mine(s', a, x) && s'.spans[x].state == RETAINED ensures Mine(s, a, x) && s'.spans[x] == s.spans[x] {
            ServedStates(a, WithNew(s, a, req, e), e.mintDesc.value, a.defaultClass > req, req, slab, e, x);
          }
        }
      }
    } else {
      OutOfRange(s, a, req, slab, e);
    }
  }

  lemma OutOfRange(s: Cache, a: Arena, req: int, slab: bool, e: Env)
    requires ValidArena(a) && GetCall(s, a, req, e) && !(0 <= req < |a.sizes|)
    ensures GetSpan(s, a, req, slab, e) == (InvalidArgs, s)
  {
    hide WellConfigured, CoreInv, Take, Serve, EnvOk;
  }

  lemma GetAlignedRetains(s: Cache, a: Arena, lookup: seq<nat>, align: nat, c: nat, e: Env)
    requires ValidArena(a) && AlignedCall(s, a, lookup, align, c, e)
    ensures NoneRetained(s, GetAligned(s, a, lookup, align, c, e).1, a)
  {
    assert a.cfg.Valid();
    hide WellConfigured, CoreInv, GetAligned, EnvOk, Best, SplitFor, CanMap, SomeUsable, Usable, ReqClass, IsPow2;
    var s' := GetAligned(s, a, lookup, align, c, e).1;
    var req := ReqClass(a, lookup, align, c);
    if 0 <= req < |a.sizes| {
      if SomeUsable(s, a, req) {
        var d := BestExists(s, a, req);
        GetAlignedFromBin(s, a, lookup, align, c, e, d);
        forall x | Mine(s', a, x) && s'.spans[x].state == RETAINED ensures Mine(s, a, x) && s'.spans[x] == s.spans[x] {
          SplitStates(a, s.spans[d := Idle(s.spans[d])], d, align, c, e, x);
        }
      } else {
        GetAlignedFromMapper(s, a, lookup, align, c, e);
        if CanMap(s, a, req, e) {
          NewIsThere(s, a, req, e);
          forall x | Mine(s', a, x) && s'.spans[x].state == RETAINED ensures Mine(s, a, x) && s'.spans[x] == s.spans[x] {
            SplitStates(a, WithNew(s, a, req, e), e.mintDesc.value, align, c, e, x);
          }
        }
      }
    } else {
      AlignedOutOfRange(s, a, lookup, align, c, e);
    }
  }

  lemma AlignedOutOfRange(s: Cache, a: Arena, lookup: seq<nat>, align: nat, c: nat, e: Env)
    requires ValidArena(a) && AlignedCall(s, a, lookup, align, c, e) && !(0 <= ReqClass(a, lookup, align, c) < |a.sizes|)
    ensures GetAligned(s, a, lookup, align, c, e) == (InvalidArgs, s)
  {
    assert a.cfg.Valid();
    hide WellConfigured, CoreInv, Take, ServeAligned, EnvOk, ReqClass, IsPow2;
  }

  lemma PutRetains(s: Cache, a: Arena, d: Desc, e: Env)
    requires ValidArena(a) && PutCall(s, a, d) && s.spans[d].state != RETAINED
    ensures NoneRetained(s, PutSpan(s, a, d, e), a)
  {
    hide WellConfigured, CoreInv, PutSpan, Freed, IsLeft, IsRight;
    var l, r := NeighboursExist(s, a, d);
    SidesApart(s, a, d, l, r);
    PutIs(s, a, d, l, r, e);
    var s' := PutSpan(s, a, d, e);
    forall x | Mine(s', a, x) && s'.spans[x].state == RETAINED ensures Mine(s, a, x) && s'.spans[x] == s.spans[x] {
      FreedStates(a, s.spans, d, l, r, x);
    }
  }

  /** No step but a decay makes a span retained, and after a decay too every retained span is free. */
  lemma StepRetains(s: Cache, a: Arena, lookup: seq<nat>, t: Step)
    requires Configured(a, lookup) && CoreInv(s, a, {}) && MayStep(s, a, lookup, t) && RetainedFree(s, a)
    ensures var s' := Apply(s, a, lookup, t); RetainedFree(s', a) && (!t.DecayAll? ==> NoneRetained(s, s', a))
  {
    hide WellConfigured, CoreInv, EnvOk, GetSpan, GetAligned, PutSpan, Decay, RetainedFree, NoneRetained, Foreign;
    var s' := Apply(s, a, lookup, t);
    match t {
      case Get(req, slab, e) =>
        GetRetains(s, a, req, slab, e);
      case GetAlign(align, c, e) =>
        GetAlignedRetains(s, a, lookup, align, c, e);
      case Put(d, e) =>
        AllocNotRetained(s, a, d);
        PutRetains(s, a, d, e);
      case DecayAll =>
        DecayRetains(s, a);
      case Others(_, _, _) =>
        ForeignRetains(s, s', a);
    }
    if !t.DecayAll? {
      NoneRetainedKeeps(s, s', a);
    }
  }

  lemma AllocNotRetained(s: Cache, a: Arena, d: Desc)
    requires RetainedFree(s, a) && Mine(s, a, d) && s.spans[d].isAlloc
    ensures s.spans[d].state != RETAINED
  {
  }

  lemma ForeignRetains(s: Cache, s': Cache, a: Arena)
    requires Foreign(s, s', a)
    ensures NoneRetained(s, s', a)
  {
  }

  /** A decay leaves allocated spans alone. */
  lemma DecayRetains(s: Cache, a: Arena)
    requires ValidArena(a) && CoreInv(s, a, {}) && RetainedFree(s, a)
    ensures RetainedFree(Decay(s, a), a)
  {
    hide WellConfigured, CoreInv, DecayFrom;
    DecayFromFramed(s, a, 0);
    var s' := Decay(s, a);
    assert forall d :: Allocated(s', a, d) ==> Untouchable(s, a, d) && s'.spans[d] == s.spans[d];
  }

  /** In every state of every run every retained span is free, so it lies in the bucket of retained spans of
      its class. */
  lemma {:induction false} RunRetains(states: seq<Cache>, steps: seq<Step>, a: Arena, lookup: seq<nat>, i: nat)
    requires Configured(a, lookup) && IsRun(states, steps, a, lookup) && NoLeaks(states, steps, a, lookup)
    requires Safe(states, steps, a, lookup)
    requires CoreInv(states[0], a, {}) && RetainedFree(states[0], a) && i < |states|
    ensures CoreInv(states[i], a, {}) && RetainedFree(states[i], a)
    ensures forall d :: Mine(states[i], a, d) && states[i].spans[d].state == RETAINED ==>
      !states[i].spans[d].isAlloc && InBucket(states[i], states[i].spans[d].szclass, RETAINED, d)
  {
    hide WellConfigured, CoreInv, MayStep, Apply, LeakStep, RetainedFree, InBucket;
    RunCore(states, steps, a, lookup, i);
    if i > 0 {
      RunRetains(states, steps, a, lookup, i - 1);
      assert i - 1 < |steps|;
      StepRetains(states[i - 1], a, lookup, steps[i - 1]);
    }
    RetainedBinned(states[i], a);
  }

  lemma RetainedBinned(s: Cache, a: Arena)
    requires ValidArena(a) && CoreInv(s, a, {}) && RetainedFree(s, a)
    ensures forall d :: Mine(s, a, d) && s.spans[d].state == RETAINED ==>
      !s.spans[d].isAlloc && InBucket(s, s.spans[d].szclass, RETAINED, d)
  {
    hide WellConfigured, SpansInv, TrieInv, CountsInv, BitmapInv, InBucket;
    assert forall d :: Mine(s, a, d) && s.spans[d].state == RETAINED ==> FreeSpan(s, a, {}, d);
  }
}
