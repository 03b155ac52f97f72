/** What a put does, stated over the descriptors: which neighbours the span takes in, and what it is
    afterwards. */
module SpanReturns {
  import opened SizeClasses
  import opened Lists
  import opened SpanState
  import opened SpanInvariants
  import opened SpanSteps
  import opened SpanOps
  import opened SpanGet
  import opened SpanMerge
  import opened SpanPut
  import opened SpanAnswers

  // ----- the neighbours -----

  /** One ends where the other begins, and their mappings are the same or may be mixed. */
  predicate Merges(a: Arena, x: Span, y: Span) {
    x.addr + x.nbytes == y.addr && (a.crossMerge || x.age == y.age)
  }

  /** The free span to be merged on the left, if there is one. */
  ghost predicate IsLeft(s: Cache, a: Arena, d: Desc, l: Option<Desc>)
    requires d in s.spans
  {
    if l.Some? then FreeSpan(s, a, {}, l.value) && Merges(a, s.spans[l.value], s.spans[d])
    else forall e :: FreeSpan(s, a, {}, e) ==> !Merges(a, s.spans[e], s.spans[d])
  }

  ghost predicate IsRight(s: Cache, a: Arena, d: Desc, r: Option<Desc>)
    requires d in s.spans
  {
    if r.Some? then FreeSpan(s, a, {}, r.value) && Merges(a, s.spans[d], s.spans[r.value])
    else forall e :: FreeSpan(s, a, {}, e) ==> !Merges(a, s.spans[d], s.spans[e])
  }

  /** A free neighbour is found and passes the test, whatever the ages, if mappings may be mixed. */
  lemma LeftMerges(s: Cache, a: Arena, d: Desc, e: Desc)
    requires ValidArena(a) && SpansInv(s, a) && TrieInv(s, a) && Mine(s, a, d) && Mine(s, a, e)
    requires s.spans[d].addr > 0 && !s.spans[d].isAlloc && !s.spans[e].isAlloc && Merges(a, s.spans[e], s.spans[d])
    ensures LeftOf(s, d) == Some(e) && CanMerge(s, a, LeftOf(s, d), Some(d))
  {
    hide WellConfigured, ClassOf, TrieInv, InSpan;
    assert GoodSpan(a, s.spans[d]) && GoodSpan(a, s.spans[e]);
    var p, q := EndPages(a, s.spans[e]);
    LookupFinds(s, a, e, q, s.spans[d].addr - 1);
    hide SpansInv;
  }

  lemma RightMerges(s: Cache, a: Arena, d: Desc, e: Desc)
    requires ValidArena(a) && SpansInv(s, a) && TrieInv(s, a) && Mine(s, a, d) && Mine(s, a, e)
    requires !s.spans[d].isAlloc && !s.spans[e].isAlloc && Merges(a, s.spans[d], s.spans[e])
    ensures RightOf(s, d) == Some(e) && CanMerge(s, a, Some(d), RightOf(s, d))
  {
    hide WellConfigured, ClassOf, TrieInv, InSpan;
    assert GoodSpan(a, s.spans[d]) && GoodSpan(a, s.spans[e]);
    var p, q := EndPages(a, s.spans[e]);
    LookupFinds(s, a, e, p, s.spans[e].addr);
    hide SpansInv;
  }

  /** The plan has the free neighbours, of the span as it is with its flags cleared. */
  lemma PlanIs(s: Cache, a: Arena, d: Desc, l: Option<Desc>, r: Option<Desc>)
    requires ValidArena(a) && PutCall(s, a, d) && IsLeft(s, a, d, l) && IsRight(s, a, d, r)
    ensures var s0 := Release(s, d); d in s0.spans && s0.spans[d].addr > 0 && MakePlan(s0, a, d) == Plan(l, r)
  {
    hide WellConfigured, SpansInv, TrieInv, BinsInv, LeftOf, RightOf, CanMerge, Release, Merges;
    ReleaseKeeps(s, a, d);
    ReleaseIs(s, d);
    var s0 := Release(s, d);
    PlanIsOk(s0, a, d);
    SameAround(s, s0, a, d);
    var p := MakePlan(s0, a, d);
    if l.Some? {
      LeftMerges(s0, a, d, l.value);
    } else if p.left.Some? {
      MergedMerge(s0, a, p.left.value, d);
    }
    if r.Some? {
      RightMerges(s0, a, d, r.value);
    } else if p.right.Some? {
      MergedMerge(s0, a, d, p.right.value);
    }
  }

  lemma MergedMerge(s: Cache, a: Arena, l: Desc, r: Desc)
    requires CanMerge(s, a, Some(l), Some(r))
    ensures l in s.spans && r in s.spans && Merges(a, s.spans[l], s.spans[r])
  {
  }

  lemma SameAround(s: Cache, s0: Cache, a: Arena, d: Desc)
    requires OnlyFlagsOf(s, s0, d) && Mine(s, a, d) && s.spans[d].isAlloc
    ensures forall e :: FreeSpan(s0, a, {d}, e) <==> FreeSpan(s, a, {}, e)
    ensures forall e :: FreeSpan(s, a, {}, e) ==> e != d && Mine(s0, a, e) && s0.spans[e] == s.spans[e]
    ensures forall x :: Merges(a, x, s0.spans[d]) <==> Merges(a, x, s.spans[d])
    ensures forall x :: Merges(a, s0.spans[d], x) <==> Merges(a, s.spans[d], x)
  {
  }

  // ----- the descriptors afterwards -----

  /** The record of two spans joined, if records are kept. */
  function RecordOf(a: Arena, x: Option<nat>, y: Option<nat>): Option<nat> {
    if !a.unmapOnTermination || y.None? then x
    else if x.Some? then Some(x.value + y.value)
    else y
  }

  /** Two neighbours as one span: the older age, both sizes, the class of the sum. */
  function Together(a: Arena, x: Span, y: Span): Span
    requires a.cfg.Positive()
  {
    x.(age := if y.age < x.age then y.age else x.age, nbytes := x.nbytes + y.nbytes,
       szclass := ClassOf(a, x.nbytes + y.nbytes), record := RecordOf(a, x.record, y.record))
  }

  /** The span itself after it is given back, before it meets its neighbours. */
  function Cleared(sp: Span): Span {
    sp.(isAlloc := false, isSlab := false)
  }

  /** What the span and the neighbours it meets become. */
  function Whole(a: Arena, spans: map<Desc, Span>, d: Desc, l: Option<Desc>, r: Option<Desc>): Span
    requires a.cfg.Positive() && d in spans && (l.Some? ==> l.value in spans) && (r.Some? ==> r.value in spans)
  {
    var with := if l.Some? then Together(a, spans[l.value], Cleared(spans[d])) else Cleared(spans[d]);
    Idle(if r.Some? then Together(a, with, spans[r.value]) else with)
  }

  /** The descriptors after the put: the leftmost stays, the others are gone. */
  function Freed(a: Arena, spans: map<Desc, Span>, d: Desc, l: Option<Desc>, r: Option<Desc>): map<Desc, Span>
    requires a.cfg.Positive() && d in spans && (l.Some? ==> l.value in spans) && (r.Some? ==> r.value in spans)
  {
    var gone := (if l.Some? then {d} else {}) + if r.Some? then {r.value} else {};
    (spans - gone)[(if l.Some? then l.value else d) := Whole(a, spans, d, l, r)]
  }

  // ----- step by step -----

  /** A neighbour taken out of its bin is idle. */
  lemma RemoveSpans(s: Cache, a: Arena, x: Desc, hand: set<Desc>)
    requires ValidArena(a) && CoreInv(s, a, hand) && FreeSpan(s, a, hand, x)
    ensures Shape(s, |s.bins|) && 0 <= s.spans[x].szclass < |s.bins|
    ensures s.spans[x].state < SPAN_NSTATES && s.bins[s.spans[x].szclass].nspans > 0
    ensures BinRemove(s, x).spans == s.spans[x := Idle(s.spans[x])] && OnlyBinned(s, BinRemove(s, x))
  {
    RemoveReady(s, a, x, hand);
    NotClean(s, a, x, hand);
    hide WellConfigured, SpansInv, TrieInv, BinsInv, InBucket;
    UnbinSpans(s, s.spans[x].szclass, s.spans[x].state, x, s.bins[s.spans[x].szclass].epochMin);
    assert s.spans[x].state == DIRTY ==> s.spans[x := Idle(s.spans[x])] == s.spans;
    UnbinOnly(s, s.spans[x].szclass, s.spans[x].state, x, s.bins[s.spans[x].szclass].epochMin);
  }

  lemma UnbinOnly(s: Cache, c: nat, k: nat, d: Desc, epochMin: nat)
    requires d in s.spans && Shape(s, |s.bins|) && c < |s.bins| && k < SPAN_NSTATES && s.bins[c].nspans > 0
    ensures OnlyBinned(s, Unbin(s, c, k, d, epochMin))
  {
  }

  lemma NotClean(s: Cache, a: Arena, x: Desc, hand: set<Desc>)
    requires BinsInv(s, a, hand) && FreeSpan(s, a, hand, x)
    ensures s.spans[x].state in {DIRTY, RETAINED}
  {
    assert InBucket(s, s.spans[x].szclass, s.spans[x].state, x);
  }

  function IdleAt(spans: map<Desc, Span>, x: Option<Desc>): map<Desc, Span>
    requires x.Some? ==> x.value in spans
  {
    if x.Some? then spans[x.value := Idle(spans[x.value])] else spans
  }

  lemma TakeOutSpans(s: Cache, a: Arena, hand: set<Desc>, x: Option<Desc>)
    requires ValidArena(a) && CanTakeOut(s, a, hand, x)
    ensures x.Some? ==> x.value in s.spans
    ensures TakeOut(s, a, hand, x).spans == IdleAt(s.spans, x) && OnlyBinned(s, TakeOut(s, a, hand, x))
  {
    hide WellConfigured, CoreInv, BinRemove;
    if x.Some? {
      RemoveSpans(s, a, x.value, hand);
    }
  }

  lemma RemovedSpans(s: Cache, a: Arena, d: Desc, p: Plan)
    requires ValidArena(a) && PlanOk(s, a, d, p)
    ensures (p.left.Some? ==> p.left.value in s.spans) && (p.right.Some? ==> p.right.value in IdleAt(s.spans, p.left))
    ensures Removed(s, a, d, p).spans == IdleAt(IdleAt(s.spans, p.left), p.right) && OnlyBinned(s, Removed(s, a, d, p))
  {
    hide WellConfigured, CoreInv, TakeOut, Joinable;
    RightStill(s, a, d, p);
    TakeOutSpans(s, a, {d}, p.left);
    TakeOutSpans(TakeOut(s, a, {d}, p.left), a, Add({d}, p.left), p.right);
  }

  /** The state of two spans joined is the higher one. */
  lemma CoalesceSpans(s: Cache, a: Arena, l: Desc, r: Desc)
    requires a.cfg.Positive() && l in s.spans && r in s.spans && l != r
    ensures var (x, y) := (s.spans[l], s.spans[r]); var s' := Coalesce(s, a, l, r);
      && s'.spans == (s.spans - {r})[l := Together(a, x, y).(state := if x.state < y.state then y.state else x.state)]
      && s' == s.(spans := s'.spans, origins := s'.origins)
  {
    hide ClassOf, Without;
  }

  /** Up to its state, which is dirty as soon as it has met a neighbour. */
  lemma CoalescedSpans(s: Cache, a: Arena, d: Desc, p: Plan)
    requires a.cfg.Positive() && Sides(s, d, p) && s.spans[d].state != RETAINED && s.spans[d].state < SPAN_NSTATES
    requires (p.left.Some? ==> s.spans[p.left.value].state == DIRTY) && (p.right.Some? ==> s.spans[p.right.value].state == DIRTY)
    requires s.spans[d] == Cleared(s.spans[d])
    ensures var (s', m) := (Coalesced(s, a, d, p), Leftmost(d, p));
      && m in s'.spans && s'.spans[m].state != RETAINED
      && s'.spans[m := Idle(s'.spans[m])] == Freed(a, s.spans, d, p.left, p.right)
      && s' == s.(spans := s'.spans, origins := s'.origins)
  {
    hide ClassOf, Without, Coalesce, RecordOf;
    var s1 := s;
    if p.left.Some? {
      CoalesceSpans(s, a, p.left.value, d);
      s1 := Coalesce(s, a, p.left.value, d);
    }
    if p.right.Some? {
      CoalesceSpans(s1, a, Leftmost(d, p), p.right.value);
    }
    assert Coalesced(s, a, d, p).spans[Leftmost(d, p) := Idle(Coalesced(s, a, d, p).spans[Leftmost(d, p)])] == Freed(a, s.spans, d, p.left, p.right);
  }

  /** The states of the neighbours make no difference. */
  lemma FreedIdle(a: Arena, spans: map<Desc, Span>, spans': map<Desc, Span>, d: Desc, l: Option<Desc>, r: Option<Desc>)
    requires a.cfg.Positive() && d in spans && (l.Some? ==> l.value in spans) && (r.Some? ==> r.value in spans)
    requires l != Some(d) && r != Some(d) && (l.Some? && r.Some? ==> l != r)
    requires spans' == IdleAt(IdleAt(spans[d := Cleared(spans[d])], l), r)
    ensures Freed(a, spans', d, l, r) == Freed(a, spans, d, l, r)
  {
    hide ClassOf, RecordOf;
    var m := if l.Some? then l.value else d;
    assert Whole(a, spans', d, l, r) == Whole(a, spans, d, l, r);
    assert Freed(a, spans', d, l, r) == Freed(a, spans, d, l, r);
  }

  lemma ReleaseSpans(s: Cache, d: Desc)
    requires d in s.spans
    ensures Release(s, d).spans == s.spans[d := Cleared(s.spans[d])] && Release(s, d) == s.(spans := Release(s, d).spans)
  {
  }

  lemma MergeSpans(s: Cache, a: Arena, d: Desc, e: Env, p: Plan)
    requires ValidArena(a) && CoreInv(s, a, {d})
    requires Mine(s, a, d) && s.spans[d].addr > 0 && p == MakePlan(s, a, d) && PlanOk(s, a, d, p)
    requires s.spans[d].state != RETAINED && s.spans[d] == Cleared(s.spans[d])
    ensures (p.left.Some? ==> p.left.value in s.spans && p.left.value != d) && (p.right.Some? ==> p.right.value in s.spans && p.right.value != d)
    ensures p.left.Some? && p.right.Some? ==> p.left != p.right
    ensures var (m, s') := MergeAdj(s, a, d, e);
      && m == Leftmost(d, p) && m in s'.spans && s'.spans[m].state != RETAINED
      && s'.spans[m := Idle(s'.spans[m])] == Freed(a, IdleAt(IdleAt(s.spans, p.left), p.right), d, p.left, p.right)
      && s' == s.(spans := s'.spans, bins := s'.bins, bitmap := s'.bitmap, origins := s'.origins, trie := s'.trie, paths := s'.paths)
  {
    hide WellConfigured, SpansInv, TrieInv, BinsInv, Removed, Coalesced, PagesOf, CanTakeOut, Freed, MakePlan, TrieInsert, PlanOk, Joinable;
    StateIn(s, a, d);
    PlanSides(s, a, d, p);
    RemovedSpans(s, a, d, p);
    SidesHere(s, a, d, p);
    var s1 := Removed(s, a, d, p);
    IdleSides(s.spans, s1.spans, d, p.left, p.right);
    CoalescedSpans(s1, a, d, p);
    InsertOnly(Coalesced(s1, a, d, p), Leftmost(d, p), e.nodes, e.stop);
  }

  lemma SidesHere(s: Cache, a: Arena, d: Desc, p: Plan)
    requires ValidArena(a) && PlanOk(s, a, d, p)
    ensures (p.left.Some? ==> p.left.value in s.spans && p.left.value != d) && (p.right.Some? ==> p.right.value in s.spans && p.right.value != d)
    ensures p.left.Some? && p.right.Some? ==> p.left != p.right
  {
    hide WellConfigured, CoreInv;
    if p.left.Some? && p.right.Some? {
      SidesDiffer(s, a, d, p);
    }
  }

  lemma IdleSides(spans: map<Desc, Span>, spans': map<Desc, Span>, d: Desc, l: Option<Desc>, r: Option<Desc>)
    requires d in spans && (l.Some? ==> l.value in spans && l.value != d) && (r.Some? ==> r.value in spans && r.value != d)
    requires (l.Some? && r.Some? ==> l != r) && spans' == IdleAt(IdleAt(spans, l), r)
    ensures spans'.Keys == spans.Keys && spans'[d] == spans[d]
    ensures (l.Some? ==> spans'[l.value].state == DIRTY) && (r.Some? ==> spans'[r.value].state == DIRTY)
  {
  }

  lemma InsertOnly(s: Cache, d: Desc, canAlloc: bool, stop: nat)
    requires d in s.spans
    ensures var s' := TrieInsert(s, d, canAlloc, stop).1; s' == s.(trie := s'.trie, paths := s'.paths)
  {
    hide PagesOf;
  }

  lemma StateIn(s: Cache, a: Arena, d: Desc)
    requires ValidArena(a) && SpansInv(s, a) && Mine(s, a, d)
    ensures s.spans[d].state < SPAN_NSTATES
  {
    hide WellConfigured;
    assert GoodSpan(a, s.spans[d]);
  }

  /** A put merges exactly with the free neighbours, and changes no other descriptor. What comes of it is
      dirty, carries no flag, and no memory is mapped. */
  lemma PutIs(s: Cache, a: Arena, d: Desc, l: Option<Desc>, r: Option<Desc>, e: Env)
    requires ValidArena(a) && PutCall(s, a, d) && s.spans[d].state != RETAINED
    requires IsLeft(s, a, d, l) && IsRight(s, a, d, r)
    ensures PutSpan(s, a, d, e).spans == Freed(a, s.spans, d, l, r)
    ensures var s' := PutSpan(s, a, d, e); s'.mapped == s.mapped && s'.regions == s.regions && s'.epoch == s.epoch
  {
    hide WellConfigured, CoreInv, MergeAdj, Release, BinPut, Freed, PlanOk, MakePlan, FreeSpan, Merges;
    ReleaseKeeps(s, a, d);
    ReleaseSpans(s, d);
    ReleaseIs(s, d);
    var s0 := Release(s, d);
    PlanIs(s, a, d, l, r);
    PlanIsOk(s0, a, d);
    MergeSpans(s0, a, d, e, Plan(l, r));
    MergeAdjCore(s0, a, d, e);
    var (m, s1) := MergeAdj(s0, a, d, e);
    HandReady(s1, a, {m}, m);
    BinPutSpans(s1, m);
    FreedIdle(a, s.spans, IdleAt(IdleAt(s0.spans, l), r), d, l, r);
  }

  // ----- what follows from it -----

  /** There is just one way to say which neighbours are merged. */
  lemma NeighboursExist(s: Cache, a: Arena, d: Desc) returns (l: Option<Desc>, r: Option<Desc>)
    requires d in s.spans
    ensures IsLeft(s, a, d, l) && IsRight(s, a, d, r)
  {
    l, r := None, None;
    if x :| FreeSpan(s, a, {}, x) && Merges(a, s.spans[x], s.spans[d]) {
      l := Some(x);
    }
    if y :| FreeSpan(s, a, {}, y) && Merges(a, s.spans[d], s.spans[y]) {
      r := Some(y);
    }
  }

  /** Two different neighbours, and the span between them. */
  lemma SidesApart(s: Cache, a: Arena, d: Desc, l: Option<Desc>, r: Option<Desc>)
    requires ValidArena(a) && PutCall(s, a, d) && IsLeft(s, a, d, l) && IsRight(s, a, d, r)
    ensures (l.Some? ==> l.value in s.spans) && (r.Some? ==> r.value in s.spans)
    ensures l != Some(d) && r != Some(d) && (l.Some? && r.Some? ==> l != r) && !FreeSpan(s, a, {}, d)
  {
    hide WellConfigured, ClassOf, TrieInv, BinsInv;
    assert GoodSpan(a, s.spans[d]);
  }

  /** The free spans of `s'` are those of `s` without the neighbours merged, and the whole, which is `m`. */
  ghost predicate OneWhole(s: Cache, s': Cache, a: Arena, m: Desc, l: Option<Desc>, r: Option<Desc>, w: Span) {
    && m in s'.spans && s'.spans[m] == w
    && (forall x :: FreeSpan(s', a, {}, x) <==> x == m || (FreeSpan(s, a, {}, x) && l != Some(x) && r != Some(x)))
    && (forall x :: FreeSpan(s', a, {}, x) && x != m ==> x in s.spans && s'.spans[x] == s.spans[x])
  }

  lemma FreedLeaves(s: Cache, s': Cache, a: Arena, d: Desc, l: Option<Desc>, r: Option<Desc>)
    requires a.cfg.Positive() && Mine(s, a, d) && s.spans[d].isAlloc
    requires (l.Some? ==> FreeSpan(s, a, {}, l.value)) && (r.Some? ==> FreeSpan(s, a, {}, r.value)) && (l.Some? && r.Some? ==> l != r)
    requires s'.spans == Freed(a, s.spans, d, l, r)
    ensures OneWhole(s, s', a, if l.Some? then l.value else d, l, r, Whole(a, s.spans, d, l, r))
  {
    hide ClassOf, RecordOf;
  }

  /** After the put the free spans are those of before without the neighbours merged, and the whole. */
  lemma FreeAfter(s: Cache, a: Arena, d: Desc, l: Option<Desc>, r: Option<Desc>, e: Env)
    requires ValidArena(a) && PutCall(s, a, d) && s.spans[d].state != RETAINED
    requires IsLeft(s, a, d, l) && IsRight(s, a, d, r)
    ensures (l.Some? ==> l.value in s.spans) && (r.Some? ==> r.value in s.spans)
    ensures OneWhole(s, PutSpan(s, a, d, e), a, if l.Some? then l.value else d, l, r, Whole(a, s.spans, d, l, r))
  {
    hide WellConfigured, CoreInv, PutSpan, ClassOf, Merges, RecordOf, Freed, Whole, OneWhole;
    SidesApart(s, a, d, l, r);
    PutIs(s, a, d, l, r, e);
    FreedLeaves(s, PutSpan(s, a, d, e), a, d, l, r);
  }

  /** The whole reaches from the start of the left neighbour merged to the end of the right one. */
  lemma WholeReaches(a: Arena, spans: map<Desc, Span>, d: Desc, l: Option<Desc>, r: Option<Desc>)
    requires a.cfg.Positive() && d in spans && (l.Some? ==> l.value in spans) && (r.Some? ==> r.value in spans)
    requires (l.Some? ==> Merges(a, spans[l.value], spans[d])) && (r.Some? ==> Merges(a, spans[d], spans[r.value]))
    ensures var (w, x) := (Whole(a, spans, d, l, r), spans[d]);
      && w.addr == (if l.Some? then spans[l.value].addr else x.addr)
      && w.addr + w.nbytes == (if r.Some? then spans[r.value].addr + spans[r.value].nbytes else x.addr + x.nbytes)
  {
    hide ClassOf, RecordOf;
  }

  /** Wherever the freed span lay, the trie now names a free span that is dirty, in the bucket of dirty
      spans of its class, and holds all of it. */
  lemma PutDirty(s: Cache, a: Arena, d: Desc, e: Env, p: nat)
    requires ValidArena(a) && PutCall(s, a, d) && s.spans[d].state != RETAINED && InSpan(s.spans[d], p)
    ensures var s' := PutSpan(s, a, d, e);
      && p in s'.trie && FreeSpan(s', a, {}, s'.trie[p]) && s'.spans[s'.trie[p]].state == DIRTY
      && InBucket(s', s'.spans[s'.trie[p]].szclass, DIRTY, s'.trie[p])
      && s'.spans[s'.trie[p]].addr <= s.spans[d].addr
      && s.spans[d].addr + s.spans[d].nbytes <= s'.spans[s'.trie[p]].addr + s'.spans[s'.trie[p]].nbytes
  {
    hide WellConfigured, CoreInv, PutSpan, ClassOf, RecordOf, OneWhole, Whole, InSpan, InBucket;
    var l, r := NeighboursExist(s, a, d);
    SidesApart(s, a, d, l, r);
    PutSpanCore(s, a, d, e);
    FreeAfter(s, a, d, l, r, e);
    WholeReaches(a, s.spans, d, l, r);
    WholeHasBytes(a, s.spans, d, l, r);
    FarSides(s, a, d, l, r);
    DirtyThere(s, PutSpan(s, a, d, e), a, if l.Some? then l.value else d, l, r, Whole(a, s.spans, d, l, r), s.spans[d], p);
  }

  lemma DirtyThere(s: Cache, s': Cache, a: Arena, m: Desc, l: Option<Desc>, r: Option<Desc>, w: Span, x: Span, p: nat)
    requires ValidArena(a) && CoreInv(s', a, {}) && OneWhole(s, s', a, m, l, r, w) && w.state == DIRTY && InSpan(x, p)
    requires w.addr <= x.addr && x.addr + x.nbytes <= w.addr + w.nbytes
    ensures p in s'.trie && s'.trie[p] == m && s'.spans[m] == w && FreeSpan(s', a, {}, m) && InBucket(s', w.szclass, DIRTY, m)
  {
    hide WellConfigured, SpansInv, TrieInv, CountsInv, BitmapInv, InBucket;
    assert FreeSpan(s', a, {}, m) && InSpan(s'.spans[m], p);
    PagesNamed(s', a, m);
  }

  /** Some free span ends at this address. */
  ghost predicate FreeEndsAt(s: Cache, a: Arena, addr: nat) {
    exists x :: FreeSpan(s, a, {}, x) && s.spans[x].addr + s.spans[x].nbytes == addr
  }

  ghost predicate FreeStartsAt(s: Cache, a: Arena, addr: nat) {
    exists x :: FreeSpan(s, a, {}, x) && s.spans[x].addr == addr
  }

  /** Where mappings are merged a put takes in the free neighbour on each side, whatever its age. What it
      leaves has a free neighbour exactly where that one had a free neighbour on its far side. */
  lemma CrossPutMeetsIff(s: Cache, a: Arena, d: Desc, l: Option<Desc>, r: Option<Desc>, e: Env)
    requires ValidArena(a) && a.crossMerge && PutCall(s, a, d) && s.spans[d].state != RETAINED
    requires IsLeft(s, a, d, l) && IsRight(s, a, d, r)
    ensures (l.Some? <==> FreeEndsAt(s, a, s.spans[d].addr)) && (r.Some? <==> FreeStartsAt(s, a, s.spans[d].addr + s.spans[d].nbytes))
    ensures (l.Some? ==> l.value in s.spans) && (r.Some? ==> r.value in s.spans)
    ensures var s' := PutSpan(s, a, d, e); var w := Whole(a, s.spans, d, l, r);
      && (FreeEndsAt(s', a, w.addr) <==> l.Some? && FreeEndsAt(s, a, s.spans[l.value].addr))
      && (FreeStartsAt(s', a, w.addr + w.nbytes) <==> r.Some? && FreeStartsAt(s, a, s.spans[r.value].addr + s.spans[r.value].nbytes))
  {
    hide WellConfigured, CoreInv, PutSpan, ClassOf, RecordOf, Whole, OneWhole, FreeSpan;
    SidesApart(s, a, d, l, r);
    FreeAfter(s, a, d, l, r, e);
    WholeReaches(a, s.spans, d, l, r);
    FarSides(s, a, d, l, r);
    var w := Whole(a, s.spans, d, l, r);
    WholeHasBytes(a, s.spans, d, l, r);
    LeftEnds(s, PutSpan(s, a, d, e), a, if l.Some? then l.value else d, l, r, w, s.spans[d]);
    RightStarts(s, PutSpan(s, a, d, e), a, if l.Some? then l.value else d, l, r, w, s.spans[d]);
  }

  lemma WholeHasBytes(a: Arena, spans: map<Desc, Span>, d: Desc, l: Option<Desc>, r: Option<Desc>)
    requires a.cfg.Positive() && d in spans && (l.Some? ==> l.value in spans) && (r.Some? ==> r.value in spans)
    ensures Whole(a, spans, d, l, r).nbytes >= spans[d].nbytes && Whole(a, spans, d, l, r).state == DIRTY
  {
    hide ClassOf, RecordOf;
  }

  lemma LeftEnds(s: Cache, s': Cache, a: Arena, m: Desc, l: Option<Desc>, r: Option<Desc>, w: Span, x: Span)
    requires if l.Some? then m == l.value else !FreeSpan(s, a, {}, m)
    requires OneWhole(s, s', a, m, l, r, w) && w.nbytes > 0 && (l.Some? ==> FreeSpan(s, a, {}, l.value) && s.spans[l.value].nbytes > 0)
    requires r.Some? ==> FreeSpan(s, a, {}, r.value) && s.spans[r.value].addr >= w.addr && s.spans[r.value].nbytes > 0
    requires if l.Some? then w.addr == s.spans[l.value].addr else w.addr == x.addr && forall e :: FreeSpan(s, a, {}, e) ==> s.spans[e].addr + s.spans[e].nbytes != x.addr
    ensures FreeEndsAt(s', a, w.addr) <==> l.Some? && FreeEndsAt(s, a, w.addr)
  {
    if FreeEndsAt(s', a, w.addr) {
      var e :| FreeSpan(s', a, {}, e) && s'.spans[e].addr + s'.spans[e].nbytes == w.addr;
      assert FreeSpan(s, a, {}, e) && s.spans[e] == s'.spans[e];
    }
    if l.Some? && FreeEndsAt(s, a, w.addr) {
      var e :| FreeSpan(s, a, {}, e) && s.spans[e].addr + s.spans[e].nbytes == w.addr;
      assert FreeSpan(s', a, {}, e) && s'.spans[e] == s.spans[e];
    }
  }

  lemma RightStarts(s: Cache, s': Cache, a: Arena, m: Desc, l: Option<Desc>, r: Option<Desc>, w: Span, x: Span)
    requires if l.Some? then m == l.value else !FreeSpan(s, a, {}, m)
    requires OneWhole(s, s', a, m, l, r, w) && w.nbytes > 0 && (r.Some? ==> FreeSpan(s, a, {}, r.value) && s.spans[r.value].nbytes > 0)
    requires l.Some? ==> FreeSpan(s, a, {}, l.value) && s.spans[l.value].addr < w.addr + w.nbytes
    requires if r.Some? then w.addr + w.nbytes == s.spans[r.value].addr + s.spans[r.value].nbytes
             else w.addr + w.nbytes == x.addr + x.nbytes && forall e :: FreeSpan(s, a, {}, e) ==> s.spans[e].addr != x.addr + x.nbytes
    ensures FreeStartsAt(s', a, w.addr + w.nbytes) <==> r.Some? && FreeStartsAt(s, a, w.addr + w.nbytes)
  {
    var end := w.addr + w.nbytes;
    if FreeStartsAt(s', a, end) {
      var e :| FreeSpan(s', a, {}, e) && s'.spans[e].addr == end;
      assert FreeSpan(s, a, {}, e) && s.spans[e] == s'.spans[e];
    }
    if r.Some? && FreeStartsAt(s, a, end) {
      var e :| FreeSpan(s, a, {}, e) && s.spans[e].addr == end;
      assert FreeSpan(s', a, {}, e) && s'.spans[e] == s.spans[e];
    }
  }

  /** Neither neighbour lies on the far side of the other, or of itself. */
  lemma FarSides(s: Cache, a: Arena, d: Desc, l: Option<Desc>, r: Option<Desc>)
    requires ValidArena(a) && PutCall(s, a, d) && IsLeft(s, a, d, l) && IsRight(s, a, d, r)
    ensures (l.Some? ==> l.value in s.spans && s.spans[l.value].nbytes > 0) && (r.Some? ==> r.value in s.spans && s.spans[r.value].nbytes > 0)
    ensures s.spans[d].nbytes > 0
  {
    hide WellConfigured, ClassOf, TrieInv, BinsInv;
    assert GoodSpan(a, s.spans[d]) && (l.Some? ==> GoodSpan(a, s.spans[l.value])) && (r.Some? ==> GoodSpan(a, s.spans[r.value]));
  }
}
