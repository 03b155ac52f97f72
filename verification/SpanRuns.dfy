/** Runs of the span cache: any sequence of gets, aligned gets, puts and decays of one arena, with
    the operations of the other arenas in between. */
module SpanRuns {
  import opened SizeClasses
  import opened SpanState
  import opened SpanInvariants
  import opened SpanSteps
  import opened SpanOps
  import opened SpanGet
  import opened SpanMerge
  import opened SpanPut
  import opened SpanAligned
  import opened SpanDecay
  import opened SpanRecords
  import opened SpanFrames

  // ----- other arenas -----

  /** What an operation of another arena looks like from arena `a`: descriptors and trie pages
      that are not `a`'s may change. */
  ghost predicate Foreign(s: Cache, s': Cache, a: Arena) {
    && s' == s.(spans := s'.spans, trie := s'.trie, paths := s'.paths)
    && (forall d :: Mine(s, a, d) ==> d in s'.spans && s'.spans[d] == s.spans[d])
    && (forall d :: Mine(s', a, d) ==> Mine(s, a, d))
    && (forall p :: p in s.mapped ==> p in s'.trie && p in s.trie && s'.trie[p] == s.trie[p])
    && (forall p :: p in s'.trie ==> p < TRIE_SLOTS && s'.trie[p] in s'.spans && (p !in s.mapped ==> !Mine(s', a, s'.trie[p])))
    && s.paths <= s'.paths
  }

  /** The same shared state seen by two arenas. */
  ghost predicate Shares(s: Cache, t: Cache) {
    s.spans == t.spans && s.trie == t.trie && s.paths == t.paths
  }

  lemma OthersPages(s: Cache, a: Arena, p: nat)
    requires TrieInv(s, a)
    ensures p in s.mapped <==> p in s.trie && Mine(s, a, s.trie[p])
  {
  }

  /** An operation framed for arena `b` is a foreign one for every other arena. */
  lemma FramedIsForeign(s: Cache, t: Cache, t': Cache, a: Arena, b: Arena, x: set<Desc>)
    requires a.uid != b.uid && ValidArena(a) && ValidArena(b)
    requires Shares(s, t) && TrieInv(s, a) && TrieInv(t, b) && TrieInv(t', b) && Framed(t, t', b, x)
    requires forall d :: d in x && d in t.spans ==> t.spans[d].arena == b.uid
    ensures Foreign(s, s.(spans := t'.spans, trie := t'.trie, paths := t'.paths), a)
  {
    var s' := s.(spans := t'.spans, trie := t'.trie, paths := t'.paths);
    hide WellConfigured, InSpan;
    forall d | Mine(s, a, d) ensures d in s'.spans && s'.spans[d] == s.spans[d] {
      assert Untouchable(t, b, d) && d !in x;
    }
    forall d | Mine(s', a, d) ensures Mine(s, a, d) {
      assert Untouchable(t, b, d) && d !in x;
    }
    forall p | p in s.mapped ensures p in s'.trie && p in s.trie && s'.trie[p] == s.trie[p] {
      OthersPages(s, a, p);
      OthersPages(t, b, p);
      assert p !in t'.mapped;
    }
    forall p | p in s'.trie && p !in s.mapped ensures !Mine(s', a, s'.trie[p]) {
      OthersPages(s, a, p);
      OthersPages(t', b, p);
      assert Mine(s', a, s'.trie[p]) ==> p !in t'.mapped;
    }
  }

  lemma ForeignPlaces(s: Cache, s': Cache, a: Arena)
    requires ValidArena(a) && Foreign(s, s', a) && SpansInv(s, a) && TrieInv(s, a)
    ensures SpansInv(s', a) && TrieInv(s', a)
    ensures ApartInv(s, a) ==> ApartInv(s', a)
  {
    hide WellConfigured, InSpan, GoodSpan, InRegion, Placed, BlendInv;
    assert forall d :: Mine(s', a, d) <==> Mine(s, a, d);
    if a.crossMerge {
      ForeignAges(s, s', a);
      BlendSame(s, s');
    }
  }

  lemma ForeignAges(s: Cache, s': Cache, a: Arena)
    requires Foreign(s, s', a) && TrieInv(s, a)
    ensures Ages(s') == Ages(s)
  {
    hide InSpan;
    assert forall p: nat :: p in s.mapped ==> p in s.trie && Mine(s, a, s.trie[p]);
    assert forall p: nat :: p in s'.mapped ==> p in s'.trie && s'.trie[p] == s.trie[p];
  }

  lemma ForeignFree(s: Cache, s': Cache, a: Arena)
    requires Foreign(s, s', a)
    requires BinsInv(s, a, {})
    ensures SameFree(s, s', a, {}, {})
  {
    assert forall d :: Mine(s', a, d) <==> Mine(s, a, d);
  }

  lemma ForeignOrigins(s: Cache, s': Cache, a: Arena)
    requires Foreign(s, s', a) && OriginsInv(s, a)
    ensures OriginsInv(s', a)
  {
    assert forall d :: Mine(s', a, d) <==> Mine(s, a, d);
  }

  lemma ForeignKeeps(s: Cache, s': Cache, a: Arena)
    requires ValidArena(a) && Foreign(s, s', a) && CoreInv(s, a, {})
    ensures CoreInv(s', a, {})
    ensures NeatInv(s, a, {}) ==> NeatInv(s', a, {})
    ensures OriginsInv(s, a) ==> OriginsInv(s', a)
  {
    hide WellConfigured, BinsInv, OriginsInv, CoalescedInv, SpansInv, TrieInv, ApartInv;
    ForeignPlaces(s, s', a);
    ForeignFree(s, s', a);
    hide Foreign, SameFree;
    SameFreeKeeps(s, s', a, {}, {});
    if OriginsInv(s, a) {
      ForeignOrigins(s, s', a);
    }
  }

  /** A lookup in another arena's step, or in one's own: only what is one's own can be merged. */
  lemma ForeignLookup(s: Cache, s': Cache, a: Arena, addr: nat)
    requires TrieInv(s, a) && Foreign(s, s', a)
    ensures var (x, y) := (Lookup(s, addr), Lookup(s', addr));
      x == y || (!(x.Some? && Mine(s, a, x.value)) && !(y.Some? && Mine(s', a, y.value)))
  {
    OthersPages(s, a, addr / TRIE_PAGE % TRIE_SLOTS);
  }

  /** What scache_merge_adj decides to merge, looking left in state `s1` and right in state `s2`, it
      would have decided in state `s` as well, whatever other arenas did in between; and the spans it
      has decided on are as they were. */
  lemma ForeignPlan(s: Cache, s1: Cache, s2: Cache, a: Arena, d: Desc)
    requires ValidArena(a) && CoreInv(s, a, {d}) && Foreign(s, s1, a) && Foreign(s, s2, a)
    ensures Mine(s, a, d) && d in s1.spans && d in s2.spans && s.spans[d].addr > 0
    ensures s1.spans[d] == s2.spans[d] == s.spans[d]
    ensures MakePlan(s1, a, d).left == MakePlan(s, a, d).left && MakePlan(s2, a, d).right == MakePlan(s, a, d).right
    ensures var p := MakePlan(s, a, d);
      && (p.left.Some? ==> p.left.value in s.spans && p.left.value in s1.spans && s1.spans[p.left.value] == s.spans[p.left.value])
      && (p.right.Some? ==> p.right.value in s.spans && p.right.value in s2.spans && s2.spans[p.right.value] == s.spans[p.right.value])
  {
    hide WellConfigured, SpansInv, BinsInv, TrieInv, Foreign, Lookup;
    PlanIsOk(s, a, d);
    ForeignLookup(s, s1, a, s.spans[d].addr - 1);
    ForeignLookup(s, s2, a, s.spans[d].addr + s.spans[d].nbytes);
    ForeignOwn(s, s1, a);
    ForeignOwn(s, s2, a);
    ForeignMerge(s, s1, a, LeftOf(s, d), LeftOf(s1, d), d);
    ForeignMerge(s, s2, a, RightOf(s, d), RightOf(s2, d), d);
  }

  lemma ForeignMerge(s: Cache, s': Cache, a: Arena, x: Option<Desc>, y: Option<Desc>, d: Desc)
    requires Mine(s, a, d) && Foreign(s, s', a)
    requires x == y || (!(x.Some? && Mine(s, a, x.value)) && !(y.Some? && Mine(s', a, y.value)))
    ensures CanMerge(s', a, y, Some(d)) <==> CanMerge(s, a, x, Some(d))
    ensures CanMerge(s', a, Some(d), y) <==> CanMerge(s, a, Some(d), x)
    ensures CanMerge(s, a, x, Some(d)) || CanMerge(s, a, Some(d), x) ==> x == y
  {
    ForeignOwn(s, s', a);
    hide Foreign;
    assert x.Some? && x.value in s.spans && s.spans[x.value].arena == a.uid ==> Mine(s, a, x.value);
    assert y.Some? && y.value in s'.spans && s'.spans[y.value].arena == a.uid ==> Mine(s', a, y.value);
  }

  lemma ForeignOwn(s: Cache, s': Cache, a: Arena)
    requires Foreign(s, s', a)
    ensures forall e :: Mine(s', a, e) <==> Mine(s, a, e)
    ensures forall e :: Mine(s, a, e) ==> e in s'.spans && s'.spans[e] == s.spans[e]
  {
  }

  // ----- runs -----

  datatype Step =
    | Get(req: int, slab: bool, env: Env)
    | GetAlign(align: nat, szclass: nat, env: Env)
    | Put(span: Desc, env: Env)
    | DecayAll
    | Others(spans: map<Desc, Span>, trie: map<nat, Desc>, paths: set<nat>)

  /** What the environment and the callers promise: descriptors and mappings are fresh, alignments
      are in order, and only spans handed out are put back. */
  ghost predicate MayStep(s: Cache, a: Arena, lookup: seq<nat>, t: Step)
    requires Configured(a, lookup)
  {
    match t
    case Get(req, slab, e) => 0 <= req < |a.sizes| ==> EnvOk(s, a, req, e)
    case GetAlign(align, c, e) =>
      && AlignOk(a, align) && c < |a.sizes|
      && (0 <= ReqClass(a, lookup, align, c) < |a.sizes| ==> EnvOk(s, a, ReqClass(a, lookup, align, c), e))
    case Put(d, e) => Mine(s, a, d) && s.spans[d].isAlloc
    case DecayAll => true
    case Others(spans, trie, paths) => Foreign(s, s.(spans := spans, trie := trie, paths := paths), a)
  }

  ghost function Apply(s: Cache, a: Arena, lookup: seq<nat>, t: Step): Cache
    requires Configured(a, lookup) && CoreInv(s, a, {}) && MayStep(s, a, lookup, t)
  {
    match t
    case Get(req, slab, e) => GetSpan(s, a, req, slab, e).1
    case GetAlign(align, c, e) => GetAligned(s, a, lookup, align, c, e).1
    case Put(d, e) => PutSpan(s, a, d, e)
    case DecayAll => Decay(s, a)
    case Others(spans, trie, paths) => s.(spans := spans, trie := trie, paths := paths)
  }

  ghost predicate LeakStep(s: Cache, a: Arena, lookup: seq<nat>, t: Step)
    requires Configured(a, lookup) && CoreInv(s, a, {}) && MayStep(s, a, lookup, t)
  {
    t.GetAlign? && Leaks(s, a, lookup, t.align, t.szclass, t.env)
  }

  /** scache_init. */
  function Init(a: Arena, spans: map<Desc, Span>, trie: map<nat, Desc>, paths: set<nat>): Cache {
    Cache(spans, trie, paths, seq(|a.sizes|, i => Bin([{}, {}, {}], 0, 0, {})), seq((|a.sizes| + 63) / 64, w => {}),
          [], 0, {}, map[])
  }

  /** The shared structures before the arena has any spans. */
  ghost predicate Clean(a: Arena, spans: map<Desc, Span>, trie: map<nat, Desc>) {
    && (forall d :: d in spans ==> spans[d].arena != a.uid)
    && (forall p :: p in trie ==> p < TRIE_SLOTS && trie[p] in spans)
  }

  /** Step by step: every state is the one before it, with the step done to it. */
  ghost predicate IsRun(states: seq<Cache>, steps: seq<Step>, a: Arena, lookup: seq<nat>)
    requires Configured(a, lookup)
  {
    && |states| == |steps| + 1
    && forall i :: 0 <= i < |steps| ==>
         && MayStep(states[i], a, lookup, steps[i])
         && (CoreInv(states[i], a, {}) ==> states[i + 1] == Apply(states[i], a, lookup, steps[i]))
  }

  /** No aligned split of the run fails. */
  ghost predicate NoLeaks(states: seq<Cache>, steps: seq<Step>, a: Arena, lookup: seq<nat>)
    requires Configured(a, lookup) && IsRun(states, steps, a, lookup)
  {
    forall i :: 0 <= i < |steps| && CoreInv(states[i], a, {}) ==> !LeakStep(states[i], a, lookup, steps[i])
  }

  lemma InitBins(a: Arena, spans: map<Desc, Span>, trie: map<nat, Desc>, paths: set<nat>)
    requires Clean(a, spans, trie)
    ensures BinsInv(Init(a, spans, trie, paths), a, {})
  {
    var s := Init(a, spans, trie, paths);
    assert forall c :: 0 <= c < |s.bins| ==> s.bins[c] == Bin([{}, {}, {}], 0, 0, {});
    assert forall w :: 0 <= w < |s.bitmap| ==> s.bitmap[w] == {};
    assert forall d :: !Mine(s, a, d);
    hide Init, Clean;
    assert forall c: int, k, d :: !InBucket(s, c, k, d);
    assert CountsInv(s) && BitmapInv(s) && Shape(s, |a.sizes|);
  }

  lemma InitHolds(a: Arena, spans: map<Desc, Span>, trie: map<nat, Desc>, paths: set<nat>)
    requires ValidArena(a) && Clean(a, spans, trie)
    ensures var s := Init(a, spans, trie, paths); CoreInv(s, a, {}) && NeatInv(s, a, {}) && OriginsInv(s, a)
  {
    var s := Init(a, spans, trie, paths);
    assert forall d :: !Mine(s, a, d);
    InitBins(a, spans, trie, paths);
    hide WellConfigured, BinsInv, InSpan, InRegion, GoodSpan;
  }

  /** Every step keeps the core, except an aligned get whose split fails, which breaks it. */
  lemma StepCore(s: Cache, a: Arena, lookup: seq<nat>, t: Step)
    requires Configured(a, lookup) && CoreInv(s, a, {}) && MayStep(s, a, lookup, t)
    ensures CoreInv(Apply(s, a, lookup, t), a, {}) <==> !LeakStep(s, a, lookup, t)
  {
    hide WellConfigured, CoreInv, EnvOk, GetSpan, GetAligned, PutSpan, Decay, Leaks, Foreign;
    match t
    case Get(req, slab, e) =>
      GetSpanCore(s, a, req, slab, e);
    case GetAlign(align, c, e) =>
      GetAlignedCore(s, a, lookup, align, c, e);
    case Put(d, e) =>
      PutSpanCore(s, a, d, e);
    case DecayAll =>
      DecayKeeps(s, a);
    case Others(_, _, _) =>
      ForeignKeeps(s, Apply(s, a, lookup, t), a);
  }

  lemma DecayKeeps(s: Cache, a: Arena)
    requires ValidArena(a) && CoreInv(s, a, {})
    ensures var s' := Decay(s, a);
      && CoreInv(s', a, {}) && (NeatInv(s, a, {}) ==> NeatInv(s', a, {})) && (OriginsInv(s, a) ==> OriginsInv(s', a))
  {
    hide WellConfigured, CoreInv, NeatInv, OriginsInv;
    DecayFromKeeps(s, a, 0);
  }

  // ----- runs and the list of origins -----

  /** The step cuts up a span that has the record of its mapping. */
  ghost predicate RecordStep(s: Cache, a: Arena, lookup: seq<nat>, t: Step)
    requires Configured(a, lookup) && CoreInv(s, a, {}) && MayStep(s, a, lookup, t)
  {
    t.GetAlign? && LosesRecord(s, a, lookup, t.align, t.szclass, t.env)
  }

  /** The writes of the step to the list of origins go to records that exist. Where one does not,
      the code writes through a null pointer, and the step has no next state. */
  ghost predicate StepSafe(s: Cache, a: Arena, lookup: seq<nat>, t: Step)
    requires Configured(a, lookup) && CoreInv(s, a, {}) && MayStep(s, a, lookup, t)
  {
    match t
    case Get(req, _, e) => 0 <= req < |a.sizes| ==> TakeSafe(s, a, req, e)
    case GetAlign(align, c, e) => var req := ReqClass(a, lookup, align, c); 0 <= req < |a.sizes| ==> TakeSafe(s, a, req, e)
    case Put(d, e) => PutSafe(s, a, d)
    case DecayAll => true
    case Others(_, _, _) => true
  }

  /** No step of the run meets a missing record. */
  ghost predicate Safe(states: seq<Cache>, steps: seq<Step>, a: Arena, lookup: seq<nat>)
    requires Configured(a, lookup) && IsRun(states, steps, a, lookup)
  {
    forall i :: 0 <= i < |steps| && CoreInv(states[i], a, {}) ==> StepSafe(states[i], a, lookup, steps[i])
  }

  /** No step of the run cuts up a span with a record for alignment. */
  ghost predicate KeepsRecords(states: seq<Cache>, steps: seq<Step>, a: Arena, lookup: seq<nat>)
    requires Configured(a, lookup) && IsRun(states, steps, a, lookup)
  {
    forall i :: 0 <= i < |steps| && CoreInv(states[i], a, {}) ==> !RecordStep(states[i], a, lookup, steps[i])
  }

  lemma ForeignListed(s: Cache, s': Cache, a: Arena)
    requires Foreign(s, s', a)
    ensures ListedInv(s', a) <==> ListedInv(s, a)
  {
    assert forall d :: Mine(s', a, d) <==> Mine(s, a, d);
  }

  /** While the list has exactly the spans with a record, no step meets a missing one. */
  lemma ListedStepSafe(s: Cache, a: Arena, lookup: seq<nat>, t: Step)
    requires Configured(a, lookup) && CoreInv(s, a, {}) && MayStep(s, a, lookup, t) && ListedInv(s, a)
    ensures StepSafe(s, a, lookup, t)
  {
    ValidConfig(a);
    hide WellConfigured, CoreInv, EnvOk, Foreign, ListedInv, PutSafe, TakeSafe, ReqClass;
    match t
    case Get(req, _, e) =>
      if 0 <= req < |a.sizes| {
        ListedTakeSafe(s, a, req, e);
      }
    case GetAlign(align, c, e) =>
      var req := ReqClass(a, lookup, align, c);
      if 0 <= req < |a.sizes| {
        ListedTakeSafe(s, a, req, e);
      }
    case Put(d, e) =>
      ListedPutSafe(s, a, d);
    case DecayAll =>
    case Others(_, _, _) =>
  }

  /** Whatever the arena, merging across mappings included: while the list has exactly the spans
      with a record, a step meets no missing record, and the list stays that way exactly if the
      step cuts up no span with a record. If it does, a span without links stays in the list. */
  lemma StepListed(s: Cache, a: Arena, lookup: seq<nat>, t: Step)
    requires Configured(a, lookup) && CoreInv(s, a, {}) && MayStep(s, a, lookup, t) && ListedInv(s, a)
    ensures StepSafe(s, a, lookup, t)
    ensures var s' := Apply(s, a, lookup, t);
      && (ListedInv(s', a) <==> !RecordStep(s, a, lookup, t))
      && (Recorded(s', s'.origins) <==> !RecordStep(s, a, lookup, t))
  {
    hide WellConfigured, CoreInv, EnvOk, GetSpan, GetAligned, PutSpan, Decay, Foreign, ListedInv, Recorded, LosesRecord, StepSafe;
    ListedStepSafe(s, a, lookup, t);
    ListedSafe(s, a);
    var s' := Apply(s, a, lookup, t);
    match t {
      case Get(req, slab, e) =>
        GetListed(s, a, req, slab, e);
      case GetAlign(align, c, e) =>
        GetAlignedListed(s, a, lookup, align, c, e);
      case Put(d, e) =>
        PutListed(s, a, d, e);
      case DecayAll =>
        DecayListed(s, a);
      case Others(_, _, _) =>
        ForeignListed(s, s', a);
    }
    if ListedInv(s', a) {
      ListedSafe(s', a);
    }
  }

  /** An arena that keeps no records has no list to write to. */
  lemma UnrecordedSafe(s: Cache, a: Arena, lookup: seq<nat>, t: Step)
    requires Configured(a, lookup) && CoreInv(s, a, {}) && MayStep(s, a, lookup, t) && !a.unmapOnTermination
    ensures StepSafe(s, a, lookup, t)
  {
    hide WellConfigured, CoreInv, EnvOk, Foreign, ReqClass, Release, Coalesce;
  }

  /** Over every run that cuts up no span with a record, the list has exactly the spans with a
      record in every state, and no step meets a missing one. */
  lemma {:induction false} RunListed(states: seq<Cache>, steps: seq<Step>, a: Arena, lookup: seq<nat>, i: nat)
    requires Configured(a, lookup) && IsRun(states, steps, a, lookup)
    requires NoLeaks(states, steps, a, lookup) && KeepsRecords(states, steps, a, lookup)
    requires CoreInv(states[0], a, {}) && ListedInv(states[0], a) && i < |states|
    ensures CoreInv(states[i], a, {}) && ListedInv(states[i], a)
    ensures i < |steps| ==> StepSafe(states[i], a, lookup, steps[i])
  {
    hide WellConfigured, CoreInv, ListedInv, MayStep, Apply, LeakStep, RecordStep, StepSafe;
    if i > 0 {
      RunListed(states, steps, a, lookup, i - 1);
      assert i - 1 < |steps|;
      StepCore(states[i - 1], a, lookup, steps[i - 1]);
      StepListed(states[i - 1], a, lookup, steps[i - 1]);
    }
    if i < |steps| {
      StepListed(states[i], a, lookup, steps[i]);
    }
  }

  /** So a run that leaks nothing and cuts up no span with a record is safe. */
  lemma KeepsIsSafe(states: seq<Cache>, steps: seq<Step>, a: Arena, lookup: seq<nat>)
    requires Configured(a, lookup) && IsRun(states, steps, a, lookup)
    requires NoLeaks(states, steps, a, lookup) && KeepsRecords(states, steps, a, lookup)
    requires CoreInv(states[0], a, {}) && ListedInv(states[0], a)
    ensures Safe(states, steps, a, lookup)
  {
    hide WellConfigured, CoreInv, ListedInv, MayStep, Apply, NoLeaks, KeepsRecords, StepSafe;
    forall i | 0 <= i < |steps| && CoreInv(states[i], a, {}) ensures StepSafe(states[i], a, lookup, steps[i]) {
      RunListed(states, steps, a, lookup, i);
    }
  }

  /** Over every run that leaks nothing and meets no missing record, the live spans tile the mapped
      pages, the trie names them, and the bins hold exactly the free ones. */
  lemma {:induction false} RunCore(states: seq<Cache>, steps: seq<Step>, a: Arena, lookup: seq<nat>, i: nat)
    requires Configured(a, lookup) && IsRun(states, steps, a, lookup) && NoLeaks(states, steps, a, lookup)
    requires Safe(states, steps, a, lookup)
    requires CoreInv(states[0], a, {}) && i < |states|
    ensures CoreInv(states[i], a, {})
  {
    hide WellConfigured, CoreInv, MayStep, Apply, LeakStep;
    if i > 0 {
      RunCore(states, steps, a, lookup, i - 1);
      assert i - 1 < |steps|;
      StepCore(states[i - 1], a, lookup, steps[i - 1]);
    }
  }

  // ----- runs that leave no free neighbours -----

  /** The 28-bit age still distinguishes mappings. */
  predicate Young(s: Cache, t: Step) {
    t.Get? || t.GetAlign? ==> s.epoch + 1 < AGE_LIMIT
  }

  ghost predicate SplitStep(s: Cache, a: Arena, t: Step)
    requires ValidArena(a) && CoreInv(s, a, {})
  {
    t.Get? && SplitByGet(s, a, t.req, t.slab, t.env)
  }

  /** A step leaves two free neighbours exactly when it is a get that cut a span and then found no
      memory for the slab metadata. */
  lemma StepNeat(s: Cache, a: Arena, lookup: seq<nat>, t: Step)
    requires Configured(a, lookup) && CoreInv(s, a, {}) && MayStep(s, a, lookup, t) && !LeakStep(s, a, lookup, t)
    requires NeatInv(s, a, {}) && Young(s, t)
    ensures NeatInv(Apply(s, a, lookup, t), a, {}) <==> !SplitStep(s, a, t)
  {
    hide WellConfigured, CoreInv, EnvOk, GetSpan, GetAligned, PutSpan, Decay, Leaks, Foreign, SplitByGet;
    match t
    case Get(req, slab, e) =>
      GetSpanApart(s, a, req, slab, e);
    case GetAlign(align, c, e) =>
      GetAlignedNeat(s, a, lookup, align, c, e);
    case Put(d, e) =>
      PutSpanNeat(s, a, d, e);
    case DecayAll =>
      DecayKeeps(s, a);
    case Others(_, _, _) =>
      ForeignKeeps(s, Apply(s, a, lookup, t), a);
  }

  /** A step spoils the origins list exactly when it cuts up a span with a record for alignment. */
  lemma StepOrigins(s: Cache, a: Arena, lookup: seq<nat>, t: Step)
    requires Configured(a, lookup) && CoreInv(s, a, {}) && MayStep(s, a, lookup, t)
    requires !a.crossMerge && NeatInv(s, a, {}) && Young(s, t) && OriginsInv(s, a)
    ensures OriginsInv(Apply(s, a, lookup, t), a) <==> !RecordStep(s, a, lookup, t)
  {
    hide WellConfigured, CoreInv, OriginsInv, EnvOk, GetSpan, GetAligned, PutSpan, Decay, Leaks, Foreign, SplitByGet;
    match t
    case Get(req, slab, e) =>
      GetSpanApart(s, a, req, slab, e);
    case GetAlign(align, c, e) =>
      GetAlignedOrigins(s, a, lookup, align, c, e);
    case Put(d, e) =>
      PutSpanNeat(s, a, d, e);
    case DecayAll =>
      DecayKeeps(s, a);
    case Others(_, _, _) =>
      ForeignKeeps(s, Apply(s, a, lookup, t), a);
  }

  /** The run stays within the ages, makes no failed split and no cut without its metadata. */
  ghost predicate TidyRun(states: seq<Cache>, steps: seq<Step>, a: Arena, lookup: seq<nat>)
    requires Configured(a, lookup) && IsRun(states, steps, a, lookup)
  {
    && NoLeaks(states, steps, a, lookup)
    && forall i :: 0 <= i < |steps| ==>
         Young(states[i], steps[i]) && (CoreInv(states[i], a, {}) ==> !SplitStep(states[i], a, steps[i]))
  }

  /** Over every such run no two neighbours of one age are both free, whether or not mappings are
      merged. */
  lemma {:induction false} RunNeat(states: seq<Cache>, steps: seq<Step>, a: Arena, lookup: seq<nat>, i: nat)
    requires Configured(a, lookup) && IsRun(states, steps, a, lookup) && TidyRun(states, steps, a, lookup)
    requires Safe(states, steps, a, lookup)
    requires CoreInv(states[0], a, {}) && NeatInv(states[0], a, {}) && i < |states|
    ensures CoreInv(states[i], a, {}) && NeatInv(states[i], a, {})
  {
    hide WellConfigured, CoreInv, NeatInv, MayStep, Apply, LeakStep, SplitStep;
    RunCore(states, steps, a, lookup, i);
    if i > 0 {
      RunNeat(states, steps, a, lookup, i - 1);
      assert i - 1 < |steps|;
      StepNeat(states[i - 1], a, lookup, steps[i - 1]);
    }
  }

  /** Over every such run that cuts up no span with a record for alignment, the records and the
      origins list are exact. */
  lemma {:induction false} RunOrigins(states: seq<Cache>, steps: seq<Step>, a: Arena, lookup: seq<nat>, i: nat)
    requires Configured(a, lookup) && !a.crossMerge && IsRun(states, steps, a, lookup) && TidyRun(states, steps, a, lookup)
    requires KeepsRecords(states, steps, a, lookup)
    requires CoreInv(states[0], a, {}) && NeatInv(states[0], a, {}) && OriginsInv(states[0], a) && i < |states|
    ensures OriginsInv(states[i], a)
  {
    hide WellConfigured, CoreInv, NeatInv, MayStep, Apply, LeakStep, SplitStep, RecordStep, ListedInv;
    if i > 0 {
      KeepsIsSafe(states, steps, a, lookup);
      hide OriginsInv;
      RunNeat(states, steps, a, lookup, i - 1);
      RunOrigins(states, steps, a, lookup, i - 1);
      assert i - 1 < |steps|;
      StepOrigins(states[i - 1], a, lookup, steps[i - 1]);
    }
  }
}
