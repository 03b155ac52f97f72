/** What goes wrong, on runs of a few steps from the creation of a cache, with the profile for
    4 KiB pages and ten pages to a new mapping. */
module SpanWitness {
  import opened Bits
  import opened SizeClasses
  import opened SpanState
  import opened SpanInvariants
  import opened SpanSteps
  import opened SpanOps
  import opened SpanGet
  import opened SpanAligned
  import opened SpanRoom
  import opened SpanRuns
  import opened SpanResults
  import opened SpanMerge
  import opened SpanPut
  import opened SpanCalls

  // ----- the profile -----

  ghost predicate Shipped(a: Arena, slabs: seq<nat>, lookup: seq<nat>) {
    Tables(a, slabs, lookup) && a.cfg == Config(4096, 16, 4, 16384) && a.defaultClass == 8
  }

  lemma FourSteps()
    ensures Units(4, 0) == 1 && Units(4, 1) == 2 && Units(4, 7) == 8 && Units(4, 8) == 10 && Units(4, 9) == 12 && ClassOfGroup(4, 8) == 8
  {
    assert Pow2(0) == 1 && Pow2(1) == 2 && Pow2(2) == 4 && Pow2(3) == 8;
    Log2Pow2(2);
    Log2Pow2(3);
  }

  lemma ShippedSizes(a: Arena)
    requires ValidArena(a) && a.cfg == Config(4096, 16, 4, 16384) && a.defaultClass == 8
    ensures |a.sizes| > 8 && a.sizes[0] == 0x1000 && a.sizes[1] == 0x2000 && a.sizes[7] == 0x8000 && a.sizes[8] == 0xA000
    ensures |a.sizes| > 9 && a.sizes[9] == 0xC000
    ensures ClassOf(a, 0x2000) == 1 && ClassOf(a, 0x9000) == 8 && ClassOf(a, 0xA000) == 8
  {
    SomeSizes(a);
    SizeFacts(a, 1);
    SizeFacts(a, 8);
    FourSteps();
  }

  lemma SomeSizes(a: Arena)
    requires ValidArena(a) && a.cfg == Config(4096, 16, 4, 16384) && a.defaultClass == 8
    ensures |a.sizes| > 8 && a.sizes[0] == 0x1000 && a.sizes[1] == 0x2000 && a.sizes[7] == 0x8000 && a.sizes[8] == 0xA000
    ensures |a.sizes| > 9 && a.sizes[9] == 0xC000
  {
    hide NthSpan, Units, IsPow2;
    FourSteps();
    NthSpanIs(a.cfg, 0);
    NthSpanIs(a.cfg, 1);
    NthSpanIs(a.cfg, 7);
    NthSpanIs(a.cfg, 8);
    NthSpanIs(a.cfg, 9);
  }

  // ----- the first mint -----

  function Start(a: Arena): Cache {
    Init(a, map[], map[], {})
  }

  /** A mapping at 0x10000, descriptors 1 and 2, trie nodes as needed. */
  function FirstAnswers(slabMeta: bool): Env {
    Env(Some(1), Some(0x10000), true, 0, Some(2), None, slabMeta)
  }

  lemma StartHolds(a: Arena)
    requires ValidArena(a)
    ensures CoreInv(Start(a), a, {}) && NeatInv(Start(a), a, {}) && OriginsInv(Start(a), a)
    ensures forall c: nat :: FindBin(Start(a).bitmap, |a.sizes|, c) < 0
  {
    hide WellConfigured, CoreInv, NeatInv, OriginsInv;
    InitHolds(a, map[], map[], {});
    assert forall x: nat :: !BitIs(Start(a).bitmap, x);
  }

  lemma FirstAnswersOk(a: Arena, req: nat, slabMeta: bool)
    requires ValidArena(a) && a.cfg == Config(4096, 16, 4, 16384) && a.defaultClass == 8 && req <= 8
    ensures EnvOk(Start(a), a, req, FirstAnswers(slabMeta))
  {
    hide WellConfigured, ClassOf;
    ShippedSizes(a);
  }

  /** With no bin to serve it, a request mints the default class or, if it asks for more, its own. */
  lemma TakeMints(s: Cache, a: Arena, req: nat, e: Env)
    requires ValidArena(a) && CoreInv(s, a, {}) && req < |a.sizes| && EnvOk(s, a, req, e)
    requires FindBin(s.bitmap, |a.sizes|, req) < 0 && e.mintDesc.Some? && e.region.Some? && e.nodes
    ensures MintClass(a, req) < |a.sizes| && Mint(s, a, req, e).0.Got?
    ensures Take(s, a, req, e) == (Got(e.mintDesc.value), a.defaultClass > req, Minted(s, a, e.mintDesc.value, MintClass(a, req), e.region.value))
  {
    assert a.defaultClass < |a.sizes|;
    hide WellConfigured, CoreInv, EnvOk, PagesOf, Minted;
    MintIs(s, a, req, e);
  }

  // ----- the state after one page was cut off the first mapping -----

  /** Two spans: nine free pages, and the tenth page. */
  ghost predicate NineAndOne(s: Cache, a: Arena) {
    && s.spans.Keys == {1, 2} && Mine(s, a, 1) && Mine(s, a, 2)
    && s.spans[1].addr == 0x10000 && s.spans[1].nbytes == 0x9000 && s.spans[1].szclass == 8 && !s.spans[1].isAlloc
    && s.spans[2].addr == 0x19000 && s.spans[2].nbytes == 0x1000 && s.spans[2].szclass == 0 && s.spans[2].record.None?
  }

  lemma CutTenth(a: Arena, slabMeta: bool)
    requires ValidArena(a) && a.cfg == Config(4096, 16, 4, 16384) && a.defaultClass == 8
    ensures var s1 := Minted(Start(a), a, 1, 8, 0x10000);
      && ServeCall(s1, a, 1, true, 0, FirstAnswers(slabMeta)) && Shape(s1, |a.sizes|) && SpansInv(s1, a) && Mine(s1, a, 1)
      && (var (out, s2) := Cutout(s1, a, 1, 0, FirstAnswers(slabMeta));
          out == Got(2) && CoreInv(s2, a, {2}) && NineAndOne(s2, a))
  {
    hide WellConfigured, ClassOf, CoreInv, Minted, Cut, BinPut, Cutout, EnvOk, Start, BinShape, Placed;
    ShippedSizes(a);
    var e := FirstAnswers(slabMeta);
    var s1 := Minted(Start(a), a, 1, 8, 0x10000);
    StartHolds(a);
    FirstAnswersOk(a, 0, slabMeta);
    TakeMints(Start(a), a, 0, e);
    TakeCore(Start(a), a, 0, e);
    MintedFlags(Start(a), a, 1, 8, 0x10000);
    StartEmpty(a);
    HandReady(s1, a, {1}, 1);
    CorePlaces(s1, a, {1});
    CutoutIs(s1, a, 1, 0, e);
    CutoutCore(s1, a, 1, 0, e);
    CutMoves(s1, a, 1, 2, 0x1000);
    CutFields(s1, a, 1, 2, 0x1000);
    CutCore(s1, a, 1, 2, 0x1000, {1});
    PutCore(Cut(s1, a, 1, 2, 0x1000), a, 1, {1} + {2});
  }

  lemma CorePlaces(s: Cache, a: Arena, hand: set<Desc>)
    requires ValidArena(a) && CoreInv(s, a, hand)
    ensures SpansInv(s, a)
  {
  }

  lemma StartEmpty(a: Arena)
    ensures Start(a).spans == map[]
  {
  }

  // ----- nine pages for ten -----

  lemma AfterGet(a: Arena)
    requires ValidArena(a) && a.cfg == Config(4096, 16, 4, 16384) && a.defaultClass == 8
    ensures GetCall(Start(a), a, 0, FirstAnswers(true))
    ensures var (out, s) := GetSpan(Start(a), a, 0, false, FirstAnswers(true));
      out == Got(2) && CoreInv(s, a, {}) && NineAndOne(s, a) && s.spans[2].isAlloc
  {
    hide WellConfigured, ClassOf, CoreInv, Minted, BinPut, Cutout, EnvOk, Start, BinShape, Placed, SpansInv;
    var e := FirstAnswers(true);
    ShippedSizes(a);
    StartHolds(a);
    FirstAnswersOk(a, 0, true);
    TakeMints(Start(a), a, 0, e);
    TakeCore(Start(a), a, 0, e);
    CutTenth(a, true);
    var s1 := Minted(Start(a), a, 1, 8, 0x10000);
    var s2 := Cutout(s1, a, 1, 0, e).1;
    HandReady(s1, a, {1}, 1);
    HandReady(s2, a, {2}, 2);
    HandOutIs(s2, 2, false);
    GetSpanCore(Start(a), a, 0, false, e);
  }

  /** The only free span is the first of its bin, and no bin but its own has one. */
  lemma OnlyFree(s: Cache, a: Arena, d: Desc)
    requires ValidArena(a) && CoreInv(s, a, {}) && FreeSpan(s, a, {}, d) && forall x :: FreeSpan(s, a, {}, x) ==> x == d
    ensures 0 <= s.spans[d].szclass < |a.sizes|
    ensures forall x: nat :: BitIs(s.bitmap, x) <==> x == s.spans[d].szclass
    ensures Poppable(s, s.spans[d].szclass) && FirstOf(s, s.spans[d].szclass) == d
  {
    assert GoodSpan(a, s.spans[d]);
    hide WellConfigured, ClassOf, TrieInv, BitIs, SpansInv;
    ClassInRange(a, s.spans[d]);
    hide GoodSpan;
    var c: nat := s.spans[d].szclass;
    assert InBucket(s, c, s.spans[d].state, d);
    assert s.bins[c].bits != {} by { assert BinCounts(s.bins[c]) && s.spans[d].state in s.bins[c].bits; }
    forall x: nat | BitIs(s.bitmap, x) ensures x == c {
      PopReady(s, a, x, {});
      assert FreeSpan(s, a, {}, FirstOf(s, x));
    }
    PopReady(s, a, c, {});
  }

  function NoAnswers(): Env {
    Env(None, None, false, 0, None, None, false)
  }

  /** A get of class 8, of ten pages, is served with the nine. */
  lemma ServesNine(s: Cache, a: Arena)
    requires ValidArena(a) && a.cfg == Config(4096, 16, 4, 16384) && a.defaultClass == 8
    requires CoreInv(s, a, {}) && NineAndOne(s, a) && s.spans[2].isAlloc
    ensures GetCall(s, a, 8, NoAnswers())
    ensures var (out, s') := GetSpan(s, a, 8, false, NoAnswers());
      out == Got(1) && 1 in s'.spans && s'.spans[1].nbytes == 0x9000 && s'.spans[1].szclass == 8 && a.sizes[8] == 0xA000
  {
    hide WellConfigured, ClassOf, SpansInv, TrieInv, BinsInv, Pop, BinPop, BitIs, FirstOf, RegionOk;
    var e := NoAnswers();
    ShippedSizes(a);
    assert GetCall(s, a, 8, e);
    OnlyFree(s, a, 1);
    assert FindBin(s.bitmap, |a.sizes|, 8) == 8;
    PopKeeps(s, a, 8);
    TakeCore(s, a, 8, e);
    var s1 := Pop(s, 8);
    HandReady(s1, a, {1}, 1);
    HandOutIs(s1, 1, false);
  }

  /** From its creation, after one page was asked for and got: who asks for ten pages gets nine. */
  lemma NinePagesForTen(a: Arena, slabs: seq<nat>, lookup: seq<nat>) returns (states: seq<Cache>, steps: seq<Step>)
    requires Shipped(a, slabs, lookup)
    ensures steps == [Get(0, false, FirstAnswers(true)), Get(8, false, NoAnswers())] && |states| == 3
    ensures FromInit(states, steps, a, lookup) && NoLeaks(states, steps, a, lookup) && Safe(states, steps, a, lookup)
    ensures CoreInv(states[1], a, {}) && GetCall(states[1], a, 8, NoAnswers()) && 8 < |a.sizes|
    ensures GetSpan(states[1], a, 8, false, NoAnswers()).0 == Got(1)
    ensures 1 in states[2].spans && states[2].spans[1].nbytes == 0x9000 && states[2].spans[1].szclass == 8 && a.sizes[8] == 0xA000
  {
    hide WellConfigured, ClassOf, CoreInv, GetSpan, EnvOk, IsSlabTable;
    steps := [Get(0, false, FirstAnswers(true)), Get(8, false, NoAnswers())];
    ShippedSizes(a);
    StartHolds(a);
    AfterGet(a);
    var s1 := GetSpan(Start(a), a, 0, false, FirstAnswers(true)).1;
    ServesNine(s1, a);
    var s2 := GetSpan(s1, a, 8, false, NoAnswers()).1;
    states := [Start(a), s1, s2];
    assert IsRun(states, steps, a, lookup);
    assert KeepsRecords(states, steps, a, lookup) && NoLeaks(states, steps, a, lookup);
    StartListed(a);
    KeepsIsSafe(states, steps, a, lookup);
  }

  lemma StartListed(a: Arena)
    requires ValidArena(a)
    ensures ListedInv(Start(a), a)
  {
    StartHolds(a);
  }

  // ----- a span lost to an alignment -----

  lemma EightKIsPow2()
    ensures IsPow2(0x2000)
  {
    assert Pow2(6) == 64 && Pow2(1) == 2;
    Pow2Add(6, 6);
    Pow2Add(12, 1);
  }

  /** Eight pages aligned to two pages need ten pages, the class of the nine. */
  lemma AlignedRequest(a: Arena, slabs: seq<nat>, lookup: seq<nat>)
    requires Shipped(a, slabs, lookup)
    ensures 8 < |a.sizes| && Configured(a, lookup) && ReqClass(a, lookup, 0x2000, 7) == 8 && Padded(a, 0x2000, 7) == 0xA000
    ensures AlignOk(a, 0x2000)
  {
    hide WellConfigured, ClassOf, ReqClass, IsPow2;
    ShippedSizes(a);
    BulkClass(a, slabs, lookup, 0x2000, 7);
    EightKIsPow2();
  }

  /** From its creation, after one page was asked for and got: an aligned get of eight pages takes
      the nine free ones, finds them too few, and leaves them in no bin. */
  lemma AlignedGetLoses(a: Arena, slabs: seq<nat>, lookup: seq<nat>) returns (states: seq<Cache>, steps: seq<Step>)
    requires Shipped(a, slabs, lookup)
    ensures steps == [Get(0, false, FirstAnswers(true)), GetAlign(0x2000, 7, NoAnswers())] && |states| == 3
    ensures FromInit(states, steps, a, lookup) && CoreInv(states[1], a, {}) && MayStep(states[1], a, lookup, steps[1])
    ensures LeakStep(states[1], a, lookup, steps[1]) && !CoreInv(states[2], a, {})
    ensures 1 in states[2].spans && !states[2].spans[1].isAlloc && states[2].spans[1].nbytes == 0x9000
    ensures forall c: int, k, d :: !InBucket(states[2], c, k, d)
  {
    hide WellConfigured, ClassOf, SpansInv, TrieInv, BinsInv, GetSpan, EnvOk, IsSlabTable, GetAligned, Leaks, ReqClass, Start, IsPow2;
    steps := [Get(0, false, FirstAnswers(true)), GetAlign(0x2000, 7, NoAnswers())];
    AlignedRequest(a, slabs, lookup);
    StartHolds(a);
    AfterGet(a);
    var s1 := GetSpan(Start(a), a, 0, false, FirstAnswers(true)).1;
    NothingAsked(s1, a);
    FirstAnswersOk(a, 0, true);
    StartIsInit(a);
    assert MayStep(s1, a, lookup, steps[1]);
    NineLost(s1, a, slabs, lookup);
    var s2 := GetAligned(s1, a, lookup, 0x2000, 7, NoAnswers()).1;
    GetAlignedCore(s1, a, lookup, 0x2000, 7, NoAnswers());
    states := [Start(a), s1, s2];
  }

  lemma NothingAsked(s: Cache, a: Arena)
    requires ValidArena(a)
    ensures forall req: nat :: EnvOk(s, a, req, NoAnswers())
  {
  }

  lemma NineLost(s: Cache, a: Arena, slabs: seq<nat>, lookup: seq<nat>)
    requires Shipped(a, slabs, lookup) && CoreInv(s, a, {}) && NineAndOne(s, a) && s.spans[2].isAlloc
    ensures AlignedCall(s, a, lookup, 0x2000, 7, NoAnswers()) && Leaks(s, a, lookup, 0x2000, 7, NoAnswers())
    ensures var s' := GetAligned(s, a, lookup, 0x2000, 7, NoAnswers()).1;
      && 1 in s'.spans && !s'.spans[1].isAlloc && s'.spans[1].nbytes == 0x9000
      && forall c: int, k, d :: !InBucket(s', c, k, d)
  {
    hide WellConfigured, ClassOf, SpansInv, TrieInv, ReqClass, IsPow2, Pop, BinPop, BitIs, FirstOf, EnvOk, IsSlabTable;
    AlignedRequest(a, slabs, lookup);
    NothingAsked(s, a);
    assert AlignedCall(s, a, lookup, 0x2000, 7, NoAnswers()) by { hide BinsInv; }
    OnlyFree(s, a, 1);
    assert FindBin(s.bitmap, |a.sizes|, 8) == 8;
    PopKeeps(s, a, 8);
    hide CoreInv;
    NoneBinned(s, Pop(s, 8), a);
  }

  /** With its only free span in hand, a cache has nothing in its bins. */
  lemma NoneBinned(s: Cache, s': Cache, a: Arena)
    requires ValidArena(a) && CoreInv(s', a, {1}) && SamePlaces(s, s') && OnlyFlagsOf(s, s', 1)
    requires NineAndOne(s, a) && s.spans[2].isAlloc
    ensures forall c: int, k, d :: !InBucket(s', c, k, d)
  {
    hide WellConfigured, SpansInv, TrieInv, InBucket;
    assert forall d :: !FreeSpan(s', a, {1}, d);
  }

  // ----- two free neighbours -----

  /** From its creation: a get of one page for a slab, for which there is no metadata, leaves the
      mapping in two free pieces side by side. */
  lemma FailedSlabSplits(a: Arena, slabs: seq<nat>, lookup: seq<nat>) returns (states: seq<Cache>, steps: seq<Step>)
    requires Shipped(a, slabs, lookup)
    ensures steps == [Get(0, true, FirstAnswers(false))] && |states| == 2
    ensures FromInit(states, steps, a, lookup) && NoLeaks(states, steps, a, lookup) && Safe(states, steps, a, lookup)
    ensures states[1].spans.Keys == {1, 2} && Mine(states[1], a, 1) && Mine(states[1], a, 2)
    ensures !states[1].spans[1].isAlloc && !states[1].spans[2].isAlloc && Adjacent(states[1].spans[1], states[1].spans[2])
  {
    hide WellConfigured, ClassOf, CoreInv, GetSpan, EnvOk, IsSlabTable, Start;
    steps := [Get(0, true, FirstAnswers(false))];
    ShippedSizes(a);
    StartHolds(a);
    FirstAnswersOk(a, 0, false);
    SplitInTwo(a);
    var s1 := GetSpan(Start(a), a, 0, true, FirstAnswers(false)).1;
    states := [Start(a), s1];
    assert Configured(a, lookup);
    StartIsInit(a);
    assert IsRun(states, steps, a, lookup) && KeepsRecords(states, steps, a, lookup) && NoLeaks(states, steps, a, lookup);
    StartListed(a);
    KeepsIsSafe(states, steps, a, lookup);
  }

  lemma StartIsInit(a: Arena)
    ensures Start(a) == Init(a, map[], map[], {}) && Clean(a, map[], map[])
    ensures Start(a).spans == map[] && Start(a).trie == map[] && Start(a).paths == {}
  {
  }

  lemma SplitInTwo(a: Arena)
    requires ValidArena(a) && a.cfg == Config(4096, 16, 4, 16384) && a.defaultClass == 8
    ensures GetCall(Start(a), a, 0, FirstAnswers(false))
    ensures var s := GetSpan(Start(a), a, 0, true, FirstAnswers(false)).1;
      CoreInv(s, a, {}) && NineAndOne(s, a) && !s.spans[2].isAlloc && Adjacent(s.spans[1], s.spans[2])
  {
    hide WellConfigured, ClassOf, CoreInv, Minted, BinPut, Cutout, EnvOk, Start, BinShape, Placed, SpansInv;
    var e := FirstAnswers(false);
    ShippedSizes(a);
    StartHolds(a);
    FirstAnswersOk(a, 0, false);
    TakeMints(Start(a), a, 0, e);
    TakeCore(Start(a), a, 0, e);
    CutTenth(a, false);
    var s1 := Minted(Start(a), a, 1, 8, 0x10000);
    HandReady(s1, a, {1}, 1);
    OverTenth(s1, a, e);
    CutoutCore(s1, a, 1, 0, e);
    var s2 := Cutout(s1, a, 1, 0, e).1;
    HandReady(s2, a, {2}, 2);
    PutCore(s2, a, 2, {2});
    GetSpanCore(Start(a), a, 0, true, e);
  }

  lemma OverTenth(s: Cache, a: Arena, e: Env)
    requires ValidArena(a) && ServeCall(s, a, 1, true, 0, e) && e.cutDesc.Some?
    ensures CutCall(s, a, 1, 0, e)
  {
  }

  // ----- a record lost to an alignment -----

  /** A mapping at 0x30000, descriptors 3 and 4. */
  function SecondAnswers(): Env {
    Env(Some(3), Some(0x30000), true, 0, Some(4), None, true)
  }

  /** Eight pages handed out, two free ones behind them, and the first span without a record. */
  ghost predicate EightAndTwo(s: Cache, a: Arena) {
    && s.spans.Keys == {1, 2} && Mine(s, a, 1) && Mine(s, a, 2)
    && s.spans[1].addr == 0x10000 && s.spans[1].nbytes == 0x8000 && s.spans[1].isAlloc && s.spans[1].record.None?
    && s.spans[2].addr == 0x18000 && s.spans[2].nbytes == 0x2000 && !s.spans[2].isAlloc
    && s.origins == [1]
  }

  lemma MintedTen(a: Arena)
    requires ValidArena(a) && a.cfg == Config(4096, 16, 4, 16384) && a.defaultClass == 8 && a.unmapOnTermination
    ensures |a.sizes| > 8
    ensures var s1 := Minted(Start(a), a, 1, 8, 0x10000);
      && CoreInv(s1, a, {1}) && Mine(s1, a, 1) && s1.spans.Keys == {1} && s1.origins == [1]
      && s1.spans[1].addr == 0x10000 && s1.spans[1].nbytes == 0xA000 && s1.spans[1].record.Some?
      && Take(Start(a), a, 8, FirstAnswers(true)) == (Got(1), false, s1)
  {
    hide WellConfigured, ClassOf, CoreInv, EnvOk, PagesOf;
    ShippedSizes(a);
    StartHolds(a);
    FirstAnswersOk(a, 8, true);
    TakeMints(Start(a), a, 8, FirstAnswers(true));
    TakeCore(Start(a), a, 8, FirstAnswers(true));
  }

  lemma AlreadyAligned()
    ensures Offset(0x10000, 0x2000) == 0
  {
  }

  /** The split of the ten pages: the first eight are aligned as they are. */
  lemma SplitTen(s: Cache, a: Arena, e: Env)
    requires ValidArena(a) && a.cfg == Config(4096, 16, 4, 16384) && a.defaultClass == 8 && AlignOk(a, 0x2000)
    requires e == FirstAnswers(true) && CoreInv(s, a, {1}) && Mine(s, a, 1) && s.spans.Keys == {1} && s.origins == [1]
    requires s.spans[1].addr == 0x10000 && s.spans[1].nbytes == 0xA000 && s.spans[1].record.Some? && 7 < |a.sizes|
    ensures TakenCall(s, a, 1, 0x2000, 7, e) && SplitGoes(s, a, 1, 0x2000, 7, e)
    ensures EightAndTwo(ServeAligned(s, a, 1, 0x2000, 7, e).1, a)
  {
    hide WellConfigured, ClassOf, SpansInv, TrieInv, BinsInv, Cut, BinPut, IsPow2, Offset, SplitAndInsert, AlignUp;
    ShippedSizes(a);
    AlreadyAligned();
    SplitReady(s, a, 1, 0x2000, 7, e);
    SplitAndInsertIs(s, a, 1, 0x2000, 7, e);
    SplitCore(s, a, 1, 0x2000, 7, e);
    SplitFacts(s, a, 1, 0x2000, 7, e);
    CutMoves(s, a, 1, 2, 0x2000);
    CutFields(s, a, 1, 2, 0x2000);
    var s2 := SplitAndInsert(s, a, 1, 0x2000, 7, e);
    HandReady(s2, a, {1, 2}, 2);
    PutCore(s2, a, 2, {1, 2});
  }

  lemma AlignOnStart(a: Arena, slabs: seq<nat>, lookup: seq<nat>)
    requires Shipped(a, slabs, lookup) && a.unmapOnTermination
    ensures AlignedCall(Start(a), a, lookup, 0x2000, 7, FirstAnswers(true))
    ensures LosesRecord(Start(a), a, lookup, 0x2000, 7, FirstAnswers(true)) && !Leaks(Start(a), a, lookup, 0x2000, 7, FirstAnswers(true))
    ensures EightAndTwo(GetAligned(Start(a), a, lookup, 0x2000, 7, FirstAnswers(true)).1, a)
  {
    hide WellConfigured, ClassOf, CoreInv, ReqClass, IsPow2, Start, EnvOk, Take, Minted, ServeAligned, SplitGoes, IsSlabTable;
    AlignedRequest(a, slabs, lookup);
    StartHolds(a);
    FirstAnswersOk(a, 8, true);
    MintedTen(a);
    var s1 := Minted(Start(a), a, 1, 8, 0x10000);
    SplitTen(s1, a, FirstAnswers(true));
    TakeGivesTaken(Start(a), a, 8, 0x2000, 7, FirstAnswers(true));
  }

  /** Two pages left do not serve ten: the next such call mints again. */
  lemma MintsAgain(s: Cache, a: Arena)
    requires ValidArena(a) && a.cfg == Config(4096, 16, 4, 16384) && a.defaultClass == 8
    requires CoreInv(s, a, {}) && EightAndTwo(s, a)
    ensures 8 < |a.sizes| && EnvOk(s, a, 8, SecondAnswers())
    ensures FindBin(s.bitmap, |a.sizes|, 8) < 0 && Mint(s, a, 8, SecondAnswers()).0.Got?
  {
    hide WellConfigured, ClassOf, SpansInv, TrieInv, BinsInv, BitIs, Mint, Placed;
    ShippedSizes(a);
    TwoIsClassOne(s, a);
    OnlyFree(s, a, 2);
    ElsewhereFree(s, a);
    TakeMints(s, a, 8, SecondAnswers());
  }

  lemma TwoIsClassOne(s: Cache, a: Arena)
    requires ValidArena(a) && SpansInv(s, a) && EightAndTwo(s, a)
    ensures s.spans[2].szclass == ClassOf(a, 0x2000)
  {
    assert GoodSpan(a, s.spans[2]);
  }

  /** No page of the second mapping is in the trie. */
  lemma ElsewhereFree(s: Cache, a: Arena)
    requires ValidArena(a) && a.cfg == Config(4096, 16, 4, 16384) && a.defaultClass == 8 && TrieInv(s, a) && EightAndTwo(s, a)
    ensures 8 < |a.sizes| && EnvOk(s, a, 8, SecondAnswers())
  {
    hide WellConfigured, ClassOf;
    ShippedSizes(a);
    forall p: nat | p in Pages(0x30000, 0xA000) ensures p !in s.trie {
      assert p in s.trie ==> Mine(s, a, s.trie[p]) && InSpan(s.spans[s.trie[p]], p);
    }
  }

  /** From the creation of a cache that keeps records: an aligned get that mints takes the record
      from a span that stays in the list of origins. From then on destroying the cache meets a
      missing record, and so does the very next such call, when it pushes the span it mints. */
  lemma SecondAlignedGetUnsafe(a: Arena, slabs: seq<nat>, lookup: seq<nat>)
      returns (states: seq<Cache>, steps: seq<Step>, next: Step)
    requires Shipped(a, slabs, lookup) && a.unmapOnTermination
    ensures steps == [GetAlign(0x2000, 7, FirstAnswers(true))] && next == GetAlign(0x2000, 7, SecondAnswers()) && |states| == 2
    ensures FromInit(states, steps, a, lookup) && NoLeaks(states, steps, a, lookup) && Safe(states, steps, a, lookup)
    ensures CoreInv(states[1], a, {}) && states[1].origins == [1] && !Recorded(states[1], states[1].origins)
    ensures MayStep(states[1], a, lookup, next) && !StepSafe(states[1], a, lookup, next)
  {
    hide WellConfigured, ClassOf, CoreInv, ReqClass, IsPow2, Start, EnvOk, Mint, GetAligned, LosesRecord, Leaks, IsSlabTable;
    steps := [GetAlign(0x2000, 7, FirstAnswers(true))];
    next := GetAlign(0x2000, 7, SecondAnswers());
    AlignedRequest(a, slabs, lookup);
    StartHolds(a);
    StartIsInit(a);
    StartListed(a);
    AlignOnStart(a, slabs, lookup);
    GetAlignedCore(Start(a), a, lookup, 0x2000, 7, FirstAnswers(true));
    var s1 := GetAligned(Start(a), a, lookup, 0x2000, 7, FirstAnswers(true)).1;
    states := [Start(a), s1];
    StepListed(Start(a), a, lookup, steps[0]);
    MintsAgain(s1, a);
    NoHead(s1, a);
  }

  lemma NoHead(s: Cache, a: Arena)
    requires EightAndTwo(s, a)
    ensures !Recorded(s, s.origins) && forall d :: !PushSafe(s, d)
  {
    assert !HasRecord(s, s.origins[0]);
  }

  // ----- a record moved to a span in another mapping -----

  /** A mapping right behind the first one, descriptor 3. */
  function BehindAnswers(): Env {
    Env(Some(3), Some(0x1A000), true, 0, None, None, true)
  }

  /** Ten free pages in two pieces do not serve twelve. */
  lemma NoTwelve(s: Cache, a: Arena)
    requires ValidArena(a) && a.cfg == Config(4096, 16, 4, 16384) && a.defaultClass == 8
    requires CoreInv(s, a, {}) && NineAndOne(s, a)
    ensures 9 < |a.sizes| && FindBin(s.bitmap, |a.sizes|, 9) < 0
  {
    hide WellConfigured, ClassOf, SpansInv, TrieInv, BitIs;
    ShippedSizes(a);
    forall x: nat | BitIs(s.bitmap, x) ensures x < 9 {
      PopReady(s, a, x, {});
      assert FreeSpan(s, a, {}, FirstOf(s, x));
    }
  }

  lemma BehindFree(s: Cache, a: Arena)
    requires ValidArena(a) && a.cfg == Config(4096, 16, 4, 16384) && a.defaultClass == 8 && TrieInv(s, a) && NineAndOne(s, a)
    ensures 9 < |a.sizes| && EnvOk(s, a, 9, BehindAnswers())
  {
    hide WellConfigured, ClassOf;
    ShippedSizes(a);
    forall p: nat | p in Pages(0x1A000, 0xC000) ensures p !in s.trie {
      assert p in s.trie ==> Mine(s, a, s.trie[p]) && InSpan(s.spans[s.trie[p]], p);
    }
  }

  /** Behind the free tenth page, twelve pages handed out that have the record of their mapping. */
  ghost predicate TenthAndTwelve(s: Cache, a: Arena) {
    && Mine(s, a, 2) && s.spans[2].addr == 0x19000 && s.spans[2].nbytes == 0x1000 && s.spans[2].record.None? && !s.spans[2].isAlloc
    && Mine(s, a, 3) && s.spans[3].addr == 0x1A000 && s.spans[3].nbytes == 0xC000 && s.spans[3].record.Some? && s.spans[3].isAlloc
  }

  lemma GetsTwelve(s: Cache, a: Arena)
    requires ValidArena(a) && a.cfg == Config(4096, 16, 4, 16384) && a.defaultClass == 8 && a.unmapOnTermination
    requires CoreInv(s, a, {}) && NineAndOne(s, a) && !s.spans[2].isAlloc
    ensures 9 < |a.sizes| && GetCall(s, a, 9, BehindAnswers())
    ensures var s' := GetSpan(s, a, 9, false, BehindAnswers()).1; CoreInv(s', a, {}) && TenthAndTwelve(s', a)
  {
    hide WellConfigured, ClassOf, CoreInv, EnvOk, Minted, Take;
    var e := BehindAnswers();
    ShippedSizes(a);
    NoTwelve(s, a);
    CoreTrie(s, a);
    BehindFree(s, a);
    TakeMints(s, a, 9, e);
    TakeCore(s, a, 9, e);
    MintedFlags(s, a, 3, 9, 0x1A000);
    var s1 := Minted(s, a, 3, 9, 0x1A000);
    HandReady(s1, a, {3}, 3);
    HandOutIs(s1, 3, false);
    GetSpanCore(s, a, 9, false, e);
  }

  lemma CoreTrie(s: Cache, a: Arena)
    requires ValidArena(a) && CoreInv(s, a, {})
    ensures SpansInv(s, a) && TrieInv(s, a)
  {
  }

  lemma TenthInFront(s: Cache, a: Arena)
    requires ValidArena(a) && a.crossMerge && CoreInv(s, a, {3}) && Mine(s, a, 2) && Mine(s, a, 3)
    requires s.spans[2].addr == 0x19000 && s.spans[2].nbytes == 0x1000 && !s.spans[2].isAlloc
    requires s.spans[3].addr == 0x1A000 && s.spans[3].nbytes == 0xC000 && !s.spans[3].isAlloc
    ensures LeftOf(s, 3) == Some(2) && CanMerge(s, a, Some(2), Some(3))
  {
    hide WellConfigured, BinsInv, SpansInv;
    assert InSpan(s.spans[2], 0x19);
    PagesNamed(s, a, 2);
  }

  /** Freeing the twelve pages merges them into the tenth page, which has no record. */
  lemma TwelveMove(s: Cache, a: Arena)
    requires ValidArena(a) && a.crossMerge && CoreInv(s, a, {}) && TenthAndTwelve(s, a)
    ensures PutCall(s, a, 3) && PutMoves(s, a, 3)
  {
    hide WellConfigured, CoreInv, Release, PlanOk, LeftOf, RightOf, CanMerge;
    ReleaseKeeps(s, a, 3);
    ReleaseIs(s, 3);
    var s0 := Release(s, 3);
    TenthInFront(s0, a);
    PlanIsOk(s0, a, 3);
    assert MakePlan(s0, a, 3).left == Some(2);
  }

  lemma TwelveStates(a: Arena) returns (s1: Cache, s2: Cache)
    requires ValidArena(a) && a.cfg == Config(4096, 16, 4, 16384) && a.defaultClass == 8 && a.unmapOnTermination && a.crossMerge
    ensures GetCall(Start(a), a, 0, FirstAnswers(false)) && s1 == GetSpan(Start(a), a, 0, true, FirstAnswers(false)).1
    ensures GetCall(s1, a, 9, BehindAnswers()) && s2 == GetSpan(s1, a, 9, false, BehindAnswers()).1
    ensures PutCall(s2, a, 3) && PutMoves(s2, a, 3)
  {
    hide WellConfigured, ClassOf, CoreInv, GetSpan, EnvOk, Start, PutMoves, NineAndOne, TenthAndTwelve;
    SplitInTwo(a);
    s1 := GetSpan(Start(a), a, 0, true, FirstAnswers(false)).1;
    GetsTwelve(s1, a);
    s2 := GetSpan(s1, a, 9, false, BehindAnswers()).1;
    TwelveMove(s2, a);
  }

  lemma RunOfThree(a: Arena, lookup: seq<nat>, states: seq<Cache>, steps: seq<Step>)
    requires Configured(a, lookup) && |states| == 4 && |steps| == 3
    requires forall i :: 0 <= i < 3 ==> CoreInv(states[i], a, {}) && MayStep(states[i], a, lookup, steps[i]) && !steps[i].GetAlign?
    requires forall i :: 0 <= i < 3 ==> states[i + 1] == Apply(states[i], a, lookup, steps[i])
    ensures IsRun(states, steps, a, lookup) && NoLeaks(states, steps, a, lookup) && KeepsRecords(states, steps, a, lookup)
  {
    hide WellConfigured, CoreInv, MayStep, Apply, Configured;
  }

  lemma TwelveMoved(a: Arena, slabs: seq<nat>, lookup: seq<nat>) returns (states: seq<Cache>, steps: seq<Step>)
    requires Shipped(a, slabs, lookup) && a.unmapOnTermination && a.crossMerge
    ensures steps == [Get(0, true, FirstAnswers(false)), Get(9, false, BehindAnswers()), Put(3, NoAnswers())] && |states| == 4
    ensures FromInit(states, steps, a, lookup) && NoLeaks(states, steps, a, lookup) && KeepsRecords(states, steps, a, lookup)
    ensures states[0] == Start(a) && CoreInv(states[1], a, {}) && CoreInv(states[2], a, {}) && MoveStep(states[2], a, lookup, steps[2])
  {
    hide WellConfigured, ClassOf, CoreInv, GetSpan, PutSpan, EnvOk, Start, PutMoves, Init, Clean, IsRun, KeepsRecords, NoLeaks, IsSlabTable;
    steps := [Get(0, true, FirstAnswers(false)), Get(9, false, BehindAnswers()), Put(3, NoAnswers())];
    var s1, s2 := TwelveStates(a);
    states := [Start(a), s1, s2, PutSpan(s2, a, 3, NoAnswers())];
    StartIsInit(a);
    RunOfThree(a, lookup, states, steps);
  }

  /** From the creation of a cache that keeps records and merges across mappings: a span moves its
      record to the last page of the mapping in front, and destroying the cache then unmaps a page
      twice, for the call at that page's address has the size of the mapping behind. */
  lemma MergeUnmapsTwice(a: Arena, slabs: seq<nat>, lookup: seq<nat>) returns (states: seq<Cache>, steps: seq<Step>)
    requires Shipped(a, slabs, lookup) && a.unmapOnTermination && a.crossMerge
    ensures steps == [Get(0, true, FirstAnswers(false)), Get(9, false, BehindAnswers()), Put(3, NoAnswers())] && |states| == 4
    ensures FromInit(states, steps, a, lookup) && NoLeaks(states, steps, a, lookup) && Safe(states, steps, a, lookup)
    ensures Recorded(states[3], states[3].origins)
    ensures !UnmapsOnce(Unmaps(states[3], states[3].origins), states[3].mapped)
  {
    hide WellConfigured, CoreInv, MayStep, Apply, NoLeaks, KeepsRecords, CallsTile, Overlaps, ListedInv, Start, Init, Clean, StepSafe, LeakStep;
    states, steps := TwelveMoved(a, slabs, lookup);
    StartHolds(a);
    StartListed(a);
    KeepsIsSafe(states, steps, a, lookup);
    RunListed(states, steps, a, lookup, 3);
    StartTiles(a);
    StepTiles(states[0], a, lookup, steps[0]);
    StepTiles(states[1], a, lookup, steps[1]);
    StepTiles(states[2], a, lookup, steps[2]);
    CoreTrie(states[3], a);
    OverlapUnmaps(states[3], a);
  }

  lemma StartTiles(a: Arena)
    ensures CallsTile(Start(a), a)
  {
    StartIsInit(a);
    InitTiles(a, map[], map[], {});
  }
}
