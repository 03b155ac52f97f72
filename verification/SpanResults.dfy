/** What the invariants of the span cache come to, for memory as a whole. */
module SpanResults {
  import opened Bits
  import opened SizeClasses
  import opened SpanState
  import opened Lists
  import opened SpanRecords
  import opened SpanInvariants
  import opened SpanSteps
  import opened SpanOps
  import opened SpanGet
  import opened SpanAligned
  import opened SpanRuns

  // ----- tiling -----

  /** Every mapped byte belongs to exactly one live span of the arena, which the trie names, and
      no span has a byte that is not mapped; also after a span was lost. */
  lemma Tiled(s: Cache, a: Arena, hand: set<Desc>)
    requires ValidArena(a) && CoreInv(s, a, hand)
    ensures forall p: nat :: p in s.mapped <==> exists d :: Mine(s, a, d) && InSpan(s.spans[d], p)
    ensures forall d, e, p: nat :: Mine(s, a, d) && Mine(s, a, e) && InSpan(s.spans[d], p) && InSpan(s.spans[e], p) ==> d == e
    ensures forall d, addr: nat :: Mine(s, a, d) && s.spans[d].addr <= addr < s.spans[d].addr + s.spans[d].nbytes ==>
      Lookup(s, addr) == Some(d)
  {
    hide WellConfigured, GoodSpan, BinsInv, InSpan, Lookup;
    forall p: nat | p in s.mapped ensures exists d :: Mine(s, a, d) && InSpan(s.spans[d], p) {
      assert Mine(s, a, s.trie[p]) && InSpan(s.spans[s.trie[p]], p);
    }
    forall d, e, p: nat | Mine(s, a, d) && Mine(s, a, e) && InSpan(s.spans[d], p) && InSpan(s.spans[e], p) ensures d == e {
      assert s.trie[p] == d && s.trie[p] == e;
    }
    forall d, addr: nat | Mine(s, a, d) && s.spans[d].addr <= addr < s.spans[d].addr + s.spans[d].nbytes
      ensures Lookup(s, addr) == Some(d)
    {
      AddressFound(s, a, d, addr);
    }
  }

  /** Any address of a live span leads to it. */
  lemma AddressFound(s: Cache, a: Arena, d: Desc, addr: nat)
    requires ValidArena(a) && SpansInv(s, a) && TrieInv(s, a) && Mine(s, a, d)
    requires s.spans[d].addr <= addr < s.spans[d].addr + s.spans[d].nbytes
    ensures Lookup(s, addr) == Some(d)
  {
    hide WellConfigured, ClassOf, TrieInv;
    var sp := s.spans[d];
    assert GoodSpan(a, sp);
    GoodPages(a, sp);
    var p := addr / TRIE_PAGE;
    WithinPage(sp.addr, sp.nbytes, addr);
    assert InSpan(sp, p) && addr < ADDR_MAX;
    hide SpansInv, GoodSpan, InSpan;
    PagesNamed(s, a, d);
    assert p in s.trie && p < TRIE_SLOTS by { MappedInside(s, a, d); }
    DivUnique(p, TRIE_SLOTS, 0, p);
  }

  lemma WithinPage(start: nat, n: nat, addr: nat)
    requires start % TRIE_PAGE == 0 && n % TRIE_PAGE == 0 && start <= addr < start + n
    ensures start <= addr / TRIE_PAGE * TRIE_PAGE < start + n
  {
  }

  /** With mappings kept apart, the mapped pages are exactly those of the regions the mapper gave. */
  lemma MappedAreRegions(s: Cache, a: Arena)
    requires ValidArena(a) && CoreInv(s, a, {}) && RegionsInv(s, a) && HomeInv(s, a)
    ensures forall p: nat :: p in s.mapped <==> exists g :: g in s.regions && InRegion(s.regions[g], p)
  {
    hide WellConfigured, BinsInv, SpansInv;
    forall p: nat | p in s.mapped ensures exists g :: g in s.regions && InRegion(s.regions[g], p) {
      var d := s.trie[p];
      assert Mine(s, a, d) && InSpan(s.spans[d], p);
      assert InRegion(s.regions[s.spans[d].age], p);
    }
  }

  // ----- a region all of whose spans are free is one span again -----

  /** The span at the start of a region. */
  lemma HeadOf(s: Cache, a: Arena, g: nat) returns (d: Desc)
    requires ValidArena(a) && CoreInv(s, a, {}) && RegionsInv(s, a) && HomeInv(s, a) && g in s.regions
    ensures Mine(s, a, d) && s.spans[d].age == g && s.spans[d].addr == s.regions[g].addr
  {
    hide WellConfigured, BinsInv, ClassOf;
    var r := s.regions[g];
    var p := r.addr / TRIE_PAGE;
    RegionPages(a, r);
    assert InRegion(r, p);
    d := PageOwner(s, a, g, p);
    assert InSpan(s.spans[d], p);
  }

  lemma RegionPages(a: Arena, r: Region)
    requires ValidArena(a) && Placed(a.cfg.pageSize, r.addr, r.nbytes)
    ensures r.addr / TRIE_PAGE * TRIE_PAGE == r.addr && (r.addr + r.nbytes) % TRIE_PAGE == 0
  {
    Mod4096(a, r.addr);
    Mod4096(a, r.nbytes);
    hide WellConfigured;
    ModAdd(r.addr, r.nbytes, TRIE_PAGE);
  }

  /** The span on a page of a region is of that region. */
  lemma PageOwner(s: Cache, a: Arena, g: nat, p: nat) returns (d: Desc)
    requires ValidArena(a) && TrieInv(s, a) && RegionsInv(s, a) && HomeInv(s, a) && g in s.regions && InRegion(s.regions[g], p)
    ensures p in s.trie && d == s.trie[p] && Mine(s, a, d) && InSpan(s.spans[d], p)
    ensures s.spans[d].age == g && Within(s.spans[d], s.regions[g])
  {
    hide WellConfigured, Placed;
    assert p in s.mapped;
    d := s.trie[p];
    assert InSpan(s.spans[d], p);
    assert InRegion(s.regions[s.spans[d].age], p);
  }

  /** A span that does not reach the end of its region has a right neighbour in it. */
  lemma NextOf(s: Cache, a: Arena, g: nat, d: Desc) returns (e: Desc)
    requires ValidArena(a) && CoreInv(s, a, {}) && RegionsInv(s, a) && HomeInv(s, a) && g in s.regions && Mine(s, a, d) && s.spans[d].age == g
    requires s.spans[d].addr + s.spans[d].nbytes < s.regions[g].addr + s.regions[g].nbytes
    ensures Mine(s, a, e) && s.spans[e].age == g && Adjacent(s.spans[d], s.spans[e])
  {
    hide WellConfigured, BinsInv, ClassOf;
    assert GoodSpan(a, s.spans[d]) && Within(s.spans[d], s.regions[g]);
    var p, q := EndPages(a, s.spans[d]);
    assert InRegion(s.regions[g], q + 1);
    e := PageOwner(s, a, g, q + 1);
    assert e != d;
    hide TrieInv, RegionsInv, HomeInv;
    NotInside(s, a, d, e);
    NotInside(s, a, e, d);
  }

  /** Once everything cut from a mapping is free, it is one span again, with the address and the
      size the mapper gave it. */
  lemma WholeAgain(s: Cache, a: Arena, g: nat) returns (d: Desc)
    requires ValidArena(a) && CoreInv(s, a, {}) && RegionsInv(s, a) && HomeInv(s, a) && CoalescedInv(s, a, {}) && g in s.regions
    requires forall e :: Mine(s, a, e) && s.spans[e].age == g ==> !s.spans[e].isAlloc
    ensures Mine(s, a, d) && s.spans[d].age == g
    ensures s.spans[d].addr == s.regions[g].addr && s.spans[d].nbytes == s.regions[g].nbytes
    ensures forall e :: Mine(s, a, e) && s.spans[e].age == g ==> e == d
  {
    hide WellConfigured, BinsInv, TrieInv, RegionsInv, ClassOf, GoodSpan;
    d := HeadOf(s, a, g);
    assert Within(s.spans[d], s.regions[g]);
    if s.spans[d].nbytes < s.regions[g].nbytes {
      var e := NextOf(s, a, g, d);
      FreeApart(s, a, d, e);
    }
    forall e | Mine(s, a, e) && s.spans[e].age == g ensures e == d {
      assert Within(s.spans[e], s.regions[g]);
      if e != d {
        assert GoodSpan(a, s.spans[e]);
        NotInside(s, a, d, e);
        SpanHasBytes(a, s.spans[e]);
        assert false;
      }
    }
  }

  lemma FreeApart(s: Cache, a: Arena, d: Desc, e: Desc)
    requires CoalescedInv(s, a, {}) && Mine(s, a, d) && Mine(s, a, e) && !s.spans[d].isAlloc && !s.spans[e].isAlloc
    ensures !Adjacent(s.spans[d], s.spans[e])
  {
    assert FreeSpan(s, a, {}, d) && FreeSpan(s, a, {}, e);
  }

  lemma SpanHasBytes(a: Arena, sp: Span)
    requires ValidArena(a) && GoodSpan(a, sp)
    ensures sp.nbytes > 0
  {
  }

  // ----- scache_destroy -----

  /** The calls scache_destroy makes: the address of each recorded span, with the recorded size. */
  function Unmaps(s: Cache, origins: seq<Desc>): (r: seq<Region>)
    requires Recorded(s, origins)
    ensures |r| == |origins|
    ensures forall i :: 0 <= i < |origins| ==> r[i] == Region(s.spans[origins[i]].addr, s.spans[origins[i]].record.value)
  {
    if origins == [] then []
    else [Region(s.spans[origins[0]].addr, s.spans[origins[0]].record.value)] + Unmaps(s, origins[1..])
  }

  lemma OriginIsHead(s: Cache, a: Arena, d: Desc)
    requires ValidArena(a) && RegionsInv(s, a) && OriginsInv(s, a) && d in s.origins
    ensures Mine(s, a, d) && s.spans[d].record.Some? && s.spans[d].age in s.regions
    ensures Region(s.spans[d].addr, s.spans[d].record.value) == s.regions[s.spans[d].age]
  {
    hide WellConfigured, RegionsInv;
  }

  /** Every origin is on a live descriptor, with a record. */
  lemma OriginsLive(s: Cache, a: Arena)
    requires OriginsInv(s, a)
    ensures Recorded(s, s.origins)
  {
    assert forall i :: 0 <= i < |s.origins| ==> s.origins[i] in s.origins;
  }

  /** The head of a region is listed, if records are kept. */
  lemma HeadListed(s: Cache, a: Arena, g: nat) returns (i: nat)
    requires ValidArena(a) && CoreInv(s, a, {}) && RegionsInv(s, a) && OriginsInv(s, a) && a.unmapOnTermination && g in s.regions
    ensures i < |s.origins| && s.origins[i] in s.spans && s.spans[s.origins[i]].age == g
  {
    var d := HeadOf(s, a, g);
    hide WellConfigured, CoreInv, RegionsInv, HomeInv;
    assert s.spans[d].record.Some? && d in s.origins;
    i :| 0 <= i < |s.origins| && s.origins[i] == d;
  }

  lemma OriginsDiffer(s: Cache, a: Arena, i: nat, j: nat)
    requires ValidArena(a) && CoreInv(s, a, {}) && OriginsInv(s, a) && i < j < |s.origins|
    ensures s.origins[i] in s.spans && s.origins[j] in s.spans && s.spans[s.origins[i]].addr != s.spans[s.origins[j]].addr
  {
    assert s.origins[i] in s.origins && s.origins[j] in s.origins;
    assert Mine(s, a, s.origins[i]) && Mine(s, a, s.origins[j]) && s.origins[i] != s.origins[j];
    hide WellConfigured, CoreInv, OriginsInv;
    if s.spans[s.origins[i]].addr == s.spans[s.origins[j]].addr {
      SameStart(s, a, s.origins[i], s.origins[j]);
    }
  }

  /** The calls are the regions: each of them, and only them, and none twice. */
  ghost predicate ExactlyRegions(s: Cache, u: seq<Region>) {
    && (forall i :: 0 <= i < |u| ==> exists g :: g in s.regions && u[i] == s.regions[g])
    && (forall g :: g in s.regions ==> s.regions[g] in u)
    && (forall i, j :: 0 <= i < j < |u| ==> u[i] != u[j])
  }

  ghost predicate AtDestroy(s: Cache, a: Arena)
    requires ValidArena(a)
  {
    CoreInv(s, a, {}) && RegionsInv(s, a) && OriginsInv(s, a) && a.unmapOnTermination
  }

  lemma CallIsRegion(s: Cache, a: Arena, i: nat)
    requires ValidArena(a) && AtDestroy(s, a) && i < |s.origins|
    ensures Recorded(s, s.origins)
    ensures exists g :: g in s.regions && Unmaps(s, s.origins)[i] == s.regions[g]
  {
    hide WellConfigured, CoreInv, RegionsInv, OriginsInv;
    OriginsLive(s, a);
    OriginIsHead(s, a, s.origins[i]);
  }

  lemma RegionIsCalled(s: Cache, a: Arena, g: nat)
    requires ValidArena(a) && AtDestroy(s, a) && g in s.regions
    ensures Recorded(s, s.origins)
    ensures s.regions[g] in Unmaps(s, s.origins)
  {
    hide WellConfigured, CoreInv, RegionsInv, OriginsInv, Unmaps;
    OriginsLive(s, a);
    var i := HeadListed(s, a, g);
    OriginIsHead(s, a, s.origins[i]);
    assert Unmaps(s, s.origins)[i] == s.regions[g];
  }

  lemma CallsDiffer(s: Cache, a: Arena, i: nat, j: nat)
    requires ValidArena(a) && AtDestroy(s, a) && i < j < |s.origins|
    ensures Recorded(s, s.origins)
    ensures Unmaps(s, s.origins)[i] != Unmaps(s, s.origins)[j]
  {
    OriginsLive(s, a);
    hide WellConfigured, CoreInv, RegionsInv, OriginsInv;
    OriginsDiffer(s, a, i, j);
  }

  lemma CallsAre(s: Cache, a: Arena)
    requires ValidArena(a) && AtDestroy(s, a)
    ensures Recorded(s, s.origins) && |Unmaps(s, s.origins)| == |s.origins|
  {
    hide WellConfigured, CoreInv, RegionsInv, OriginsInv;
    OriginsLive(s, a);
  }

  /** Destroying the cache unmaps every mapping, whole, exactly once, and nothing else. */
  lemma UnmapsEachOnce(s: Cache, a: Arena)
    requires ValidArena(a) && AtDestroy(s, a)
    ensures Recorded(s, s.origins)
    ensures ExactlyRegions(s, Unmaps(s, s.origins))
  {
    hide WellConfigured, CoreInv, RegionsInv, OriginsInv, Recorded, AtDestroy;
    CallsAre(s, a);
    var u := Unmaps(s, s.origins);
    forall i | 0 <= i < |u| ensures exists g :: g in s.regions && u[i] == s.regions[g] {
      CallIsRegion(s, a, i);
    }
    forall g | g in s.regions ensures s.regions[g] in u {
      RegionIsCalled(s, a, g);
    }
    forall i, j | 0 <= i < j < |u| ensures u[i] != u[j] {
      CallsDiffer(s, a, i, j);
    }
  }

  lemma SameStart(s: Cache, a: Arena, d: Desc, e: Desc)
    requires ValidArena(a) && CoreInv(s, a, {}) && Mine(s, a, d) && Mine(s, a, e) && s.spans[d].addr == s.spans[e].addr
    ensures d == e
  {
    hide WellConfigured, BinsInv, TrieInv, ClassOf;
    assert GoodSpan(a, s.spans[d]);
    if d != e {
      NotInside(s, a, d, e);
    }
  }

  // ----- whole runs -----

  /** A run of the cache from its creation. */
  ghost predicate FromInit(states: seq<Cache>, steps: seq<Step>, a: Arena, lookup: seq<nat>)
    requires Configured(a, lookup)
  {
    && IsRun(states, steps, a, lookup) && |states| > 0
    && Clean(a, states[0].spans, states[0].trie)
    && states[0] == Init(a, states[0].spans, states[0].trie, states[0].paths)
  }

  /** From its creation, a run that leaks nothing and cuts up no span with a record is safe, and so is
      any run that leaks nothing in an arena without records. */
  lemma RunSafe(states: seq<Cache>, steps: seq<Step>, a: Arena, lookup: seq<nat>)
    requires Configured(a, lookup) && FromInit(states, steps, a, lookup) && NoLeaks(states, steps, a, lookup)
    requires KeepsRecords(states, steps, a, lookup) || !a.unmapOnTermination
    ensures Safe(states, steps, a, lookup)
  {
    hide WellConfigured, CoreInv, NeatInv, MayStep, Apply, NoLeaks, KeepsRecords, StepSafe, Init;
    InitHolds(a, states[0].spans, states[0].trie, states[0].paths);
    hide OriginsInv;
    if a.unmapOnTermination {
      KeepsIsSafe(states, steps, a, lookup);
    } else {
      forall i | 0 <= i < |steps| && CoreInv(states[i], a, {}) ensures StepSafe(states[i], a, lookup, steps[i]) {
        UnrecordedSafe(states[i], a, lookup, steps[i]);
      }
    }
  }

  /** After any safe run without a failed split: memory is tiled by live spans, and every address of a
      live span looks up to it. */
  lemma RunTiled(states: seq<Cache>, steps: seq<Step>, a: Arena, lookup: seq<nat>, i: nat)
    requires Configured(a, lookup) && FromInit(states, steps, a, lookup) && NoLeaks(states, steps, a, lookup) && i < |states|
    requires Safe(states, steps, a, lookup)
    ensures CoreInv(states[i], a, {})
    ensures forall p: nat :: p in states[i].mapped <==> exists d :: Mine(states[i], a, d) && InSpan(states[i].spans[d], p)
    ensures forall d, addr: nat :: Mine(states[i], a, d) && states[i].spans[d].addr <= addr < states[i].spans[d].addr + states[i].spans[d].nbytes ==>
      Lookup(states[i], addr) == Some(d)
  {
    hide WellConfigured, CoreInv, NeatInv, OriginsInv, IsRun, NoLeaks, Safe, Init;
    InitHolds(a, states[0].spans, states[0].trie, states[0].paths);
    RunCore(states, steps, a, lookup, i);
    Tiled(states[i], a, {});
  }

  /** After any tidy run that leaves nothing of a mapping allocated, the mapping is one span. */
  lemma RunWholeAgain(states: seq<Cache>, steps: seq<Step>, a: Arena, lookup: seq<nat>, i: nat, g: nat) returns (d: Desc)
    requires Configured(a, lookup) && !a.crossMerge && FromInit(states, steps, a, lookup) && TidyRun(states, steps, a, lookup)
    requires Safe(states, steps, a, lookup) && i < |states| && g in states[i].regions
    requires forall e :: Mine(states[i], a, e) && states[i].spans[e].age == g ==> !states[i].spans[e].isAlloc
    ensures Mine(states[i], a, d) && states[i].spans[d].age == g
    ensures states[i].spans[d].addr == states[i].regions[g].addr && states[i].spans[d].nbytes == states[i].regions[g].nbytes
    ensures forall e :: Mine(states[i], a, e) && states[i].spans[e].age == g ==> e == d
  {
    hide WellConfigured, CoreInv, OriginsInv, IsRun, TidyRun, Safe, Init, RegionsInv, HomeInv, CoalescedInv;
    InitHolds(a, states[0].spans, states[0].trie, states[0].paths);
    RunNeat(states, steps, a, lookup, i);
    d := WholeAgain(states[i], a, g);
  }

  lemma RunTidySafe(states: seq<Cache>, steps: seq<Step>, a: Arena, lookup: seq<nat>)
    requires Configured(a, lookup) && FromInit(states, steps, a, lookup)
    requires TidyRun(states, steps, a, lookup) && KeepsRecords(states, steps, a, lookup)
    ensures Safe(states, steps, a, lookup)
  {
    hide FromInit, IsRun, KeepsRecords, Safe, Young, SplitStep, NoLeaks;
    RunSafe(states, steps, a, lookup);
  }

  /** After any tidy run that loses no record, destroying the cache unmaps each mapping once. */
  lemma RunUnmaps(states: seq<Cache>, steps: seq<Step>, a: Arena, lookup: seq<nat>, i: nat)
    requires Configured(a, lookup) && !a.crossMerge && a.unmapOnTermination && FromInit(states, steps, a, lookup)
    requires TidyRun(states, steps, a, lookup) && KeepsRecords(states, steps, a, lookup) && i < |states|
    ensures Recorded(states[i], states[i].origins)
    ensures ExactlyRegions(states[i], Unmaps(states[i], states[i].origins))
  {
    hide WellConfigured, CoreInv, RegionsInv, OriginsInv, CoalescedInv, IsRun, TidyRun, KeepsRecords, Init, ExactlyRegions;
    InitHolds(a, states[0].spans, states[0].trie, states[0].paths);
    RunTidySafe(states, steps, a, lookup);
    RunNeat(states, steps, a, lookup, i);
    RunOrigins(states, steps, a, lookup, i);
    UnmapsEachOnce(states[i], a);
  }

  /** An arena that keeps no records has none to lose. */
  lemma NoRecords(s: Cache, a: Arena, lookup: seq<nat>, t: Step)
    requires Configured(a, lookup) && CoreInv(s, a, {}) && MayStep(s, a, lookup, t)
    requires ListedInv(s, a) && !a.unmapOnTermination
    ensures !RecordStep(s, a, lookup, t)
  {
    assert a.cfg.Valid();
    hide WellConfigured, CoreInv, Take, EnvOk, ReqClass, SplitGoes, Foreign, Distinct;
    if t.GetAlign? {
      var req := ReqClass(a, lookup, t.align, t.szclass);
      if 0 <= req < |a.sizes| {
        TakeCore(s, a, req, t.env);
        TakeListed(s, a, req, t.env);
        var (out, _, s1) := Take(s, a, req, t.env);
        assert forall d :: Mine(s1, a, d) ==> s1.spans[d].record.None?;
      }
    }
  }
}
