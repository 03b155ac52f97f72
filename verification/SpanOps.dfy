/** The operations of the span cache, as functions of its state and of what the environment
    does: the mapper, the descriptor pools and the trie's node pool. */
module SpanOps {
  import opened SizeClasses
  import opened SpanState
  import opened SpanInvariants
  import opened SpanSteps

  datatype Outcome = Got(span: Desc) | InvalidArgs | PoolError | MapError

  /** What the environment answers when asked, in the order of the asking. */
  datatype Env = Env(
    mintDesc: Option<Desc>,   // a descriptor for a new mapping
    region: Option<nat>,      // the address of a new mapping
    nodes: bool, stop: nat,   // whether the trie gets the nodes it lacks, and where not
    cutDesc: Option<Desc>,    // a descriptor for the span cut off
    sideDesc: Option<Desc>,   // one more, for an aligned cut
    slabMeta: bool)           // whether slab metadata can be allocated

  /** A span is minted at least as large as the arena's default. */
  function MintClass(a: Arena, req: nat): nat {
    if a.defaultClass > req then a.defaultClass else req
  }

  /** The descriptors are unused, and the region is in range and on pages nobody uses. */
  ghost predicate EnvOk(s: Cache, a: Arena, req: nat, e: Env)
    requires ValidArena(a)
  {
    && (e.mintDesc.Some? ==> e.mintDesc.value !in s.spans)
    && (e.cutDesc.Some? ==> e.cutDesc.value !in s.spans && e.cutDesc != e.mintDesc)
    && (e.sideDesc.Some? ==> e.sideDesc.value !in s.spans && e.sideDesc != e.mintDesc && e.sideDesc != e.cutDesc)
    && (e.region.Some? && MintClass(a, req) < |a.sizes| ==> RegionOk(s, a, MintClass(a, req), e.region.value))
  }

  ghost predicate RegionOk(s: Cache, a: Arena, c: nat, addr: nat)
    requires ValidArena(a) && c < |a.sizes|
  {
    Placed(a.cfg.pageSize, addr, a.sizes[c]) && forall p: nat :: p in Pages(addr, a.sizes[c]) ==> p !in s.trie
  }

  // ----- minting -----

  /** scache_mint_span: descriptor, mapping, trie, records, in that order. */
  ghost function Mint(s: Cache, a: Arena, req: nat, e: Env): (Outcome, Cache)
    requires MintClass(a, req) < |a.sizes|
  {
    var c := MintClass(a, req);
    if e.mintDesc.None? then (PoolError, s)
    else if e.region.None? then (MapError, s)
    else
      var (d, addr) := (e.mintDesc.value, e.region.value);
      var sp := NewSpan(a, s.epoch % AGE_LIMIT, c, addr);
      var s1 := s.(spans := s.spans[d := sp], epoch := (s.epoch + 1) % UINT32_LIMIT);
      var (ok, s2) := TrieInsert(s1, d, e.nodes, e.stop);
      if !ok then (PoolError, s2.(spans := s2.spans - {d}))
      else (Got(d), s2.(
        mapped := s2.mapped + PagesOf(sp), regions := s2.regions[s.epoch := Region(addr, a.sizes[c])],
        origins := if a.unmapOnTermination then [d] + s2.origins else s2.origins))
  }

  /** A failed mint may have used up an epoch and built some trie nodes, no more. */
  ghost predicate OnlyEpochAndPaths(s: Cache, s': Cache) {
    s' == s.(epoch := s'.epoch, paths := s'.paths) && s.paths <= s'.paths && s'.epoch in {s.epoch, (s.epoch + 1) % UINT32_LIMIT}
  }

  /** A mint that works is a new span over a new region, in the trie and, if the arena keeps records,
      pushed on the list of origins; the push writes to the record of the list's head, which is there
      as long as the list has exactly the spans with a record. */
  lemma MintIs(s: Cache, a: Arena, req: nat, e: Env)
    requires ValidArena(a) && MintClass(a, req) < |a.sizes| && EnvOk(s, a, req, e)
    ensures var (o, s') := Mint(s, a, req, e);
      && (o.Got? ==> (
            && e.mintDesc == Some(o.span) && e.region.Some?
            && Fresh(s, a, o.span, MintClass(a, req), e.region.value)
            && s' == Minted(s, a, o.span, MintClass(a, req), e.region.value)))
      && (!o.Got? ==> OnlyEpochAndPaths(s, s'))
      && (o.Got? && ListedInv(s, a) ==> PushSafe(s, o.span))
  {
    MintShape(s, a, req, e);
    hide Mint, Minted, ListedInv, PushSafe, WellConfigured, RegionOk, OnlyEpochAndPaths, Pages;
    var o := Mint(s, a, req, e).0;
    if o.Got? && ListedInv(s, a) {
      ListedPush(s, a, o.span);
    }
  }

  lemma MintShape(s: Cache, a: Arena, req: nat, e: Env)
    requires ValidArena(a) && MintClass(a, req) < |a.sizes| && EnvOk(s, a, req, e)
    ensures var (o, s') := Mint(s, a, req, e);
      && (o.Got? ==> (
            && e.mintDesc == Some(o.span) && e.region.Some?
            && Fresh(s, a, o.span, MintClass(a, req), e.region.value)
            && s' == Minted(s, a, o.span, MintClass(a, req), e.region.value)))
      && (!o.Got? ==> OnlyEpochAndPaths(s, s'))
  {
    hide WellConfigured;
    if e.mintDesc.Some? && e.region.Some? {
      var c := MintClass(a, req);
      var (d, addr) := (e.mintDesc.value, e.region.value);
      var sp := NewSpan(a, s.epoch % AGE_LIMIT, c, addr);
      assert PagesOf(sp) == Pages(addr, a.sizes[c]);
      hide Pages, PagesOf;
      var s1 := s.(spans := s.spans[d := sp], epoch := (s.epoch + 1) % UINT32_LIMIT);
      var (ok, s2) := TrieInsert(s1, d, e.nodes, e.stop);
      if !ok {
        assert s2.trie == s.trie;
        assert s2.spans - {d} == s.spans;
      }
    }
  }

  // ----- the first span of a bin -----

  lemma {:induction false} FirstExists(s: Cache, bucket: set<Desc>)
    requires bucket != {} && bucket <= s.spans.Keys
    ensures exists d :: IsFirst(s, bucket, d)
    decreases |bucket|
  {
    var x :| x in bucket;
    var rest := bucket - {x};
    var d := x;
    if rest != {} {
      FirstExists(s, rest);
      var y :| IsFirst(s, rest, y);
      d := if Before(s.spans[y], s.spans[x]) then y else x;
    }
    assert forall e :: e in bucket ==> e == x || e in rest;
    assert IsFirst(s, bucket, d);
  }

  lemma FirstPage(s: Cache, a: Arena, d: Desc)
    requires ValidArena(a) && SpansInv(s, a) && TrieInv(s, a) && Mine(s, a, d)
    ensures var p := s.spans[d].addr / TRIE_PAGE; p in s.trie && s.trie[p] == d
  {
    assert GoodSpan(a, s.spans[d]);
    hide WellConfigured, ClassOf;
    GoodPages(a, s.spans[d]);
    assert InSpan(s.spans[d], s.spans[d].addr / TRIE_PAGE);
    hide InSpan, GoodSpan;
  }

  lemma ClassInRange(a: Arena, sp: Span)
    requires ValidArena(a) && GoodSpan(a, sp)
    ensures 0 <= sp.szclass < |a.sizes|
  {
    hide WellConfigured, ClassOf;
    assert 0 < sp.nbytes <= ALLOC_MAX && sp.szclass == ClassOf(a, sp.nbytes);
    hide GoodSpan;
    ClassFacts(a, sp.nbytes);
  }

  lemma EndPages(a: Arena, sp: Span) returns (p: nat, q: nat)
    requires ValidArena(a) && GoodSpan(a, sp)
    ensures p * TRIE_PAGE == sp.addr && (q + 1) * TRIE_PAGE == sp.addr + sp.nbytes
    ensures InSpan(sp, p) && InSpan(sp, q)
  {
    hide WellConfigured, ClassOf;
    GoodPages(a, sp);
    p, q := sp.addr / TRIE_PAGE, (sp.addr + sp.nbytes) / TRIE_PAGE - 1;
  }

  /** No span of the arena starts, or ends, strictly inside another. */
  lemma NotInside(s: Cache, a: Arena, d: Desc, e: Desc)
    requires ValidArena(a) && SpansInv(s, a) && TrieInv(s, a) && Mine(s, a, d) && Mine(s, a, e) && d != e
    ensures !(s.spans[d].addr <= s.spans[e].addr < s.spans[d].addr + s.spans[d].nbytes)
    ensures !(s.spans[d].addr < s.spans[e].addr + s.spans[e].nbytes <= s.spans[d].addr + s.spans[d].nbytes)
  {
    hide WellConfigured, ClassOf, GoodSpan, TrieInv, InSpan;
    var p, q := EndPages(a, s.spans[e]);
    var p', q' := EndPages(a, s.spans[d]);
    PagesNamed(s, a, d);
    PagesNamed(s, a, e);
    hide SpansInv;
    EndsOutside(s.spans[d], s.spans[e], p, q, p', q');
  }

  lemma EndsOutside(x: Span, y: Span, p: nat, q: nat, p': nat, q': nat)
    requires p * TRIE_PAGE == y.addr && (q + 1) * TRIE_PAGE == y.addr + y.nbytes
    requires p' * TRIE_PAGE == x.addr && (q' + 1) * TRIE_PAGE == x.addr + x.nbytes
    requires !InSpan(x, p) && !InSpan(x, q)
    ensures !(x.addr <= y.addr < x.addr + x.nbytes)
    ensures !(x.addr < y.addr + y.nbytes <= x.addr + x.nbytes)
  {
  }

  /** Spans of one arena have different addresses, so the order has no ties. */
  lemma FirstUnique(s: Cache, a: Arena, bucket: set<Desc>, d: Desc, e: Desc)
    requires ValidArena(a) && SpansInv(s, a) && TrieInv(s, a) && Mine(s, a, d) && Mine(s, a, e)
    requires IsFirst(s, bucket, d) && IsFirst(s, bucket, e)
    ensures d == e
  {
    assert s.spans[d].addr == s.spans[e].addr;
    hide IsFirst;
    FirstPage(s, a, d);
    FirstPage(s, a, e);
  }

  ghost function First(s: Cache, bucket: set<Desc>): (d: Desc)
    requires bucket != {} && bucket <= s.spans.Keys
    ensures IsFirst(s, bucket, d)
  {
    FirstExists(s, bucket);
    var d :| IsFirst(s, bucket, d);
    d
  }

  /** bin_first_nonempty_bucket, for a bitmap that is not zero. */
  function FirstBucket(bits: set<nat>): nat {
    if CLEAN in bits then CLEAN else if DIRTY in bits then DIRTY else RETAINED
  }

  ghost predicate Poppable(s: Cache, c: nat) {
    && Shape(s, |s.bins|) && c < |s.bins| && s.bins[c].nspans > 0
    && (var bucket := s.bins[c].buckets[FirstBucket(s.bins[c].bits)]; bucket != {} && bucket <= s.spans.Keys)
  }

  ghost function FirstOf(s: Cache, c: nat): Desc
    requires Poppable(s, c)
  {
    First(s, s.bins[c].buckets[FirstBucket(s.bins[c].bits)])
  }

  ghost function Pop(s: Cache, c: nat): Cache
    requires Poppable(s, c)
  {
    BinPop(s, c, FirstBucket(s.bins[c].bits), FirstOf(s, c))
  }

  lemma PopReady(s: Cache, a: Arena, c: nat, hand: set<Desc>)
    requires BinsInv(s, a, hand) && BitIs(s.bitmap, c)
    ensures Poppable(s, c) && InBucket(s, c, FirstBucket(s.bins[c].bits), FirstOf(s, c))
    ensures IsFirstBucket(s.bins[c], FirstBucket(s.bins[c].bits))
  {
    var b := s.bins[c];
    assert b.bits != {} && BinCounts(b);
    var k := FirstBucket(b.bits);
    forall d | d in b.buckets[k] ensures d in s.spans {
      assert InBucket(s, c, k, d);
    }
  }

  lemma PopKeeps(s: Cache, a: Arena, c: nat)
    requires ValidArena(a) && CoreInv(s, a, {}) && BitIs(s.bitmap, c)
    ensures Poppable(s, c)
    ensures var d := FirstOf(s, c); var s' := Pop(s, c);
      && CoreInv(s', a, {d}) && OnlyFlagsOf(s, s', d)
      && Mine(s, a, d) && s.spans[d].szclass == c && !s'.spans[d].isAlloc
      && (CoalescedInv(s, a, {}) ==> CoalescedInv(s', a, {d}) && Lonely(s', a, {d}, d))
  {
    hide Unbin, BinsInv, TrieInv, SpansInv, FirstOf, FirstBucket, WellConfigured, Poppable, Pop;
    var epochMin := PopIs(s, a, c);
    var (k, d) := (FirstBucket(s.bins[c].bits), FirstOf(s, c));
    UnbinKeeps(s, a, c, k, d, epochMin, {});
    assert {} + {d} == {d};
    StatesStay(s, Pop(s, c), a, d);
    PlacesKeep(s, Pop(s, c), a);
    if CoalescedInv(s, a, {}) {
      UnbinCoalesced(s, a, c, k, d, epochMin, {});
    }
  }

  lemma PopIs(s: Cache, a: Arena, c: nat) returns (epochMin: nat)
    requires BinsInv(s, a, {}) && BitIs(s.bitmap, c)
    ensures Poppable(s, c)
    ensures var k := FirstBucket(s.bins[c].bits); var d := FirstOf(s, c);
      && InBucket(s, c, k, d) && FreeSpan(s, a, {}, d) && s.spans[d].szclass == c
      && Pop(s, c) == Unbin(s, c, k, d, epochMin)
  {
    PopReady(s, a, c, {});
    var left := s.bins[c].nspans - 1;
    epochMin := if s.bins[c].epochMin > left then left else s.bins[c].epochMin;
    hide Unbin, FirstOf, FirstBucket;
  }

  lemma StatesStay(s: Cache, s': Cache, a: Arena, d: Desc)
    requires ValidArena(a) && SpansInv(s, a) && OnlyFlagsOf(s, s', d) && s'.spans[d].state < SPAN_NSTATES
    ensures StatesInRange(s', a)
  {
    hide WellConfigured;
    assert forall e :: Mine(s', a, e) ==> Mine(s, a, e);
    assert forall e :: Mine(s, a, e) ==> GoodSpan(a, s.spans[e]);
  }
}
