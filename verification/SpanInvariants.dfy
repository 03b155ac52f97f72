/** The invariant that ties together the tiling of mapped memory, the page trie, the bins with
    their bitmaps and the flags of the spans, and what each small step does to it. */
module SpanInvariants {
  import opened Bits
  import opened SizeClasses
  import opened Lists
  import opened SpanState

  ghost predicate ValidArena(a: Arena) {
    a.cfg.Positive() && WellConfigured(a)
  }

  ghost predicate WellConfigured(a: Arena)
    requires a.cfg.Positive()
  {
    && a.cfg.Pow2Steps() && a.cfg.pageSize >= TRIE_PAGE
    && IsSpanTable(a.cfg, a.sizes) && a.defaultClass < |a.sizes| <= UINT16_MAX
  }

  // ----- the parts of the invariant -----

  /** The page starts inside the span. */
  ghost predicate InSpan(sp: Span, p: nat) {
    sp.addr <= p * TRIE_PAGE < sp.addr + sp.nbytes
  }

  ghost predicate InRegion(r: Region, p: nat) {
    r.addr <= p * TRIE_PAGE < r.addr + r.nbytes
  }

  ghost predicate Placed(page: nat, addr: nat, nbytes: nat)
    requires page > 0
  {
    page <= addr && page <= nbytes && addr % page == 0 && nbytes % page == 0 && addr + nbytes <= ADDR_MAX
  }

  /** Whole pages, in range, and binned under the class of its size. */
  ghost predicate GoodSpan(a: Arena, sp: Span)
    requires ValidArena(a)
  {
    && Placed(a.cfg.pageSize, sp.addr, sp.nbytes)
    && sp.szclass == ClassOf(a, sp.nbytes) && sp.state < SPAN_NSTATES
  }

  ghost predicate SpansInv(s: Cache, a: Arena)
    requires ValidArena(a)
  {
    forall d {:trigger GoodSpan(a, s.spans[d])} :: Mine(s, a, d) ==> GoodSpan(a, s.spans[d])
  }

  /** The trie names live descriptors only, exactly one for every mapped page: the span that
      covers it. So the live spans tile the mapped pages without gap or overlap. */
  ghost predicate TrieInv(s: Cache, a: Arena) {
    && (forall p: nat :: p in s.trie ==> p < TRIE_SLOTS && s.trie[p] in s.spans)
    && (forall p: nat :: p in s.trie && Mine(s, a, s.trie[p]) ==> InSpan(s.spans[s.trie[p]], p))
    && (forall d, p: nat :: Mine(s, a, d) && InSpan(s.spans[d], p) ==> p in s.trie && s.trie[p] == d)
    && (forall p: nat :: p in s.mapped <==> p in s.trie && Mine(s, a, s.trie[p]))
    && s.mapped <= s.paths
  }

  ghost predicate InBucket(s: Cache, c: int, k: nat, d: Desc) {
    && 0 <= c < |s.bins| && BinShape(s.bins[c]) && k < SPAN_NSTATES
    && d in s.bins[c].buckets[k]
  }

  ghost predicate FreeSpan(s: Cache, a: Arena, hand: set<Desc>, d: Desc) {
    Mine(s, a, d) && !s.spans[d].isAlloc && d !in hand
  }

  ghost predicate BinCounts(b: Bin)
    requires BinShape(b)
  {
    && (forall k :: k in b.bits <==> 0 <= k < SPAN_NSTATES && b.buckets[k] != {})
    && b.nspans == |b.buckets[0]| + |b.buckets[1]| + |b.buckets[2]|
  }

  /** A span of this arena is unallocated exactly when it sits in one bucket, the one its class
      and state name; `hand` holds the spans an operation has taken out and not yet put back. */
  ghost predicate BucketsInv(s: Cache, a: Arena, hand: set<Desc>) {
    && (forall c: int, k, d :: InBucket(s, c, k, d) ==>
          FreeSpan(s, a, hand, d) && s.spans[d].szclass == c && s.spans[d].state == k && k != CLEAN)
    && (forall d :: FreeSpan(s, a, hand, d) ==> InBucket(s, s.spans[d].szclass, s.spans[d].state, d))
    && (forall d :: d in hand ==> Mine(s, a, d) && !s.spans[d].isAlloc)
  }

  /** Counts and bitmaps say what is in the buckets. */
  ghost predicate CountsInv(s: Cache) {
    forall c :: 0 <= c < |s.bins| ==> BinShape(s.bins[c]) && BinCounts(s.bins[c])
  }

  ghost predicate BitmapInv(s: Cache) {
    forall c: nat :: BitIs(s.bitmap, c) <==> c < |s.bins| && s.bins[c].bits != {}
  }

  ghost predicate BinsInv(s: Cache, a: Arena, hand: set<Desc>) {
    Shape(s, |a.sizes|) && BucketsInv(s, a, hand) && CountsInv(s) && BitmapInv(s)
  }

  /** Regions do not overlap, are older than the epoch, and are mapped. */
  ghost predicate RegionsInv(s: Cache, a: Arena)
    requires ValidArena(a)
  {
    && (forall g :: g in s.regions ==> g < s.epoch && Placed(a.cfg.pageSize, s.regions[g].addr, s.regions[g].nbytes))
    && (forall g, h, p: nat :: g in s.regions && h in s.regions && InRegion(s.regions[g], p) && InRegion(s.regions[h], p) ==> g == h)
    && (forall g, p: nat :: g in s.regions && InRegion(s.regions[g], p) ==> p in s.mapped)
  }

  ghost predicate Within(sp: Span, r: Region) {
    r.addr <= sp.addr && sp.addr + sp.nbytes <= r.addr + r.nbytes
  }

  /** A span lies in the region it was cut from, which its age names. */
  ghost predicate HomeInv(s: Cache, a: Arena) {
    forall d :: Mine(s, a, d) ==> s.spans[d].age in s.regions && Within(s.spans[d], s.regions[s.spans[d].age])
  }

  /** The age of every mapped page: that of the span it belongs to. */
  ghost function Ages(s: Cache): map<nat, nat> {
    map p | p in s.mapped && p in s.trie && s.trie[p] in s.spans :: s.spans[s.trie[p]].age
  }

  /** Between two pages of one age all pages are mapped, and none is younger. */
  ghost predicate Valley(m: map<nat, nat>) {
    forall p: nat, q: nat, r: nat :: NoRidge(m, p, q, r)
  }

  predicate NoRidge(m: map<nat, nat>, p: nat, q: nat, r: nat) {
    p < q < r && p in m && r in m && m[p] == m[r] ==> q in m && m[q] <= m[p]
  }

  /** Where mappings are merged a joined span has the older age, so a span need not lie in the region
      its age names; but ages never mix again once they have. */
  ghost predicate BlendInv(s: Cache) {
    Valley(Ages(s)) && forall p :: p in Ages(s) ==> Ages(s)[p] < s.epoch
  }

  ghost predicate Adjacent(x: Span, y: Span) {
    x.age == y.age && x.addr + x.nbytes == y.addr
  }

  /** No two neighbours of the same age are both free. */
  ghost predicate CoalescedInv(s: Cache, a: Arena, hand: set<Desc>) {
    forall d, e :: FreeSpan(s, a, hand, d) && FreeSpan(s, a, hand, e) ==> !Adjacent(s.spans[d], s.spans[e])
  }

  /** The origins list has exactly the arena's spans with a record. Its links live in the records,
      so this is what makes the list one that can be walked and changed. */
  ghost predicate ListedInv(s: Cache, a: Arena) {
    && Distinct(s.origins)
    && (forall d :: d in s.origins <==> Mine(s, a, d) && s.spans[d].record.Some?)
    && (!a.unmapOnTermination ==> s.origins == [])
  }

  /** A span that is not there, or has no record, can be pushed. */
  lemma ListedPush(s: Cache, a: Arena, d: Desc)
    requires ListedInv(s, a) && !(Mine(s, a, d) && HasRecord(s, d))
    ensures PushSafe(s, d)
  {
    if s.origins != [] {
      assert s.origins[0] in s.origins;
    }
  }

  /** A record sits on the first span of each region and holds the region's size, and the origins
      list has exactly those spans. */
  ghost predicate OriginsInv(s: Cache, a: Arena) {
    && HomeInv(s, a)
    && (forall d :: Mine(s, a, d) && s.spans[d].age in s.regions ==>
          s.spans[d].record ==
            if a.unmapOnTermination && s.spans[d].addr == s.regions[s.spans[d].age].addr
            then Some(s.regions[s.spans[d].age].nbytes) else None)
    && ListedInv(s, a)
  }

  ghost predicate CoreInv(s: Cache, a: Arena, hand: set<Desc>)
    requires ValidArena(a)
  {
    SpansInv(s, a) && TrieInv(s, a) && BinsInv(s, a, hand)
  }

  /** How ages lie, with mappings kept apart and with mappings merged. */
  ghost predicate ApartInv(s: Cache, a: Arena)
    requires ValidArena(a)
  {
    RegionsInv(s, a) && if a.crossMerge then BlendInv(s) else HomeInv(s, a)
  }

  // ----- pages -----

  lemma PageIsPow2()
    ensures IsPow2(TRIE_PAGE)
  {
    assert Pow2(6) == 64;
    Pow2Add(6, 6);
  }

  lemma Mod4096(a: Arena, x: nat)
    requires ValidArena(a) && x % a.cfg.pageSize == 0
    ensures x % TRIE_PAGE == 0
  {
    PageIsPow2();
    SmallerDivides(TRIE_PAGE, a.cfg.pageSize);
    ModTrans(x, TRIE_PAGE, a.cfg.pageSize);
  }

  /** An insert for a whole-page span touches exactly the pages that start inside it. */
  lemma PagesAre(sp: Span)
    requires sp.addr % TRIE_PAGE == 0 && sp.nbytes % TRIE_PAGE == 0
    ensures forall p: nat :: p in PagesOf(sp) <==> InSpan(sp, p)
  {
  }

  lemma GoodPages(a: Arena, sp: Span)
    requires ValidArena(a) && Placed(a.cfg.pageSize, sp.addr, sp.nbytes)
    ensures forall p: nat :: p in PagesOf(sp) <==> InSpan(sp, p)
    ensures sp.addr % TRIE_PAGE == 0 && sp.nbytes % TRIE_PAGE == 0
  {
    Mod4096(a, sp.addr);
    Mod4096(a, sp.nbytes);
    PagesAre(sp);
  }

  // ----- bins -----

  lemma SetBitmapAt(bitmap: seq<set<nat>>, c: nat, val: bool)
    requires c / 64 < |bitmap|
    ensures forall x: nat :: BitIs(SetBitmap(bitmap, c, val), x) <==> if x == c then val else BitIs(bitmap, x)
  {
    forall x: nat ensures BitIs(SetBitmap(bitmap, c, val), x) <==> if x == c then val else BitIs(bitmap, x) {
      assert x == 64 * (x / 64) + x % 64 && c == 64 * (c / 64) + c % 64;
    }
  }

  /** Two states whose spans differ only in state and allocation flags. */
  ghost predicate SamePlaces(s: Cache, s': Cache) {
    && s'.spans.Keys == s.spans.Keys
    && (forall d :: d in s.spans ==> s'.spans[d] == s.spans[d].(state := s'.spans[d].state, isAlloc := s'.spans[d].isAlloc, isSlab := s'.spans[d].isSlab))
    && s' == s.(spans := s'.spans, bins := s'.bins, bitmap := s'.bitmap)
  }

  ghost predicate StatesInRange(s: Cache, a: Arena) {
    forall d :: Mine(s, a, d) ==> s.spans[d].state < SPAN_NSTATES
  }

  /** The parts of the invariant about places do not depend on states, flags and bins. */
  lemma PlacesKeep(s: Cache, s': Cache, a: Arena)
    requires ValidArena(a) && SamePlaces(s, s') && StatesInRange(s', a)
    ensures SpansInv(s, a) ==> SpansInv(s', a)
    ensures TrieInv(s, a) ==> TrieInv(s', a)
    ensures RegionsInv(s, a) ==> RegionsInv(s', a)
    ensures HomeInv(s, a) ==> HomeInv(s', a)
    ensures BlendInv(s) ==> BlendInv(s')
    ensures OriginsInv(s, a) ==> OriginsInv(s', a)
  {
    hide WellConfigured, SpansInv, TrieInv, RegionsInv, HomeInv, OriginsInv, StatesInRange, BlendInv;
    if SpansInv(s, a) {
      PlacesSpans(s, s', a);
    }
    if TrieInv(s, a) {
      PlacesTrie(s, s', a);
    }
    PlacesRegions(s, s', a);
    SameAges(s, s');
    BlendSame(s, s');
  }

  /** Ages depend on the spans and the trie only. */
  lemma SameAges(s: Cache, s': Cache)
    requires s'.trie == s.trie && s'.mapped == s.mapped && s'.spans.Keys == s.spans.Keys
    requires forall d :: d in s.spans ==> s'.spans[d].age == s.spans[d].age
    ensures Ages(s') == Ages(s)
  {
  }

  lemma BlendSame(s: Cache, s': Cache)
    requires Ages(s') == Ages(s) && s.epoch <= s'.epoch
    ensures BlendInv(s) ==> BlendInv(s')
  {
    hide Ages, Valley;
  }

  lemma PlacesSpans(s: Cache, s': Cache, a: Arena)
    requires ValidArena(a) && SamePlaces(s, s') && StatesInRange(s', a) && SpansInv(s, a)
    ensures SpansInv(s', a)
  {
    hide WellConfigured, Placed, ClassOf;
    forall d | Mine(s', a, d) ensures GoodSpan(a, s'.spans[d]) {
      assert Mine(s, a, d) && GoodSpan(a, s.spans[d]);
    }
  }

  lemma PlacesTrie(s: Cache, s': Cache, a: Arena)
    requires SamePlaces(s, s') && TrieInv(s, a)
    ensures TrieInv(s', a)
  {
    assert forall d :: Mine(s', a, d) <==> Mine(s, a, d);
    assert forall d, p: nat :: d in s.spans ==> (InSpan(s'.spans[d], p) <==> InSpan(s.spans[d], p));
  }

  lemma PlacesRegions(s: Cache, s': Cache, a: Arena)
    requires ValidArena(a) && SamePlaces(s, s')
    ensures RegionsInv(s, a) ==> RegionsInv(s', a)
    ensures HomeInv(s, a) ==> HomeInv(s', a)
    ensures OriginsInv(s, a) ==> OriginsInv(s', a)
  {
    hide WellConfigured, Placed, InRegion;
    assert forall d :: Mine(s', a, d) <==> Mine(s, a, d);
  }

  lemma BinPutBuckets(s: Cache, d: Desc)
    requires d in s.spans && Shape(s, |s.bins|) && 0 <= s.spans[d].szclass < |s.bins|
    ensures Shape(BinPut(s, d), |s.bins|)
    ensures forall c: int, k, e :: InBucket(BinPut(s, d), c, k, e) <==>
      InBucket(s, c, k, e) || (e == d && c == s.spans[d].szclass && k == BinPut(s, d).spans[d].state)
  {
  }

  lemma BinPutCounts(s: Cache, d: Desc)
    requires d in s.spans && Shape(s, |s.bins|) && 0 <= s.spans[d].szclass < |s.bins|
    requires forall k :: !InBucket(s, s.spans[d].szclass, k, d)
    requires CountsInv(s)
    ensures CountsInv(BinPut(s, d))
  {
    hide SetBitmap;
    var c: nat := s.spans[d].szclass;
    var k := BinPut(s, d).spans[d].state;
    assert !InBucket(s, c, k, d);
    assert BinCounts(s.bins[c]);
    assert BinCounts(BinPut(s, d).bins[c]);
  }

  lemma BinPutBitmap(s: Cache, d: Desc)
    requires d in s.spans && Shape(s, |s.bins|) && 0 <= s.spans[d].szclass < |s.bins| && BitmapInv(s)
    ensures BitmapInv(BinPut(s, d))
  {
    SetBitmapAt(s.bitmap, s.spans[d].szclass, true);
    hide SetBitmap, BitIs;
  }

  /** Only `d`'s state and flags differ. */
  ghost predicate OnlyFlagsOf(s: Cache, s': Cache, d: Desc) {
    && SamePlaces(s, s') && d in s.spans
    && forall e :: e in s.spans && e != d ==> s'.spans[e] == s.spans[e]
  }

  /** A span from the hand went into the bucket of its class and state. */
  lemma IntoBucket(s: Cache, s': Cache, a: Arena, d: Desc, hand: set<Desc>)
    requires BucketsInv(s, a, hand) && d in hand && OnlyFlagsOf(s, s', d)
    requires d in s'.spans && !s'.spans[d].isAlloc && s'.spans[d].state != CLEAN
    requires forall c: int, k, e :: InBucket(s', c, k, e) <==>
      InBucket(s, c, k, e) || (e == d && c == s.spans[d].szclass && k == s'.spans[d].state)
    ensures BucketsInv(s', a, hand - {d})
  {
    hide InBucket;
    assert forall e :: Mine(s', a, e) <==> Mine(s, a, e);
  }

  /** A span came out of its bucket into the hand. */
  lemma OutOfBucket(s: Cache, s': Cache, a: Arena, c: nat, k: nat, d: Desc, hand: set<Desc>)
    requires BucketsInv(s, a, hand) && InBucket(s, c, k, d) && OnlyFlagsOf(s, s', d)
    requires d in s'.spans && !s'.spans[d].isAlloc
    requires forall c': int, k', e :: InBucket(s', c', k', e) <==>
      InBucket(s, c', k', e) && !(e == d && c' == c && k' == k)
    ensures BucketsInv(s', a, hand + {d})
  {
    hide InBucket;
    assert forall e :: Mine(s', a, e) <==> Mine(s, a, e);
  }

  lemma BinPutFlags(s: Cache, d: Desc)
    requires d in s.spans && Shape(s, |s.bins|) && 0 <= s.spans[d].szclass < |s.bins|
    ensures OnlyFlagsOf(s, BinPut(s, d), d)
    ensures BinPut(s, d).spans[d].state == if s.spans[d].state == RETAINED then RETAINED else DIRTY
    ensures BinPut(s, d).spans[d].isAlloc == s.spans[d].isAlloc
  {
  }

  /** Putting a span from the hand into its bin. */
  lemma BinPutKeeps(s: Cache, a: Arena, d: Desc, hand: set<Desc>)
    requires BinsInv(s, a, hand) && d in hand && 0 <= s.spans[d].szclass < |s.bins|
    ensures OnlyFlagsOf(s, BinPut(s, d), d) && BinsInv(BinPut(s, d), a, hand - {d})
    ensures BinPut(s, d).spans[d].state in {DIRTY, RETAINED} && !BinPut(s, d).spans[d].isAlloc
  {
    var s' := BinPut(s, d);
    assert d in s.spans && !s.spans[d].isAlloc && d in hand;
    assert forall k :: !InBucket(s, s.spans[d].szclass, k, d);
    hide SetBitmap, BinPut, InBucket, CountsInv, BitmapInv, OnlyFlagsOf;
    BinPutFlags(s, d);
    BinPutBuckets(s, d);
    BinPutCounts(s, d);
    BinPutBitmap(s, d);
    IntoBucket(s, s', a, d, hand);
  }

  lemma BucketFacts(s: Cache, a: Arena, c: nat, k: nat, d: Desc, hand: set<Desc>)
    requires BinsInv(s, a, hand) && InBucket(s, c, k, d)
    ensures c < |s.bins| && k < SPAN_NSTATES && BinShape(s.bins[c]) && d in s.bins[c].buckets[k]
    ensures FreeSpan(s, a, hand, d) && s.spans[d].state == k && k != CLEAN
  {
    hide SetBitmap, CountsInv, BitmapInv;
  }

  lemma UnbinFlags(s: Cache, c: nat, k: nat, d: Desc, epochMin: nat)
    requires d in s.spans && Shape(s, |s.bins|) && c < |s.bins| && k < SPAN_NSTATES && s.bins[c].nspans > 0
    requires k != CLEAN && !s.spans[d].isAlloc && s.spans[d].state == k
    ensures var s' := Unbin(s, c, k, d, epochMin);
      OnlyFlagsOf(s, s', d) && s'.spans[d].state == DIRTY && !s'.spans[d].isAlloc
  {
  }

  lemma UnbinBuckets(s: Cache, c: nat, k: nat, d: Desc, epochMin: nat)
    requires d in s.spans && Shape(s, |s.bins|) && c < |s.bins| && k < SPAN_NSTATES && s.bins[c].nspans > 0
    ensures Shape(Unbin(s, c, k, d, epochMin), |s.bins|)
    ensures forall c': int, k', e :: InBucket(Unbin(s, c, k, d, epochMin), c', k', e) <==>
      InBucket(s, c', k', e) && !(e == d && c' == c && k' == k)
  {
  }

  lemma UnbinCounts(s: Cache, c: nat, k: nat, d: Desc, epochMin: nat)
    requires d in s.spans && Shape(s, |s.bins|) && InBucket(s, c, k, d) && CountsInv(s) && BitmapInv(s)
    ensures s.bins[c].nspans > 0
    ensures CountsInv(Unbin(s, c, k, d, epochMin)) && BitmapInv(Unbin(s, c, k, d, epochMin))
  {
    assert BinCounts(s.bins[c]);
    UnbinOne(s, c, k, d, epochMin);
    UnbinBitmap(s, c, k, d, epochMin);
  }

  lemma UnbinOne(s: Cache, c: nat, k: nat, d: Desc, epochMin: nat)
    requires d in s.spans && Shape(s, |s.bins|) && InBucket(s, c, k, d) && BinCounts(s.bins[c]) && s.bins[c].nspans > 0
    ensures var b := Unbin(s, c, k, d, epochMin).bins[c]; BinShape(b) && BinCounts(b)
  {
    hide SetBitmap;
    var (b, b') := (s.bins[c], Unbin(s, c, k, d, epochMin).bins[c]);
    assert |b'.buckets[k]| == |b.buckets[k]| - 1;
    assert forall j :: 0 <= j < SPAN_NSTATES && j != k ==> b'.buckets[j] == b.buckets[j];
  }

  lemma UnbinBitmap(s: Cache, c: nat, k: nat, d: Desc, epochMin: nat)
    requires d in s.spans && Shape(s, |s.bins|) && InBucket(s, c, k, d) && BinCounts(s.bins[c]) && s.bins[c].nspans > 0
    requires BitmapInv(s)
    ensures BitmapInv(Unbin(s, c, k, d, epochMin))
  {
    hide SetBitmap, BitIs;
    assert k in s.bins[c].bits;
    SetBitmapAt(s.bitmap, c, false);
  }

  /** Taking a span out of its bucket puts it in hand. */
  lemma UnbinKeeps(s: Cache, a: Arena, c: nat, k: nat, d: Desc, epochMin: nat, hand: set<Desc>)
    requires BinsInv(s, a, hand) && InBucket(s, c, k, d)
    ensures d in s.spans && s.bins[c].nspans > 0 && d !in hand
    ensures var s' := Unbin(s, c, k, d, epochMin);
      && OnlyFlagsOf(s, s', d) && BinsInv(s', a, hand + {d})
      && s'.spans[d].state == DIRTY && !s'.spans[d].isAlloc
  {
    hide SetBitmap, Unbin, InBucket, CountsInv, BitmapInv, BinShape, BitIs;
    BucketFacts(s, a, c, k, d, hand);
    UnbinCounts(s, c, k, d, epochMin);
    var s' := Unbin(s, c, k, d, epochMin);
    UnbinFlags(s, c, k, d, epochMin);
    UnbinBuckets(s, c, k, d, epochMin);
    OutOfBucket(s, s', a, c, k, d, hand);
  }
}
