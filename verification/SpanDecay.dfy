/** scache_decay: in every bin the oldest of the spans that lay idle for a whole epoch are
    retained. */
module SpanDecay {
  import opened SpanState
  import opened SpanInvariants
  import opened SpanOps
  import opened SpanGet
  import opened SpanMerge

  /** bin_get_span, span_set_state and bin_put_span for one span of bucket `k`. */
  function MoveOne(s: Cache, c: nat, k: nat, d: Desc): Cache
    requires d in s.spans && Shape(s, |s.bins|) && c < |s.bins| && k < RETAINED && s.bins[c].nspans > 0
  {
    var b := s.bins[c];
    var rest := b.buckets[k] - {d};
    var bits := (if rest == {} then b.bits - {k} else b.bits) + {RETAINED};
    var left := b.nspans - 1;
    s.(spans := s.spans[d := s.spans[d].(state := RETAINED)],
       bins := s.bins[c := b.(buckets := b.buckets[k := rest][RETAINED := b.buckets[RETAINED] + {d}], bits := bits,
                              epochMin := if b.epochMin > left then left else b.epochMin)])
  }

  /** Whether the first nonempty bucket holds spans that can still decay. */
  ghost predicate CanDecay(s: Cache, c: nat) {
    c < |s.bins| && s.bins[c].bits != {} && FirstBucket(s.bins[c].bits) != RETAINED
  }

  lemma DecayReady(s: Cache, a: Arena, c: nat)
    requires BinsInv(s, a, {}) && CanDecay(s, c)
    ensures Poppable(s, c) && FirstBucket(s.bins[c].bits) == DIRTY
    ensures InBucket(s, c, DIRTY, FirstOf(s, c)) && IsFirst(s, s.bins[c].buckets[DIRTY], FirstOf(s, c))
  {
    assert BitIs(s.bitmap, c);
    PopReady(s, a, c, {});
    var k := FirstBucket(s.bins[c].bits);
    assert InBucket(s, c, k, FirstOf(s, c));
  }

  lemma MoveStates(s: Cache, c: nat, k: nat, d: Desc)
    requires d in s.spans && Shape(s, |s.bins|) && c < |s.bins| && k < RETAINED && s.bins[c].nspans > 0
    ensures var s' := MoveOne(s, c, k, d);
      && OnlyStates(s, s') && OnlyFlagsOf(s, s', d) && s'.spans[d].state == RETAINED && s'.bitmap == s.bitmap
  {
  }

  lemma MoveBuckets(s: Cache, c: nat, k: nat, d: Desc)
    requires d in s.spans && Shape(s, |s.bins|) && c < |s.bins| && k < RETAINED && s.bins[c].nspans > 0
    ensures var s' := MoveOne(s, c, k, d);
      && Shape(s', |s.bins|)
      && forall c': int, k', e :: InBucket(s', c', k', e) <==>
           (InBucket(s, c', k', e) && !(c' == c && k' == k && e == d)) || (c' == c && k' == RETAINED && e == d)
  {
  }

  lemma MoveCounts(s: Cache, c: nat, d: Desc)
    requires d in s.spans && InBucket(s, c, DIRTY, d) && !InBucket(s, c, RETAINED, d)
    requires Shape(s, |s.bins|) && CountsInv(s) && BitmapInv(s) && s.bins[c].nspans > 0
    ensures CountsInv(MoveOne(s, c, DIRTY, d)) && BitmapInv(MoveOne(s, c, DIRTY, d))
  {
    var s' := MoveOne(s, c, DIRTY, d);
    hide BitIs, BinCounts;
    assert s'.bins[c].bits != {} by { assert RETAINED in s'.bins[c].bits; }
    assert s.bins[c].bits != {} by { BitsNonempty(s.bins[c], DIRTY, d); }
    MoveBinCounts(s.bins[c], s'.bins[c], d);
    assert forall i :: 0 <= i < |s.bins| && i != c ==> s'.bins[i] == s.bins[i];
  }

  lemma BitsNonempty(b: Bin, k: nat, d: Desc)
    requires BinShape(b) && BinCounts(b) && k < SPAN_NSTATES && d in b.buckets[k]
    ensures b.bits != {}
  {
    assert k in b.bits;
  }

  lemma MoveBinCounts(b: Bin, b': Bin, d: Desc)
    requires BinShape(b) && BinCounts(b) && d in b.buckets[DIRTY] && d !in b.buckets[RETAINED]
    requires b'.buckets == b.buckets[DIRTY := b.buckets[DIRTY] - {d}][RETAINED := b.buckets[RETAINED] + {d}]
    requires b'.bits == (if b.buckets[DIRTY] - {d} == {} then b.bits - {DIRTY} else b.bits) + {RETAINED} && b'.nspans == b.nspans
    ensures BinShape(b') && BinCounts(b')
  {
    assert |b'.buckets[DIRTY]| == |b.buckets[DIRTY]| - 1 && |b'.buckets[RETAINED]| == |b.buckets[RETAINED]| + 1;
    assert b'.buckets[CLEAN] == b.buckets[CLEAN];
  }

  lemma Moved(s: Cache, s': Cache, a: Arena, c: nat, k: nat, d: Desc)
    requires BucketsInv(s, a, {}) && InBucket(s, c, k, d) && OnlyStates(s, s') && OnlyFlagsOf(s, s', d)
    requires s'.spans[d].state == RETAINED && k != RETAINED
    requires forall c': int, k', e :: InBucket(s', c', k', e) <==>
      (InBucket(s, c', k', e) && !(c' == c && k' == k && e == d)) || (c' == c && k' == RETAINED && e == d)
    ensures BucketsInv(s', a, {})
  {
    assert FreeSpan(s, a, {}, d) && s.spans[d].szclass == c && s.spans[d].state == k;
    hide InBucket;
    assert forall e :: FreeSpan(s', a, {}, e) <==> FreeSpan(s, a, {}, e);
  }

  lemma StatesCoalesced(s: Cache, s': Cache, a: Arena, hand: set<Desc>)
    requires OnlyStates(s, s') && CoalescedInv(s, a, hand)
    ensures CoalescedInv(s', a, hand)
  {
    assert forall e :: FreeSpan(s', a, hand, e) <==> FreeSpan(s, a, hand, e);
    hide FreeSpan;
  }

  lemma MoveKeeps(s: Cache, a: Arena, c: nat)
    requires ValidArena(a) && CoreInv(s, a, {}) && CanDecay(s, c)
    ensures Poppable(s, c) && FirstBucket(s.bins[c].bits) == DIRTY
    ensures var s' := MoveOne(s, c, DIRTY, FirstOf(s, c));
      && CoreInv(s', a, {}) && OnlyStates(s, s')
      && (NeatInv(s, a, {}) ==> NeatInv(s', a, {})) && (OriginsInv(s, a) ==> OriginsInv(s', a))
  {
    hide WellConfigured, SpansInv, TrieInv, MoveOne, CanDecay, OriginsInv, CoalescedInv, RegionsInv, HomeInv;
    DecayReady(s, a, c);
    var d := FirstOf(s, c);
    var s' := MoveOne(s, c, DIRTY, d);
    MoveStates(s, c, DIRTY, d);
    MoveBuckets(s, c, DIRTY, d);
    MoveCounts(s, c, d);
    Moved(s, s', a, c, DIRTY, d);
    assert BinsInv(s', a, {});
    hide BinsInv, FirstOf, Poppable, OnlyStates;
    StatesStay(s, s', a, d);
    PlacesKeep(s, s', a);
    if CoalescedInv(s, a, {}) {
      StatesCoalesced(s, s', a, {});
    }
  }

  // ----- bin_decay -----

  ghost function DecayLoop(s: Cache, a: Arena, c: nat, n: nat): (s': Cache)
    requires ValidArena(a) && CoreInv(s, a, {}) && c < |a.sizes|
    decreases n
  {
    if n == 0 || !CanDecay(s, c) then s
    else
      MoveKeeps(s, a, c);
      DecayLoop(MoveOne(s, c, DIRTY, FirstOf(s, c)), a, c, n - 1)
  }

  lemma {:induction false} DecayLoopKeeps(s: Cache, a: Arena, c: nat, n: nat)
    requires ValidArena(a) && CoreInv(s, a, {}) && c < |a.sizes|
    ensures var s' := DecayLoop(s, a, c, n);
      && CoreInv(s', a, {}) && OnlyStates(s, s')
      && (NeatInv(s, a, {}) ==> NeatInv(s', a, {})) && (OriginsInv(s, a) ==> OriginsInv(s', a))
    decreases n
  {
    hide WellConfigured, CoreInv, MoveOne, CanDecay, OriginsInv, NeatInv;
    if n > 0 && CanDecay(s, c) {
      MoveKeeps(s, a, c);
      DecayLoopKeeps(MoveOne(s, c, DIRTY, FirstOf(s, c)), a, c, n - 1);
    }
  }

  /** What decaying bin `c` for `n` rounds comes to: the `n` oldest dirty spans, or all of them if
      there are fewer, go over to the retained ones, and nothing else happens to the bin. */
  ghost predicate Decayed(s: Cache, s': Cache, c: nat, n: nat) {
    && c < |s.bins| == |s'.bins| && BinShape(s.bins[c]) && BinShape(s'.bins[c])
    && (var dirty := s.bins[c].buckets[DIRTY]; var left := s'.bins[c].buckets[DIRTY];
        && left <= dirty && |dirty| - |left| == (if n < |dirty| then n else |dirty|)
        && s'.bins[c].buckets[RETAINED] == s.bins[c].buckets[RETAINED] + (dirty - left)
        && s'.bins[c].buckets[CLEAN] == s.bins[c].buckets[CLEAN] && s'.bins[c].nspans == s.bins[c].nspans
        && (forall x, y :: x in dirty - left && y in left ==>
              && x in s.spans && y in s.spans && s.spans[x].age <= s.spans[y].age
              && (s.spans[x].age == s.spans[y].age ==> s.spans[x].addr < s.spans[y].addr)))
  }

  /** Two spans of an arena are ordered one way or the other. */
  lemma BeforeTotal(s: Cache, a: Arena, x: Desc, y: Desc)
    requires ValidArena(a) && SpansInv(s, a) && TrieInv(s, a) && Mine(s, a, x) && Mine(s, a, y) && x != y
    ensures Before(s.spans[x], s.spans[y]) || Before(s.spans[y], s.spans[x])
  {
    hide WellConfigured, ClassOf, TrieInv;
    assert GoodSpan(a, s.spans[x]);
    NotInside(s, a, x, y);
  }

  /** The first dirty span comes before all the others. */
  lemma FirstBefore(s: Cache, a: Arena, c: nat)
    requires ValidArena(a) && CoreInv(s, a, {}) && CanDecay(s, c)
    ensures Poppable(s, c) && FirstOf(s, c) in s.bins[c].buckets[DIRTY] && FirstOf(s, c) in s.spans
    ensures forall y :: y in s.bins[c].buckets[DIRTY] && y != FirstOf(s, c) ==>
      y in s.spans && Before(s.spans[FirstOf(s, c)], s.spans[y])
  {
    DecayReady(s, a, c);
    var d := FirstOf(s, c);
    hide WellConfigured, SpansInv, TrieInv, CountsInv, BitmapInv, CanDecay, FirstOf;
    forall y | y in s.bins[c].buckets[DIRTY] ensures y in s.spans && (y != d ==> Before(s.spans[d], s.spans[y])) {
      assert InBucket(s, c, DIRTY, y) && InBucket(s, c, DIRTY, d);
      if y != d {
        BeforeTotal(s, a, d, y);
      }
    }
  }

  lemma NothingLeft(s: Cache, a: Arena, c: nat, n: nat)
    requires BinsInv(s, a, {}) && c < |a.sizes| && (n == 0 || !CanDecay(s, c))
    ensures Decayed(s, s, c, n)
  {
    assert BinCounts(s.bins[c]);
    var dirty := s.bins[c].buckets[DIRTY];
    assert dirty - dirty == {};
  }

  /** One more round before the others. */
  lemma RoundBefore(s: Cache, s1: Cache, s': Cache, c: nat, n: nat, d: Desc)
    requires OnlyStates(s, s1) && Decayed(s1, s', c, n) && c < |s.bins| == |s1.bins| && BinShape(s.bins[c]) && d in s.spans
    requires d in s.bins[c].buckets[DIRTY]
    requires s1.bins[c].buckets == s.bins[c].buckets[DIRTY := s.bins[c].buckets[DIRTY] - {d}][RETAINED := s.bins[c].buckets[RETAINED] + {d}]
    requires s1.bins[c].nspans == s.bins[c].nspans
    requires forall y :: y in s.bins[c].buckets[DIRTY] && y != d ==> y in s.spans && Before(s.spans[d], s.spans[y])
    ensures Decayed(s, s', c, n + 1)
  {
    var dirty, dirty1, left := s.bins[c].buckets[DIRTY], s1.bins[c].buckets[DIRTY], s'.bins[c].buckets[DIRTY];
    assert dirty1 == dirty - {d} && |dirty1| == |dirty| - 1;
    assert dirty - left == {d} + (dirty1 - left);
    assert s.bins[c].buckets[RETAINED] + {d} + (dirty1 - left) == s.bins[c].buckets[RETAINED] + (dirty - left);
    forall x, y | x in dirty - left && y in left
      ensures x in s.spans && y in s.spans && Before(s.spans[x], s.spans[y])
    {
      if x != d {
        assert x in dirty1 - left;
      }
    }
  }

  lemma MoveBin(s: Cache, c: nat, d: Desc)
    requires d in s.spans && Shape(s, |s.bins|) && c < |s.bins| && s.bins[c].nspans > 0
    ensures var b := s.bins[c]; var s' := MoveOne(s, c, DIRTY, d);
      && |s'.bins| == |s.bins| && s'.bins[c].nspans == b.nspans
      && s'.bins[c].buckets == b.buckets[DIRTY := b.buckets[DIRTY] - {d}][RETAINED := b.buckets[RETAINED] + {d}]
  {
  }

  /** The rounds of bin_decay do what `Decayed` says. */
  lemma {:induction false} DecayLoopDoes(s: Cache, a: Arena, c: nat, n: nat)
    requires ValidArena(a) && CoreInv(s, a, {}) && c < |a.sizes|
    ensures Decayed(s, DecayLoop(s, a, c, n), c, n)
    decreases n
  {
    hide WellConfigured, SpansInv, TrieInv, BinsInv, CanDecay, Decayed, Before, MoveOne;
    if n == 0 || !CanDecay(s, c) {
      NothingLeft(s, a, c, n);
    } else {
      MoveKeeps(s, a, c);
      FirstBefore(s, a, c);
      var d := FirstOf(s, c);
      MoveBin(s, c, d);
      hide FirstOf;
      var s1 := MoveOne(s, c, DIRTY, d);
      DecayLoopDoes(s1, a, c, n - 1);
      hide OnlyStates;
      RoundBefore(s, s1, DecayLoop(s1, a, c, n - 1), c, n - 1, d);
    }
  }

  lemma DecayLoopStep(s: Cache, a: Arena, c: nat, n: nat)
    requires ValidArena(a) && CoreInv(s, a, {}) && c < |a.sizes| && n > 0 && CanDecay(s, c)
    ensures Poppable(s, c) && FirstBucket(s.bins[c].bits) == DIRTY
    ensures var s' := MoveOne(s, c, DIRTY, FirstOf(s, c));
      CoreInv(s', a, {}) && DecayLoop(s, a, c, n) == DecayLoop(s', a, c, n - 1)
  {
    hide WellConfigured, CoreInv, CanDecay, MoveOne;
    MoveKeeps(s, a, c);
  }

  lemma DecayLoopStop(s: Cache, a: Arena, c: nat, n: nat)
    requires ValidArena(a) && CoreInv(s, a, {}) && c < |a.sizes| && (n == 0 || !CanDecay(s, c))
    ensures DecayLoop(s, a, c, n) == s
  {
    hide WellConfigured, CoreInv, CanDecay, MoveOne;
  }

  /** Other bins, and spans of other bins, stay as they are. */
  ghost predicate OnlyBin(s: Cache, s': Cache, c: nat) {
    && OnlyStates(s, s') && |s'.bins| == |s.bins| && s'.bitmap == s.bitmap
    && (forall i :: 0 <= i < |s.bins| && i != c ==> s'.bins[i] == s.bins[i])
    && (forall d :: d in s.spans && s.spans[d].szclass != c ==> s'.spans[d] == s.spans[d])
  }

  lemma MoveOnly(s: Cache, c: nat, d: Desc)
    requires d in s.spans && Shape(s, |s.bins|) && c < |s.bins| && s.bins[c].nspans > 0 && s.spans[d].szclass == c
    ensures OnlyBin(s, MoveOne(s, c, DIRTY, d), c)
  {
  }

  lemma OnlyBinTrans(s: Cache, s1: Cache, s': Cache, c: nat)
    requires OnlyBin(s, s1, c) && OnlyBin(s1, s', c)
    ensures OnlyBin(s, s', c)
  {
  }

  lemma FirstInBin(s: Cache, a: Arena, c: nat)
    requires ValidArena(a) && CoreInv(s, a, {}) && CanDecay(s, c)
    ensures Poppable(s, c) && FirstOf(s, c) in s.spans && s.spans[FirstOf(s, c)].szclass == c
  {
    hide WellConfigured;
    DecayReady(s, a, c);
  }

  lemma {:induction false} DecayLoopOnly(s: Cache, a: Arena, c: nat, n: nat)
    requires ValidArena(a) && CoreInv(s, a, {}) && c < |a.sizes|
    ensures OnlyBin(s, DecayLoop(s, a, c, n), c)
    decreases n
  {
    hide WellConfigured, CoreInv, CanDecay, FirstOf, MoveOne, OnlyBin;
    if n == 0 || !CanDecay(s, c) {
      SameBin(s, c);
    } else {
      MoveKeeps(s, a, c);
      FirstInBin(s, a, c);
      var d := FirstOf(s, c);
      var s1 := MoveOne(s, c, DIRTY, d);
      MoveOnly(s, c, d);
      DecayLoopOnly(s1, a, c, n - 1);
      OnlyBinTrans(s, s1, DecayLoop(s1, a, c, n - 1), c);
    }
  }

  lemma SameBin(s: Cache, c: nat)
    ensures OnlyBin(s, s, c)
  {
  }

  // ----- scache_decay -----

  /** The count is written back. */
  function SetEpochMin(s: Cache, c: nat): Cache
    requires c < |s.bins|
  {
    s.(bins := s.bins[c := s.bins[c].(epochMin := s.bins[c].nspans)])
  }

  lemma SetEpochMinKeeps(s: Cache, a: Arena, c: nat)
    requires ValidArena(a) && CoreInv(s, a, {}) && c < |s.bins|
    ensures var s' := SetEpochMin(s, c);
      && CoreInv(s', a, {}) && OnlyBin(s, s', c)
      && (NeatInv(s, a, {}) ==> NeatInv(s', a, {})) && (OriginsInv(s, a) ==> OriginsInv(s', a))
  {
    SetEpochMinIs(s, c);
    hide WellConfigured, SpansInv, TrieInv, RegionsInv, HomeInv, OriginsInv, CoalescedInv, SetEpochMin;
    SetEpochMinBins(s, a, c);
    hide BinsInv, OnlyBin;
    InRange(s, a, {});
    PlacesKeep(s, SetEpochMin(s, c), a);
    if CoalescedInv(s, a, {}) {
      StatesCoalesced(s, SetEpochMin(s, c), a, {});
    }
  }

  lemma SetEpochMinIs(s: Cache, c: nat)
    requires c < |s.bins|
    ensures var s' := SetEpochMin(s, c); OnlyBin(s, s', c) && s'.spans == s.spans && SamePlaces(s, s') && OnlyStates(s, s')
  {
  }

  lemma SetEpochMinBins(s: Cache, a: Arena, c: nat)
    requires BinsInv(s, a, {}) && c < |s.bins|
    ensures BinsInv(SetEpochMin(s, c), a, {})
  {
    var s' := SetEpochMin(s, c);
    assert forall i: int, k, d :: InBucket(s', i, k, d) <==> InBucket(s, i, k, d);
    assert CountsInv(s') by {
      hide BucketsInv, BitmapInv, InBucket;
      forall i | 0 <= i < |s.bins| ensures BinShape(s'.bins[i]) && BinCounts(s'.bins[i]) {
        assert BinShape(s.bins[i]) && BinCounts(s.bins[i]);
      }
    }
    assert BitmapInv(s');
    hide InBucket, CountsInv, BitmapInv;
  }

  /** bin_decay: the number of rounds is a 32-bit copy of the epoch's least count. */
  ghost function DecayBin(s: Cache, a: Arena, c: nat): (s': Cache)
    requires ValidArena(a) && CoreInv(s, a, {}) && c < |a.sizes|
  {
    if !a.hasMadvise then s
    else
      DecayLoopKeeps(s, a, c, s.bins[c].epochMin % UINT32_LIMIT);
      SetEpochMin(DecayLoop(s, a, c, s.bins[c].epochMin % UINT32_LIMIT), c)
  }

  lemma DecayBinKeeps(s: Cache, a: Arena, c: nat)
    requires ValidArena(a) && CoreInv(s, a, {}) && c < |a.sizes|
    ensures var s' := DecayBin(s, a, c);
      && CoreInv(s', a, {}) && OnlyBin(s, s', c)
      && (NeatInv(s, a, {}) ==> NeatInv(s', a, {})) && (OriginsInv(s, a) ==> OriginsInv(s', a))
  {
    hide WellConfigured, SpansInv, TrieInv, DecayLoop, SetEpochMin, OriginsInv, NeatInv, OnlyBin, OnlyStates;
    SameBin(s, c);
    if a.hasMadvise {
      var n := s.bins[c].epochMin % UINT32_LIMIT;
      DecayLoopKeeps(s, a, c, n);
      DecayLoopOnly(s, a, c, n);
      var s1 := DecayLoop(s, a, c, n);
      SetEpochMinKeeps(s1, a, c);
      OnlyBinTrans(s, s1, SetEpochMin(s1, c), c);
    }
  }

  /** All bins from `c` on. */
  ghost function DecayFrom(s: Cache, a: Arena, c: nat): (s': Cache)
    requires ValidArena(a) && CoreInv(s, a, {}) && c <= |a.sizes|
    decreases |a.sizes| - c
  {
    if c == |a.sizes| then s
    else
      DecayBinKeeps(s, a, c);
      DecayFrom(DecayBin(s, a, c), a, c + 1)
  }

  ghost function Decay(s: Cache, a: Arena): Cache
    requires ValidArena(a) && CoreInv(s, a, {})
  {
    DecayFrom(s, a, 0)
  }

  lemma {:induction false} DecayFromKeeps(s: Cache, a: Arena, c: nat)
    requires ValidArena(a) && CoreInv(s, a, {}) && c <= |a.sizes|
    ensures var s' := DecayFrom(s, a, c);
      && CoreInv(s', a, {}) && OnlyStates(s, s')
      && (NeatInv(s, a, {}) ==> NeatInv(s', a, {})) && (OriginsInv(s, a) ==> OriginsInv(s', a))
    decreases |a.sizes| - c
  {
    hide WellConfigured, CoreInv, DecayBin, OriginsInv, NeatInv;
    if c < |a.sizes| {
      DecayBinKeeps(s, a, c);
      DecayFromKeeps(DecayBin(s, a, c), a, c + 1);
    }
  }

  /** The bin after its turn, and the count written back. */
  ghost predicate BinDecayed(s: Cache, s': Cache, a: Arena, c: nat) {
    c < |s.bins| == |s'.bins| &&
    if a.hasMadvise then Decayed(s, s', c, s.bins[c].epochMin % UINT32_LIMIT) && s'.bins[c].epochMin == s.bins[c].nspans
    else s'.bins[c] == s.bins[c]
  }

  lemma DecayBinDoes(s: Cache, a: Arena, c: nat)
    requires ValidArena(a) && CoreInv(s, a, {}) && c < |a.sizes|
    ensures BinDecayed(s, DecayBin(s, a, c), a, c)
  {
    hide WellConfigured, SpansInv, TrieInv, DecayLoop, OnlyStates;
    if a.hasMadvise {
      var n := s.bins[c].epochMin % UINT32_LIMIT;
      DecayLoopKeeps(s, a, c, n);
      DecayLoopDoes(s, a, c, n);
      hide BinsInv, Before;
    }
  }

  /** Other bins' turns do not matter to a bin. */
  lemma BinDecayedStays(s: Cache, s1: Cache, s': Cache, a: Arena, i: nat)
    requires OnlyStates(s, s1) && i < |s.bins| == |s1.bins| && s1.bins[i] == s.bins[i]
    ensures BinDecayed(s1, s', a, i) ==> BinDecayed(s, s', a, i)
  {
  }

  lemma BinDecayedAfter(s: Cache, s1: Cache, s': Cache, a: Arena, i: nat)
    requires OnlyStates(s1, s') && i < |s.bins| == |s1.bins| == |s'.bins| && s'.bins[i] == s1.bins[i]
    ensures BinDecayed(s, s1, a, i) ==> BinDecayed(s, s', a, i)
  {
  }

  /** Every bin gets its turn, once. */
  lemma {:induction false} DecayFromDoes(s: Cache, a: Arena, c: nat)
    requires ValidArena(a) && CoreInv(s, a, {}) && c <= |a.sizes|
    ensures var s' := DecayFrom(s, a, c);
      && |s'.bins| == |s.bins| == |a.sizes|
      && (forall i :: 0 <= i < c ==> s'.bins[i] == s.bins[i])
      && (forall i :: c <= i < |a.sizes| ==> BinDecayed(s, s', a, i))
    decreases |a.sizes| - c
  {
    hide WellConfigured, SpansInv, TrieInv, BucketsInv, CountsInv, BitmapInv, DecayBin, BinDecayed;
    if c < |a.sizes| {
      DecayBinKeeps(s, a, c);
      DecayBinDoes(s, a, c);
      var s1 := DecayBin(s, a, c);
      DecayFromDoes(s1, a, c + 1);
      DecayFromKeeps(s1, a, c + 1);
      var s' := DecayFrom(s1, a, c + 1);
      hide OnlyStates;
      BinDecayedAfter(s, s1, s', a, c);
      forall i | c < i < |a.sizes| ensures BinDecayed(s, s', a, i) {
        BinDecayedStays(s, s1, s', a, i);
      }
    }
  }

  lemma DecayDoes(s: Cache, a: Arena)
    requires ValidArena(a) && CoreInv(s, a, {})
    ensures forall c :: 0 <= c < |a.sizes| ==> BinDecayed(s, Decay(s, a), a, c)
  {
    DecayFromDoes(s, a, 0);
  }
}
