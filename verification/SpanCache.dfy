/** The span cache itself: an object whose fields the operations update in place, one branch and
    one loop at a time. Every operation is proved to compute the function of the same name. */
module SpanCache {
  import opened Bits
  import opened SizeClasses
  import opened Lists
  import opened SpanState
  import opened SpanInvariants
  import opened SpanSteps
  import opened SpanOps
  import opened SpanGet
  import opened SpanMerge
  import opened SpanPut
  import opened SpanAligned
  import opened SpanDecay
  import opened SpanRecords
  import opened SpanRuns
  import opened SpanResults
  import opened OriginLinks

  /** The index of the lowest one-bit: __builtin_ctzll. */
  method CountTrailingZeros(word: set<nat>) returns (b: nat)
    requires word != {} && forall x :: x in word ==> x < 64
    ensures b in word && forall x :: x in word ==> b <= x
  {
    b := 0;
    ghost var some :| some in word;
    while b !in word
      invariant b <= some && forall x :: x in word ==> b <= x
      decreases some - b
    {
      b := b + 1;
    }
  }

  /** The bits from `b` up: what `& (~0ULL << b)` leaves. */
  function FromBit(word: set<nat>, b: nat): set<nat> {
    set x | x in word && x >= b
  }

  class Scache {
    const a: Arena
    const bins: array<Bin>
    const bitmap: array<set<nat>>
    var spans: map<Desc, Span>
    var trie: map<nat, Desc>
    var paths: set<nat>
    var head: Option<Desc>
    var tail: Option<Desc>
    var coords: map<Desc, Coord>
    var epoch: nat
    ghost var origins: seq<Desc>
    ghost var mapped: set<nat>
    ghost var regions: map<nat, Region>

    ghost function State(): Cache
      reads this, bins, bitmap
    {
      Cache(spans, trie, paths, bins[..], bitmap[..], origins, epoch, mapped, regions)
    }

    /** Words have 64 bits. */
    ghost predicate Words()
      reads bitmap
    {
      forall w, x :: 0 <= w < bitmap.Length && x in bitmap[w] ==> x < 64
    }

    /** The list of origins hangs together, as far as its spans have records. */
    ghost predicate Linked()
      reads this
    {
      InRecords(spans, coords) && Chained(origins, head, tail, coords)
    }

    ghost predicate Core(hand: set<Desc>)
      reads this, bins, bitmap
    {
      ValidArena(a) && Words() && CoreInv(State(), a, hand)
    }

    /** scache_init. Other arenas' spans, and the links of theirs, are already there. */
    constructor (arena: Arena, spans0: map<Desc, Span>, trie0: map<nat, Desc>, paths0: set<nat>, coords0: map<Desc, Coord>)
      requires InRecords(spans0, coords0)
      ensures a == arena && fresh(bins) && fresh(bitmap)
      ensures State() == Init(arena, spans0, trie0, paths0) && Words() && Linked()
    {
      a := arena;
      bins := new Bin[|arena.sizes|](_ => Bin([{}, {}, {}], 0, 0, {}));
      bitmap := new set<nat>[(|arena.sizes| + 63) / 64](_ => {});
      spans, trie, paths, coords := spans0, trie0, paths0, coords0;
      head, tail, origins, epoch := None, None, [], 0;
      mapped, regions := {}, map[];
      new;
      assert bins[..] == Init(arena, spans0, trie0, paths0).bins;
      assert bitmap[..] == Init(arena, spans0, trie0, paths0).bitmap;
    }

    // ----- the class bitmap -----

    /** scache_set_bitmap. */
    method SetBit(c: nat, val: bool)
      requires Words() && c / 64 < bitmap.Length
      modifies bitmap
      ensures Words() && State() == old(State()).(bitmap := SetBitmap(old(bitmap[..]), c, val))
    {
      bitmap[c / 64] := if val then bitmap[c / 64] + {c % 64} else bitmap[c / 64] - {c % 64};
    }

    /** scache_find_nonempty_bin: first the rest of the request's word, then word by word. */
    method FindNonemptyBin(c: nat) returns (idx: int, over: bool)
      requires Words() && c < bins.Length && bitmap.Length == (bins.Length + 63) / 64
      requires forall x: nat :: BitIs(bitmap[..], x) ==> x < bins.Length
      ensures idx == FindBin(bitmap[..], bins.Length, c) && over == (idx > c)
    {
      var word := FromBit(bitmap[c / 64], c % 64);
      if word != {} {
        var b := CountTrailingZeros(word);
        idx := c / 64 * 64 + b;
        over := idx > c;
        assert forall x :: x in bitmap[c / 64] && c <= c / 64 * 64 + x ==> x in word;
        FirstInWord(bitmap[..], bins.Length, c, c / 64, b);
        return;
      }
      var i := c / 64 + 1;
      NoneInRest(bitmap[..], c);
      while i < bitmap.Length
        invariant c / 64 < i <= bitmap.Length
        invariant forall x: nat :: c <= x < 64 * i ==> !BitIs(bitmap[..], x)
      {
        word := bitmap[i];
        if word != {} {
          var b := CountTrailingZeros(word);
          idx := i * 64 + b;
          over := true;
          FirstInWord(bitmap[..], bins.Length, c, i, b);
          return;
        }
        NoneInWord(bitmap[..], c, i);
        i := i + 1;
      }
      FindNone(bitmap[..], bins.Length, c);
      return -1, false;
    }

    // ----- bins -----

    ghost predicate Shaped()
      reads this, bins, bitmap
    {
      Words() && Shape(State(), bins.Length)
    }

    /** bucket_pop's choice: the least by age and address. PairingHeap has the heap that makes it. */
    method FirstIn(bucket: set<Desc>) returns (d: Desc)
      requires bucket != {} && bucket <= spans.Keys
      ensures IsFirst(State(), bucket, d)
    {
      d :| d in bucket;
      var rest := bucket - {d};
      while rest != {}
        invariant rest <= bucket && d in bucket
        invariant forall e :: e in bucket - rest ==> !Before(spans[e], spans[d])
        decreases |rest|
      {
        var e :| e in rest;
        if Before(spans[e], spans[d]) {
          d := e;
        }
        rest := rest - {e};
      }
    }

    /** scache_bin_put and bin_put_span. */
    method PutInBin(d: Desc)
      requires Shaped() && d in spans && 0 <= spans[d].szclass < bins.Length
      modifies this`spans, bins, bitmap
      ensures Shape(old(State()), |old(State()).bins|) && State() == BinPut(old(State()), d) && Words()
    {
      var c: nat := spans[d].szclass;
      var b := bins[c];
      if spans[d].state == RETAINED {
        b := b.(buckets := b.buckets[RETAINED := b.buckets[RETAINED] + {d}], bits := b.bits + {RETAINED});
        assert spans == spans[d := spans[d].(state := RETAINED)];
      } else {
        spans := spans[d := spans[d].(state := DIRTY)];
        b := b.(buckets := b.buckets[DIRTY := b.buckets[DIRTY] + {d}], bits := b.bits + {DIRTY});
      }
      bins[c] := b.(nspans := b.nspans + 1);
      SetBit(c, true);
    }

    /** What bin_get_span and bin_remove_span share: `d` leaves bucket `k` of bin `c`. */
    method LeaveBucket(c: nat, k: nat, d: Desc, epochMin: nat)
      requires Shaped() && d in spans && c < bins.Length && k < SPAN_NSTATES && bins[c].nspans > 0
      modifies this`spans, bins, bitmap
      ensures Shape(old(State()), |old(State()).bins|) && State() == Unbin(old(State()), c, k, d, epochMin) && Words()
    {
      var b := bins[c];
      b := b.(buckets := b.buckets[k := b.buckets[k] - {d}], epochMin := epochMin);
      if k == RETAINED {
        spans := spans[d := spans[d].(state := DIRTY)];
      }
      if b.buckets[k] == {} {
        b := b.(bits := b.bits - {k});
      }
      bins[c] := b.(nspans := b.nspans - 1);
      if b.bits == {} {
        SetBit(c, false);
      }
    }

    /** scache_bin_remove and bin_remove_span. */
    method RemoveFromBin(d: Desc)
      requires Shaped() && d in spans && 0 <= spans[d].szclass < bins.Length
      requires spans[d].state < SPAN_NSTATES && bins[spans[d].szclass].nspans > 0
      modifies this`spans, bins, bitmap
      ensures Shape(old(State()), |old(State()).bins|) && State() == BinRemove(old(State()), d) && Words()
    {
      var c: nat := spans[d].szclass;
      LeaveBucket(c, spans[d].state, d, bins[c].epochMin);
    }

    /** bin_first_nonempty_bucket. */
    method FirstNonemptyBucket(c: nat) returns (k: nat)
      requires c < bins.Length
      ensures k == FirstBucket(bins[c].bits)
    {
      k := CLEAN;
      while k < RETAINED && k !in bins[c].bits
        invariant k <= RETAINED && forall j :: 0 <= j < k ==> j !in bins[c].bits
      {
        k := k + 1;
      }
    }

    /** scache_bin_pop and bin_get_span. */
    method PopFromBin(c: nat) returns (d: Desc)
      requires Core({}) && c < bins.Length && BitIs(bitmap[..], c)
      modifies this`spans, bins, bitmap
      ensures Poppable(old(State()), c) && d == FirstOf(old(State()), c) && State() == Pop(old(State()), c) && Words()
    {
      hide WellConfigured, CoreInv, FirstOf, IsFirst, BitIs;
      ghost var s := State();
      PopsHere(s, a, c);
      var k := FirstNonemptyBucket(c);
      d := FirstIn(bins[c].buckets[k]);
      FirstIsFirst(s, a, c, d);
      var left := bins[c].nspans - 1;
      LeaveBucket(c, k, d, if bins[c].epochMin > left then left else bins[c].epochMin);
    }

    method PopLinked(c: nat) returns (d: Desc)
      requires Core({}) && c < bins.Length && BitIs(bitmap[..], c) && Linked()
      modifies this`spans, bins, bitmap
      ensures Poppable(old(State()), c) && d == FirstOf(old(State()), c) && State() == Pop(old(State()), c) && Words() && Linked()
    {
      hide WellConfigured, CoreInv, FirstOf, IsFirst, BitIs, InRecords, Chained, Pop, Poppable;
      ghost var s := State();
      PopKeeps(s, a, c);
      d := PopFromBin(c);
      RecordsStay(s, State(), coords);
    }

    // ----- minting and cutting -----

    /** pagetrie_insert for the pages of `d`, as PageTrie has it on the tree. */
    method EnterPages(d: Desc, canAlloc: bool, stop: nat) returns (ok: bool)
      requires d in spans
      modifies this`trie, this`paths
      ensures (ok, State()) == TrieInsert(old(State()), d, canAlloc, stop)
    {
      ghost var after := TrieInsert(State(), d, canAlloc, stop).1;
      var pages := PagesOf(spans[d]);
      if pages <= paths || canAlloc {
        trie, paths := trie + (map p | p in pages :: d), paths + pages;
        ok := true;
      } else {
        var done := set p | p in pages && p < stop;
        trie, paths := trie - done, paths + done;
        ok := false;
      }
      assert trie == after.trie && paths == after.paths;
    }

    // ----- the list of origins -----

    /** records_push: a link in the span's own record, and one in the record of the head. */
    method PushOrigin(d: Desc)
      requires Linked() && d in coords && d !in origins && (origins != [] ==> origins[0] in coords)
      modifies this`origins, this`head, this`tail, this`coords
      ensures Linked() && origins == [d] + old(origins)
    {
      hide Chained;
      HeadIs(origins, head, tail, coords);
      PushedChained(origins, head, tail, coords, d);
      coords := coords[d := coords[d].(next := head, prev := None)];
      if head.Some? {
        coords := coords[head.value := coords[head.value].(prev := Some(d))];
      } else {
        tail := Some(d);
      }
      head := Some(d);
      origins := [d] + origins;
    }

    /** records_remove: the neighbours, found in the span's record, get links to each other. */
    method RemoveOrigin(r: Desc)
      requires Linked() && RemoveSafe(coords.Keys, origins, r)
      modifies this`origins, this`head, this`tail, this`coords
      ensures Linked() && origins == Without(old(origins), r) && r !in origins
      ensures coords.Keys == old(coords).Keys
    {
      hide Chained, Without;
      ghost var k := RemovableAt(origins, head, tail, coords, r);
      ClosedChained(origins, head, tail, coords, k);
      ghost var was := coords;
      var c := coords[r];
      NeighboursLinked(origins, coords, k);
      if c.prev.Some? {
        coords := coords[c.prev.value := coords[c.prev.value].(next := c.next)];
      } else {
        head := c.next;
      }
      if c.next.Some? {
        coords := coords[c.next.value := coords[c.next.value].(prev := c.prev)];
      } else {
        tail := c.prev;
      }
      coords := coords[r := Coord(None, None)];
      assert coords == Closed(was, r);
      origins := origins[..k] + origins[k + 1..];
    }

    /** records_pop. */
    method PopOrigin() returns (d: Desc)
      requires Linked() && origins != [] && origins[0] in coords && (|origins| > 1 ==> origins[1] in coords)
      modifies this`origins, this`head, this`tail, this`coords
      ensures Linked() && d == old(origins)[0] && origins == old(origins)[1..]
    {
      HeadIs(origins, head, tail, coords);
      d := head.value;
      HeadRemoves(coords.Keys, origins);
      RemoveOrigin(d);
    }

    /** span_create past its checks; the record, if there is one, starts without links. */
    method CreateSpan(d: Desc, c: nat, addr: nat)
      requires c < |a.sizes| && d !in spans && InRecords(spans, coords)
      modifies this`spans, this`coords, this`epoch
      ensures spans == old(spans)[d := NewSpan(a, old(epoch) % AGE_LIMIT, c, addr)]
      ensures epoch == (old(epoch) + 1) % UINT32_LIMIT && InRecords(spans, coords) && d !in old(coords)
      ensures coords == if a.unmapOnTermination then old(coords)[d := Coord(None, None)] else old(coords)
    {
      hide Holders;
      Written(spans, d, NewSpan(a, epoch % AGE_LIMIT, c, addr));
      spans := spans[d := NewSpan(a, epoch % AGE_LIMIT, c, addr)];
      if a.unmapOnTermination {
        coords := coords[d := Coord(None, None)];
      }
      epoch := (epoch + 1) % UINT32_LIMIT;
    }

    /** span_destroy. */
    method DropSpan(d: Desc)
      requires InRecords(spans, coords)
      modifies this`spans, this`coords
      ensures spans == old(spans) - {d} && coords == old(coords) - {d} && InRecords(spans, coords)
    {
      hide Holders;
      WithoutOne(spans, d);
      spans := spans - {d};
      coords := coords - {d};
    }

    /** The end of scache_mint_span. */
    method PushNew(d: Desc, ghost was: map<Desc, Coord>)
      requires InRecords(spans, coords) && Chained(origins, head, tail, was) && d !in was
      requires coords == if a.unmapOnTermination then was[d := Coord(None, None)] else was
      requires a.unmapOnTermination ==> d !in origins && (origins != [] ==> origins[0] in was)
      modifies this`origins, this`head, this`tail, this`coords
      ensures Linked() && origins == if a.unmapOnTermination then [d] + old(origins) else old(origins)
    {
      hide Chained, Holders;
      if a.unmapOnTermination {
        NotLinked(origins, head, tail, was, d);
        PushOrigin(d);
      }
    }

    /** scache_mint_span with span_create and span_destroy. */
    method MintSpan(req: nat, e: Env) returns (out: Outcome)
      requires MintClass(a, req) < |a.sizes| && Linked() && (e.mintDesc.Some? ==> e.mintDesc.value !in spans)
      requires Mint(State(), a, req, e).0.Got? && a.unmapOnTermination ==> PushSafe(State(), Mint(State(), a, req, e).0.span)
      modifies this
      ensures (out, State()) == Mint(old(State()), a, req, e) && Linked()
    {
      hide TrieInsert, HasRecord, Chained, Holders, PagesOf, InRecords;
      HeadHolds(State(), coords);
      var c := MintClass(a, req);
      if e.mintDesc.None? {
        return PoolError;
      }
      if e.region.None? {
        return MapError;
      }
      var d, addr := e.mintDesc.value, e.region.value;
      ghost var (at, was) := (epoch, coords);
      CreateSpan(d, c, addr);
      var ok := EnterPages(d, e.nodes, e.stop);
      if !ok {
        DropSpan(d);
        assert coords == was;
        return PoolError;
      }
      mapped := mapped + PagesOf(spans[d]);
      regions := regions[at := Region(addr, a.sizes[c])];
      PushNew(d, was);
      return Got(d);
    }

    /** Bins first, then a new mapping. */
    method FindOrMint(req: nat, e: Env) returns (out: Outcome, over: bool)
      requires Core({}) && req < |a.sizes| && EnvOk(State(), a, req, e) && TakeSafe(State(), a, req, e) && Linked()
      modifies this, bins, bitmap
      ensures (out, over, State()) == Take(old(State()), a, req, e) && Words() && Linked()
    {
      ghost var s := State();
      NoHighBits(s, a);
      var idx, hit := FindNonemptyBin(req);
      assert MintClass(a, req) < |a.sizes|;
      if idx < 0 {
        out := MintSpan(req, e);
        over := a.defaultClass > req;
      } else {
        over := hit;
        var d := PopLinked(idx);
        out := Got(d);
      }
    }

    /** scache_cutout_span and span_split. */
    method CutOut(o: Desc, c: nat, e: Env) returns (out: Outcome)
      requires Words() && ValidArena(a) && SpansInv(State(), a) && Mine(State(), a, o) && Shape(State(), |a.sizes|) && c < |a.sizes|
      modifies this`spans, this`trie, this`paths, bins, bitmap
      ensures Shape(old(State()), |a.sizes|) && (out, State()) == Cutout(old(State()), a, o, c, e) && Words()
    {
      var size := a.sizes[c];
      if spans[o].nbytes < size {
        return InvalidArgs;
      }
      if spans[o].nbytes == size {
        var _ := EnterPages(o, e.nodes, e.stop);
        return Got(o);
      }
      if e.cutDesc.None? {
        return PoolError;
      }
      var f := e.cutDesc.value;
      SizeFacts(a, c);
      CutReady(State(), a, o, f, size, c);
      CutInPlace(o, f, size, c);
      PutInBin(o);
      var _ := EnterPages(f, e.nodes, e.stop);
      return Got(f);
    }

    method CutInPlace(o: Desc, f: Desc, size: nat, c: nat)
      requires a.cfg.Positive() && o in spans && size < spans[o].nbytes
      modifies this`spans
      ensures State() == CutTail(old(State()), a, o, f, size, c)
    {
      var sp := spans[o];
      var rest := sp.nbytes - size;
      spans := spans[f := sp.(szclass := c, addr := sp.addr + rest, nbytes := size, record := None)];
      spans := spans[o := sp.(nbytes := rest, szclass := ClassOf(a, rest))];
    }

    // ----- scache_get_span -----

    method SetFlags(d: Desc, slab: bool, alloc: bool)
      requires d in spans
      modifies this`spans
      ensures State() == SetAlloc(MarkSlab(old(State()), d, slab), d, alloc)
    {
      spans := spans[d := spans[d].(isSlab := slab)];
      spans := spans[d := spans[d].(isAlloc := alloc)];
    }

    method SetAllocated(d: Desc, alloc: bool)
      requires d in spans
      modifies this`spans
      ensures State() == SetAlloc(old(State()), d, alloc)
    {
      spans := spans[d := spans[d].(isAlloc := alloc)];
    }

    method HandOutSpan(d: Desc, slab: bool)
      requires d in spans
      modifies this`spans
      ensures State() == HandOut(old(State()), d, slab)
    {
      if slab {
        SetFlags(d, true, true);
      } else {
        SetAllocated(d, true);
      }
    }

    /** The slab metadata and the flag, for a span ready to go. */
    method FinishGet(d: Desc, slab: bool, e: Env) returns (out: Outcome)
      requires Core({d})
      modifies this`spans, bins, bitmap
      ensures Words() && Mine(old(State()), a, d) && Shape(old(State()), |old(State()).bins|)
      ensures 0 <= old(State()).spans[d].szclass < |old(State()).bins|
      ensures (out, State()) ==
        if slab && !e.slabMeta then (PoolError, BinPut(old(State()), d)) else (Got(d), HandOut(old(State()), d, slab))
    {
      HandReady(State(), a, {d}, d);
      if slab && !e.slabMeta {
        PutInBin(d);
        return PoolError;
      }
      HandOutSpan(d, slab);
      return Got(d);
    }

    method ServeFrom(o: Desc, over: bool, req: nat, slab: bool, e: Env) returns (out: Outcome)
      requires Words() && ValidArena(a) && ServeCall(State(), a, o, over, req, e)
      modifies this`spans, this`trie, this`paths, bins, bitmap
      ensures Words() && (out, State()) == Serve(old(State()), a, o, over, req, slab, e)
    {
      ghost var s := State();
      HandReady(s, a, {o}, o);
      if !over {
        out := FinishGet(o, slab, e);
        return;
      }
      ghost var cut := Cutout(s, a, o, req, e);
      assert e.cutDesc.None? ==> cut == (PoolError, s) by { if e.cutDesc.None? { CutoutPoor(s, a, o, req, e); } }
      assert e.cutDesc.Some? ==> cut.0 == Got(e.cutDesc.value) && CoreInv(cut.1, a, {e.cutDesc.value}) by {
        if e.cutDesc.Some? { CutoutCore(s, a, o, req, e); }
      }
      out := CutOut(o, req, e);
      if !out.Got? {
        PutInBin(o);
        return;
      }
      out := FinishGet(out.span, slab, e);
    }

    method ServeLinked(o: Desc, over: bool, req: nat, slab: bool, e: Env) returns (out: Outcome)
      requires Words() && ValidArena(a) && ServeCall(State(), a, o, over, req, e) && Linked()
      modifies this`spans, this`trie, this`paths, bins, bitmap
      ensures Words() && (out, State()) == Serve(old(State()), a, o, over, req, slab, e) && Linked()
    {
      hide ValidArena, ServeCall, InRecords, Chained, SameListing, Serve, Words;
      ghost var s := State();
      ServeListing(s, a, o, over, req, slab, e);
      out := ServeFrom(o, over, req, slab, e);
      ListingStays(s, State(), a, coords);
    }

    /** scache_get_span. */
    method Get(req: int, slab: bool, e: Env) returns (out: Outcome)
      requires Words() && ValidArena(a) && GetCall(State(), a, req, e)
      requires Linked() && (0 <= req < |a.sizes| ==> TakeSafe(State(), a, req, e))
      modifies this, bins, bitmap
      ensures Words() && (out, State()) == GetSpan(old(State()), a, req, slab, e) && Linked()
    {
      if req < 0 || req >= |a.sizes| {
        return InvalidArgs;
      }
      TakeCore(State(), a, req, e);
      var over;
      out, over := FindOrMint(req, e);
      if out.Got? {
        out := ServeLinked(out.span, over, req, slab, e);
      }
    }

    // ----- scache_put_span -----

    method Find(addr: nat) returns (d: Option<Desc>)
      ensures d == Lookup(State(), addr)
    {
      var slot := addr / TRIE_PAGE % TRIE_SLOTS;
      d := if slot in trie then Some(trie[slot]) else None;
    }

    /** span_can_merge, test by test. */
    method MayMerge(l: Option<Desc>, r: Option<Desc>) returns (yes: bool)
      ensures yes == CanMerge(State(), a, l, r)
    {
      if l.None? || r.None? || l.value !in spans || r.value !in spans {
        return false;
      }
      var x, y := spans[l.value], spans[r.value];
      if x.isAlloc || y.isAlloc {
        return false;
      }
      if x.arena != y.arena {
        return false;
      }
      if x.addr + x.nbytes != y.addr {
        return false;
      }
      if ALLOC_MAX < x.nbytes + y.nbytes {
        return false;
      }
      return a.crossMerge || x.age == y.age;
    }

    /** span_get_adj and the two tests. */
    method Neighbours(d: Desc) returns (p: Plan)
      requires d in spans && spans[d].addr > 0
      ensures p == MakePlan(State(), a, d)
    {
      var l := Find(spans[d].addr - 1);
      var r := Find(spans[d].addr + spans[d].nbytes);
      var lmerge := MayMerge(l, Some(d));
      var rmerge := MayMerge(Some(d), r);
      p := Plan(if lmerge then l else None, if rmerge then r else None);
    }

    method RemoveIf(x: Option<Desc>, ghost hand: set<Desc>)
      requires Words() && ValidArena(a) && CanTakeOut(State(), a, hand, x)
      modifies this`spans, bins, bitmap
      ensures Words() && State() == TakeOut(old(State()), a, hand, x)
    {
      if x.Some? {
        RemoveReady(State(), a, x.value, hand);
        RemoveFromBin(x.value);
      }
    }

    method RemoveBoth(d: Desc, p: Plan)
      requires Words() && ValidArena(a) && PlanOk(State(), a, d, p)
      modifies this`spans, bins, bitmap
      ensures Words() && State() == Removed(old(State()), a, d, p)
    {
      RightStill(State(), a, d, p);
      RemoveIf(p.left, {d});
      RemoveIf(p.right, Add({d}, p.left));
    }

    /** The first part of span_coalesce: the left span takes over the right one's record, and its
        place in the list. */
    method MoveRecord(l: Desc, r: Desc)
      requires Linked() && l in spans && r in spans && l != r && CoalesceSafe(State(), a, l, r)
      modifies this`spans, this`origins, this`head, this`tail, this`coords
      ensures Linked()
      ensures var (x, y) := old((spans[l], spans[r])); var moves := a.unmapOnTermination && y.record.Some?;
        && spans == (if !moves then old(spans)
                     else old(spans)[l := x.(record := if x.record.Some? then Some(x.record.value + y.record.value) else y.record)]
                                    [r := y.(record := None)])
        && origins == (if !moves then old(origins) else Without(if x.record.Some? then old(origins) else [l] + old(origins), r))
    {
      hide Chained, Without, Holders, RemoveSafe;
      HeadHolds(State(), coords);
      Written(spans, l, spans[l]);
      Written(spans, r, spans[r]);
      var x, y := spans[l], spans[r];
      if a.unmapOnTermination && y.record.Some? {
        if x.record.Some? {
          Written(spans, l, x.(record := Some(x.record.value + y.record.value)));
          spans := spans[l := x.(record := Some(x.record.value + y.record.value))];
        } else {
          NotLinked(origins, head, tail, coords, l);
          Written(spans, l, x.(record := y.record));
          spans := spans[l := x.(record := y.record)];
          coords := coords[l := Coord(None, None)];
          PushOrigin(l);
        }
        RemoveOrigin(r);
        Written(spans, r, y.(record := None));
        spans := spans[r := y.(record := None)];
        LinksDropped(origins, head, tail, coords, r);
        coords := coords - {r};
      }
    }

    /** span_coalesce: the record moves first, then the sizes. */
    method CoalescePair(l: Desc, r: Desc)
      requires Linked() && a.cfg.Positive() && l in spans && r in spans && l != r && CoalesceSafe(State(), a, l, r)
      modifies this`spans, this`origins, this`head, this`tail, this`coords
      ensures State() == Coalesce(old(State()), a, l, r) && Linked()
    {
      hide ClassOf, Without, CoalesceSafe, Chained, InRecords;
      ghost var was := spans;
      MoveRecord(l, r);
      ghost var now := spans;
      FreeRight(l, r);
      RecordOnly(was, now, l, r, spans[l]);
    }

    /** The rest of it: class, age, state and size, and the right descriptor goes back to its pool. */
    method FreeRight(l: Desc, r: Desc)
      requires Linked() && a.cfg.Positive() && l in spans && r in spans && l != r
      modifies this`spans, this`coords
      ensures Linked()
      ensures var (x, y) := old((spans[l], spans[r])); var nbytes := x.nbytes + y.nbytes;
        spans == (old(spans) - {r})[l := x.(age := if x.age > y.age then y.age else x.age, szclass := ClassOf(a, nbytes),
                                            state := if x.state > y.state then x.state else y.state, nbytes := nbytes)]
    {
      hide ClassOf, Chained, Holders;
      var x, y := spans[l], spans[r];
      var nbytes := x.nbytes + y.nbytes;
      Written(spans, l, x);
      x := x.(age := if x.age > y.age then y.age else x.age, szclass := ClassOf(a, nbytes),
              state := if x.state > y.state then x.state else y.state, nbytes := nbytes);
      WithoutOne(spans, r);
      Written(spans - {r}, l, x);
      LinksDropped(origins, head, tail, coords, r);
      spans := (spans - {r})[l := x];
      coords := coords - {r};
    }

    method CoalesceBoth(d: Desc, p: Plan)
      requires a.cfg.Positive() && Sides(State(), d, p) && JoinsSafe(State(), a, d, p) && Linked()
      modifies this`spans, this`origins, this`head, this`tail, this`coords
      ensures State() == Coalesced(old(State()), a, d, p) && Linked()
    {
      var m := d;
      if p.left.Some? {
        CoalescePair(p.left.value, d);
        m := p.left.value;
      }
      if p.right.Some? {
        CoalescePair(m, p.right.value);
      }
    }

    /** scache_merge_adj. */
    method MergeNeighbours(d: Desc, e: Env) returns (m: Desc)
      requires Core({d}) && MergeSafe(State(), a, d) && Linked()
      modifies this, bins, bitmap
      ensures Words() && (m, State()) == MergeAdj(old(State()), a, d, e) && Linked()
    {
      hide CoreInv, PlanOk, TrieInsert, MakePlan;
      ghost var s := State();
      PlanIsOk(State(), a, d);
      var p := Neighbours(d);
      PlanSides(State(), a, d, p);
      RemovedKeeps(s, a, d, p);
      RemoveBoth(d, p);
      RecordsStay(s, State(), coords);
      CoalesceBoth(d, p);
      m := Leftmost(d, p);
      var _ := EnterPages(m, e.nodes, e.stop);
    }

    /** scache_put_span. */
    method Put(d: Desc, e: Env)
      requires Words() && ValidArena(a) && PutCall(State(), a, d) && PutSafe(State(), a, d) && Linked()
      modifies this, bins, bitmap
      ensures Words() && State() == PutSpan(old(State()), a, d, e) && Linked()
    {
      ghost var s := State();
      ReleaseKeeps(s, a, d);
      MergeAdjCore(Release(s, d), a, d, e);
      SetFlags(d, false, false);
      RecordsStay(s, State(), coords);
      var m := MergeNeighbours(d, e);
      ghost var s1 := State();
      HandReady(s1, a, {m}, m);
      SetAllocated(m, false);
      PutCore(s1, a, m, {m});
      PutInBin(m);
      RecordsStay(s1, State(), coords);
    }

    // ----- scache_get_span_aligned -----

    /** span_split_aligned past its checks: the right piece, the left piece if there is one, and the
        middle, which takes over the origin's descriptor if there is none. */
    method SplitInPlace(o: Desc, off: nat, c: nat, e: Env) returns (x: Desc)
      requires a.cfg.Positive() && o in spans && c < |a.sizes| && off + a.sizes[c] <= spans[o].nbytes && HasDescs(off, e)
      modifies this`spans, this`coords
      ensures x == SplitDesc(o, off, e) && State() == SplitInto(old(State()), a, o, off, c, e)
      ensures coords == old(coords) - {o}
    {
      hide ClassOf;
      var sp := spans[o].(record := None);
      var rest := sp.nbytes - off - a.sizes[c];
      spans := spans[e.cutDesc.value := sp.(szclass := ClassOf(a, rest), addr := sp.addr + off + a.sizes[c], nbytes := rest)];
      if off > 0 {
        x := e.sideDesc.value;
        spans := spans[o := sp.(szclass := ClassOf(a, off), nbytes := off)];
      } else {
        x := o;
      }
      spans := spans[x := sp.(szclass := c, addr := sp.addr + off, nbytes := a.sizes[c])];
      coords := coords - {o};
    }

    method SplitAndEnter(o: Desc, align: nat, c: nat, e: Env) returns (x: Desc)
      requires Words() && ValidArena(a) && SplitCall(State(), a, o, align, c, e) && Linked()
      modifies this`spans, this`trie, this`paths, this`coords
      ensures x == SplitDesc(o, Offset(old(State()).spans[o].addr, align), e)
      ensures State() == SplitAndInsert(old(State()), a, o, align, c, e) && Linked()
    {
      hide Chained, InRecords, CoreInv, WellConfigured, Offset;
      ghost var (s, was) := (State(), coords);
      SplitPresence(s, a, o, align, c, e);
      LinksDropped(origins, head, tail, coords, o);
      SplitStays(s, SplitAndInsert(s, a, o, align, c, e), o, coords);
      SplitFacts(State(), a, o, align, c, e);
      x := SplitInPlace(o, Offset(spans[o].addr, align), c, e);
      var _ := EnterPages(x, e.nodes, e.stop);
      var _ := EnterPages(e.cutDesc.value, e.nodes, e.stop);
    }

    method RebinPieces(o: Desc, off: nat, c: nat, e: Env)
      requires Words() && ValidArena(a) && HasDescs(off, e) && SplitInHand(State(), a, o, off, c, e) && DistinctDescs(o, e)
      modifies this`spans, this`trie, this`paths, bins, bitmap
      ensures Words() && State() == Rebin(old(State()), a, o, off, c, e)
    {
      hide TrieInsert, WellConfigured, SpansInv, TrieInv, BinsInv;
      HandReady(State(), a, PieceSet(o, off, e), e.cutDesc.value);
      if off > 0 {
        RebinLeft(State(), a, o, off, c, e);
      }
      PutInBin(e.cutDesc.value);
      if off > 0 {
        var _ := EnterPages(o, e.nodes, e.stop);
        PutInBin(o);
        SetAllocated(e.sideDesc.value, true);
      } else {
        SetAllocated(o, true);
      }
    }

    /** scache_get_span_aligned. When the split fails the span is not put back. */
    method GetAlign(lookup: seq<nat>, align: nat, c: nat, e: Env) returns (out: Outcome)
      requires Words() && ValidArena(a) && AlignedCall(State(), a, lookup, align, c, e)
      requires Linked() && (var req := ReqClass(a, lookup, align, c); 0 <= req < |a.sizes| ==> TakeSafe(State(), a, req, e))
      modifies this, bins, bitmap
      ensures Words() && (out, State()) == GetAligned(old(State()), a, lookup, align, c, e) && Linked()
    {
      var req := ReqClass(a, lookup, align, c);
      if req < 0 || req >= |a.sizes| {
        return InvalidArgs;
      }
      TakeGivesTaken(State(), a, req, align, c, e);
      var over;
      out, over := FindOrMint(req, e);
      if out.Got? {
        out := SplitAndServe(out.span, align, c, e);
      }
    }

    method SplitAndServe(o: Desc, align: nat, c: nat, e: Env) returns (out: Outcome)
      requires Words() && ValidArena(a) && TakenCall(State(), a, o, align, c, e) && Linked()
      modifies this`spans, this`trie, this`paths, this`coords, bins, bitmap
      ensures Words() && (out, State()) == ServeAligned(old(State()), a, o, align, c, e) && Linked()
    {
      if spans[o].nbytes < a.sizes[c] + align {
        return InvalidArgs;
      }
      var off := Offset(spans[o].addr, align);
      if e.cutDesc.None? || (off > 0 && e.sideDesc.None?) {
        return PoolError;
      }
      SplitReady(State(), a, o, align, c, e);
      var x := SplitAndEnter(o, align, c, e);
      ghost var s1 := State();
      RebinListing(s1, a, o, off, c, e);
      RebinPieces(o, off, c, e);
      ListingStays(s1, State(), a, coords);
      return Got(x);
    }

    // ----- scache_decay and scache_destroy -----

    /** bin_get_span, span_set_state and bin_put_span, for the first span of a bin. */
    method RetainFirst(c: nat)
      requires Core({}) && CanDecay(State(), c)
      modifies this`spans, bins
      ensures Words() && Poppable(old(State()), c) && FirstBucket(old(State()).bins[c].bits) == DIRTY
      ensures State() == MoveOne(old(State()), c, DIRTY, FirstOf(old(State()), c))
    {
      hide WellConfigured, CoreInv, FirstOf, IsFirst, BitIs, CanDecay;
      ghost var s := State();
      DecaysHere(s, a, c);
      var k := FirstNonemptyBucket(c);
      var d := FirstIn(bins[c].buckets[k]);
      FirstIsFirst(s, a, c, d);
      var b := bins[c];
      var left := b.nspans - 1;
      b := b.(buckets := b.buckets[k := b.buckets[k] - {d}], epochMin := if b.epochMin > left then left else b.epochMin);
      if b.buckets[k] == {} {
        b := b.(bits := b.bits - {k});
      }
      spans := spans[d := spans[d].(state := RETAINED)];
      bins[c] := b.(buckets := b.buckets[RETAINED := b.buckets[RETAINED] + {d}], bits := b.bits + {RETAINED});
    }

    /** One round of bin_decay, unless there is nothing left to retain. */
    method DecayRound(c: nat, ghost n: nat) returns (done: bool)
      requires Core({}) && c < |a.sizes| && n > 0
      modifies this`spans, bins
      ensures Core({})
      ensures done ==> State() == old(State()) == DecayLoop(old(State()), a, c, n)
      ensures !done ==> DecayLoop(State(), a, c, n - 1) == DecayLoop(old(State()), a, c, n)
    {
      NoHighBits(State(), a);
      hide WellConfigured, CoreInv, MoveOne, DecayLoop;
      var bits := bins[c].bits;
      done := bits == {} || (CLEAN !in bits && DIRTY !in bits);
      if done {
        DecayLoopStop(State(), a, c, n);
      } else {
        DecayLoopStep(State(), a, c, n);
        RetainFirst(c);
      }
    }

    /** The rounds of bin_decay. */
    method DecayRounds(c: nat, rounds: nat)
      requires Core({}) && c < |a.sizes|
      modifies this`spans, bins
      ensures Core({}) && State() == DecayLoop(old(State()), a, c, rounds)
    {
      hide DecayLoop, CoreInv, ValidArena, Words;
      ghost var s := State();
      var i := 0;
      while i < rounds
        invariant 0 <= i <= rounds && Core({})
        invariant DecayLoop(State(), a, c, rounds - i) == DecayLoop(s, a, c, rounds)
      {
        var done := DecayRound(c, rounds - i);
        if done {
          return;
        }
        i := i + 1;
      }
      DecayLoopStop(State(), a, c, 0);
    }

    /** bin_decay. */
    method DecayOne(c: nat)
      requires Core({}) && c < |a.sizes|
      modifies this`spans, bins
      ensures Words() && State() == DecayBin(old(State()), a, c)
    {
      if !a.hasMadvise {
        return;
      }
      NoHighBits(State(), a);
      DecayRounds(c, bins[c].epochMin % UINT32_LIMIT);
      bins[c] := bins[c].(epochMin := bins[c].nspans);
    }

    /** scache_decay. */
    method DecayAll()
      requires Core({}) && Linked()
      modifies this`spans, bins
      ensures Words() && State() == Decay(old(State()), a) && Linked()
    {
      ghost var s := State();
      DecayFromKeeps(s, a, 0);
      var c := 0;
      while c < |a.sizes|
        invariant 0 <= c <= |a.sizes| && Core({})
        invariant DecayFrom(State(), a, c) == Decay(s, a)
      {
        DecayBinKeeps(State(), a, c);
        DecayOne(c);
        c := c + 1;
      }
      RecordsStay(s, State(), coords);
    }

    /** The loop of scache_destroy, as the list of unmap calls it makes. */
    method Destroy() returns (calls: seq<Region>)
      requires Linked() && Recorded(State(), origins)
      modifies this`origins, this`head, this`tail, this`coords
      ensures calls == Unmaps(old(State()), old(origins)) && origins == [] && head.None?
    {
      hide Chained;
      calls := [];
      HeadIs(origins, head, tail, coords);
      while head.Some?
        invariant |calls| <= |old(origins)| && origins == old(origins)[|calls|..] && Linked()
        invariant head == Nth(origins, 0)
        invariant forall i :: 0 <= i < |calls| ==>
          calls[i] == Region(spans[old(origins)[i]].addr, spans[old(origins)[i]].record.value)
        decreases |origins|
      {
        assert old(origins)[|calls|..][1..] == old(origins)[|calls| + 1..];
        var d := PopOrigin();
        calls := calls + [Region(spans[d].addr, spans[d].record.value)];
        HeadIs(origins, head, tail, coords);
      }
    }
  }

  // ----- the links -----

  lemma RecordsStay(s: Cache, s': Cache, coords: map<Desc, Coord>)
    requires SamePlaces(s, s') && InRecords(s.spans, coords)
    ensures InRecords(s'.spans, coords)
  {
    assert forall d :: d in Holders(s'.spans) <==> d in Holders(s.spans);
  }

  lemma HeadHolds(s: Cache, coords: map<Desc, Coord>)
    requires InRecords(s.spans, coords)
    ensures forall d :: HasRecord(s, d) <==> d in coords
  {
  }

  lemma SplitStays(s: Cache, s': Cache, o: Desc, coords: map<Desc, Coord>)
    requires InRecords(s.spans, coords) && forall d :: HasRecord(s', d) <==> HasRecord(s, d) && d != o
    ensures InRecords(s'.spans, coords - {o})
  {
    assert forall d :: HasRecord(s', d) <==> d in Holders(s'.spans);
    assert forall d :: HasRecord(s, d) <==> d in Holders(s.spans);
  }

  lemma ListingStays(s: Cache, s': Cache, a: Arena, coords: map<Desc, Coord>)
    requires SameListing(s, s', a) && InRecords(s.spans, coords)
    ensures InRecords(s'.spans, coords)
  {
    assert forall d :: HasRecord(s', d) <==> d in Holders(s'.spans);
    assert forall d :: HasRecord(s, d) <==> d in Holders(s.spans);
  }

  /** Whatever was written to one span before, it is overwritten. */
  lemma RecordOnly(was: map<Desc, Span>, now: map<Desc, Span>, l: Desc, r: Desc, x: Span)
    requires l in was && r in was && l in now && (now == was || (r in now && now == was[l := now[l]][r := now[r]]))
    ensures (now - {r})[l := x] == (was - {r})[l := x]
  {
  }

  // ----- the word scan -----

  lemma BitAt(bitmap: seq<set<nat>>, w: nat, x: nat)
    requires w < |bitmap| && w * 64 <= x < (w + 1) * 64
    ensures BitIs(bitmap, x) <==> x - w * 64 in bitmap[w]
  {
    DivUnique(x, 64, w, x - w * 64);
  }

  /** The first bit at or above the request, if it is found in word `w`. */
  lemma FirstInWord(bitmap: seq<set<nat>>, n: nat, c: nat, w: nat, b: nat)
    requires w < |bitmap| && b in bitmap[w] && b < 64 && c <= w * 64 + b
    requires forall x :: x in bitmap[w] && c <= w * 64 + x ==> b <= x
    requires forall x: nat :: BitIs(bitmap, x) ==> x < n
    requires forall x: nat :: c <= x < w * 64 ==> !BitIs(bitmap, x)
    ensures FindBin(bitmap, n, c) == w * 64 + b
  {
    BitAt(bitmap, w, w * 64 + b);
    forall x: nat | c <= x < w * 64 + b ensures !BitIs(bitmap, x) {
      if w * 64 <= x {
        BitAt(bitmap, w, x);
      }
    }
  }

  lemma NoneInRest(bitmap: seq<set<nat>>, c: nat)
    requires c / 64 < |bitmap| && FromBit(bitmap[c / 64], c % 64) == {}
    ensures forall x: nat :: c <= x < 64 * (c / 64 + 1) ==> !BitIs(bitmap, x)
  {
    forall x: nat | c <= x < 64 * (c / 64 + 1) ensures !BitIs(bitmap, x) {
      BitAt(bitmap, c / 64, x);
      assert x - c / 64 * 64 !in FromBit(bitmap[c / 64], c % 64);
    }
  }

  lemma NoneInWord(bitmap: seq<set<nat>>, c: nat, w: nat)
    requires w < |bitmap| && bitmap[w] == {}
    ensures forall x: nat :: 64 * w <= x < 64 * (w + 1) ==> !BitIs(bitmap, x)
  {
    forall x: nat | 64 * w <= x < 64 * (w + 1) ensures !BitIs(bitmap, x) {
      BitAt(bitmap, w, x);
    }
  }

  lemma FindNone(bitmap: seq<set<nat>>, n: nat, c: nat)
    requires forall x: nat :: c <= x < 64 * |bitmap| ==> !BitIs(bitmap, x)
    ensures FindBin(bitmap, n, c) == -1
  {
  }

  lemma FirstIsFirst(s: Cache, a: Arena, c: nat, d: Desc)
    requires ValidArena(a) && CoreInv(s, a, {}) && BitIs(s.bitmap, c) && Poppable(s, c)
    requires IsFirst(s, s.bins[c].buckets[FirstBucket(s.bins[c].bits)], d)
    ensures d == FirstOf(s, c)
  {
    hide WellConfigured, SpansInv, TrieInv;
    var k := FirstBucket(s.bins[c].bits);
    var bucket := s.bins[c].buckets[k];
    var f := FirstOf(s, c);
    assert IsFirst(s, bucket, f) && f in bucket && d in bucket;
    hide IsFirst;
    assert InBucket(s, c, k, d) && InBucket(s, c, k, f);
    FirstUnique(s, a, bucket, d, f);
  }

  lemma NoHighBits(s: Cache, a: Arena)
    requires BinsInv(s, a, {})
    ensures |s.bins| == |a.sizes| && |s.bitmap| == (|s.bins| + 63) / 64
    ensures forall x: nat :: BitIs(s.bitmap, x) ==> x < |s.bins|
  {
  }

  lemma PopsHere(s: Cache, a: Arena, c: nat)
    requires ValidArena(a) && CoreInv(s, a, {}) && BitIs(s.bitmap, c)
    ensures Poppable(s, c) && FirstOf(s, c) in s.spans
    ensures s.bins[c].buckets[FirstBucket(s.bins[c].bits)] != {} && FirstBucket(s.bins[c].bits) < SPAN_NSTATES
  {
    hide WellConfigured;
    PopReady(s, a, c, {});
  }

  lemma DecaysHere(s: Cache, a: Arena, c: nat)
    requires ValidArena(a) && CoreInv(s, a, {}) && CanDecay(s, c)
    ensures BitIs(s.bitmap, c) && Poppable(s, c) && FirstBucket(s.bins[c].bits) == DIRTY && FirstOf(s, c) in s.spans
  {
    hide WellConfigured;
    assert BitIs(s.bitmap, c);
    DecayReady(s, a, c);
  }
}
