/** The origins list, whose links live in the records of the spans it lists. A span with a record
    is listed and a listed span has a record, on every path of every operation, except that an
    aligned split takes the record from the span it cuts up and leaves the span listed. */
module SpanRecords {
  import opened Bits
  import opened Lists
  import opened SpanState
  import opened SpanInvariants
  import opened SpanSteps
  import opened SpanOps
  import opened SpanGet
  import opened SpanMerge
  import opened SpanPut
  import opened SpanAligned
  import opened SpanDecay

  /** The list is the same, and so are the spans with a record, their addresses and their records. */
  ghost predicate SameListing(s: Cache, s': Cache, a: Arena) {
    && s'.origins == s.origins
    && s'.mapped == s.mapped
    && (forall d :: HasRecord(s', d) <==> HasRecord(s, d))
    && (forall d :: HasRecord(s, d) && d in s'.spans ==> s'.spans[d].addr == s.spans[d].addr && s'.spans[d].record == s.spans[d].record)
    && forall d :: Mine(s', a, d) && s'.spans[d].record.Some? <==> Mine(s, a, d) && s.spans[d].record.Some?
  }

  lemma SameListingKeeps(s: Cache, s': Cache, a: Arena)
    requires SameListing(s, s', a)
    ensures ListedInv(s', a) <==> ListedInv(s, a)
  {
  }

  /** No record is missing: every write to the list goes to one that exists. */
  lemma ListedSafe(s: Cache, a: Arena)
    requires ListedInv(s, a)
    ensures Recorded(s, s.origins)
  {
    assert forall i :: 0 <= i < |s.origins| ==> s.origins[i] in s.origins;
  }

  // ----- the small steps -----

  lemma FlagsListing(s: Cache, s': Cache, a: Arena)
    requires SamePlaces(s, s')
    ensures SameListing(s, s', a)
  {
  }

  lemma InsertListing(s: Cache, a: Arena, d: Desc, canAlloc: bool, stop: nat)
    requires d in s.spans
    ensures SameListing(s, TrieInsert(s, d, canAlloc, stop).1, a)
  {
    hide PagesOf;
  }

  lemma CutListing(s: Cache, a: Arena, o: Desc, f: Desc, cut: nat)
    requires a.cfg.Positive() && Mine(s, a, o) && f !in s.spans && Cuttable(s, a, o, cut)
    ensures SameListing(s, Cut(s, a, o, f, cut), a)
  {
    hide Cut;
    CutMoves(s, a, o, f, cut);
    CutFields(s, a, o, f, cut);
  }

  /** The new span is pushed if it has a record, and the push finds the head's record. */
  lemma MintListed(s: Cache, a: Arena, d: Desc, c: nat, addr: nat)
    requires ListedInv(s, a) && c < |a.sizes| && d !in s.spans
    ensures PushSafe(s, d) && ListedInv(Minted(s, a, d, c, addr), a)
  {
    ListedPush(s, a, d);
    MintedFlags(s, a, d, c, addr);
    var s' := Minted(s, a, d, c, addr);
    assert s'.origins == if a.unmapOnTermination then [d] + s.origins else s.origins;
    hide Minted;
    assert forall e :: e in s'.origins <==> e in s.origins || (a.unmapOnTermination && e == d);
    assert forall e :: Mine(s', a, e) <==> Mine(s, a, e) || e == d;
  }

  /** The record goes from the right span to the left one, and so does the place in the list,
      whether or not the mappings are the same. */
  lemma CoalesceListed(s: Cache, a: Arena, l: Desc, r: Desc)
    requires ListedInv(s, a) && a.cfg.Positive() && Mine(s, a, l) && Mine(s, a, r) && l != r
    ensures CoalesceSafe(s, a, l, r) && ListedInv(Coalesce(s, a, l, r), a)
  {
    hide Coalesce, Distinct, Without, CoalesceSafe;
    var s' := Coalesce(s, a, l, r);
    CoalesceFinds(s, a, l, r);
    CoalesceRecords(s, a, l, r);
    assert forall d :: Mine(s', a, d) <==> Mine(s, a, d) && d != r;
    if a.unmapOnTermination && s.spans[r].record.Some? {
      var list := if s.spans[l].record.Some? then s.origins else [l] + s.origins;
      PushedList(s.origins, l, list);
      WithoutIs(list, r);
    }
  }

  lemma PushedList(origins: seq<Desc>, l: Desc, list: seq<Desc>)
    requires Distinct(origins) && list == if l in origins then origins else [l] + origins
    ensures Distinct(list) && forall e :: e in list <==> e in origins || e == l
  {
  }

  lemma HoldersRemove(holders: set<Desc>, origins: seq<Desc>, r: Desc)
    requires (forall i :: 0 <= i < |origins| ==> origins[i] in holders) && r in origins
    ensures RemoveSafe(holders, origins, r)
  {
  }

  /** All the records the writes to the list go to exist. */
  lemma CoalesceFinds(s: Cache, a: Arena, l: Desc, r: Desc)
    requires ListedInv(s, a) && Mine(s, a, l) && Mine(s, a, r) && l != r
    ensures CoalesceSafe(s, a, l, r)
  {
    ListedSafe(s, a);
    if a.unmapOnTermination && HasRecord(s, r) {
      assert r in s.origins;
      if !HasRecord(s, l) {
        ListedPush(s, a, l);
        hide ListedInv;
        HoldersRemove(Holders(s.spans) + {l}, [l] + s.origins, r);
      } else {
        HoldersRemove(Holders(s.spans), s.origins, r);
      }
    }
  }

  /** What joining two spans does to the records and the list. */
  lemma CoalesceRecords(s: Cache, a: Arena, l: Desc, r: Desc)
    requires a.cfg.Positive() && l in s.spans && r in s.spans && l != r
    ensures var s' := Coalesce(s, a, l, r); var (x, y) := (s.spans[l], s.spans[r]);
      var moves := a.unmapOnTermination && y.record.Some?;
      && s'.spans.Keys == s.spans.Keys - {r} && s'.spans[l].arena == x.arena
      && (forall d :: d in s.spans && d != l && d != r ==> s'.spans[d] == s.spans[d])
      && (s'.spans[l].record.Some? <==> x.record.Some? || moves)
      && s'.origins == if !moves then s.origins else Without(if x.record.Some? then s.origins else [l] + s.origins, r)
  {
    hide ClassOf, Without;
  }

  // ----- scache_get_span -----

  /** A mint that works pushes the new span, if the arena keeps records. */
  ghost predicate TakeSafe(s: Cache, a: Arena, req: nat, e: Env)
    requires ValidArena(a) && req < |a.sizes|
  {
    MintClassIn(a, req);
    FindBin(s.bitmap, |a.sizes|, req) < 0 && Mint(s, a, req, e).0.Got? && a.unmapOnTermination ==>
      PushSafe(s, Mint(s, a, req, e).0.span)
  }

  lemma MintClassIn(a: Arena, req: nat)
    requires ValidArena(a) && req < |a.sizes|
    ensures MintClass(a, req) < |a.sizes|
  {
  }

  lemma TakeListed(s: Cache, a: Arena, req: nat, e: Env)
    requires ValidArena(a) && CoreInv(s, a, {}) && req < |a.sizes| && EnvOk(s, a, req, e)
    ensures ListedInv(s, a) ==> ListedInv(Take(s, a, req, e).2, a)
  {
    MintClassIn(a, req);
    hide WellConfigured, CoreInv, Mint, Minted, Pop, ListedInv, RegionOk;
    if ListedInv(s, a) {
      var i := FindBin(s.bitmap, |a.sizes|, req);
      var s' := Take(s, a, req, e).2;
      if i < 0 {
        MintIs(s, a, req, e);
        var out := Mint(s, a, req, e).0;
        if out.Got? {
          MintListed(s, a, out.span, MintClass(a, req), e.region.value);
        } else {
          SameListingKeeps(s, s', a);
        }
      } else {
        PopKeeps(s, a, i);
        FlagsListing(s, s', a);
        SameListingKeeps(s, s', a);
      }
    }
  }

  lemma ListedTakeSafe(s: Cache, a: Arena, req: nat, e: Env)
    requires ValidArena(a) && CoreInv(s, a, {}) && req < |a.sizes| && EnvOk(s, a, req, e) && ListedInv(s, a)
    ensures TakeSafe(s, a, req, e)
  {
    MintClassIn(a, req);
    hide WellConfigured, CoreInv, Mint, ListedInv, RegionOk, PushSafe, Minted, EnvOk;
    MintIs(s, a, req, e);
  }

  lemma CutoutListing(s: Cache, a: Arena, o: Desc, c: nat, e: Env)
    requires ValidArena(a) && CutCall(s, a, o, c, e)
    ensures Shape(s, |a.sizes|) && SameListing(s, Cutout(s, a, o, c, e).1, a)
  {
    hide WellConfigured, ClassOf, SpansInv, TrieInv, BinsInv, Cut, GoodSpan, BinPut, Cutout, BinShape, Cuttable;
    var f := e.cutDesc.value;
    HandReady(s, a, {o}, o);
    CutoutIs(s, a, o, c, e);
    CutListing(s, a, o, f, a.sizes[c]);
    CutCore(s, a, o, f, a.sizes[c], {o});
    var s1 := Cut(s, a, o, f, a.sizes[c]);
    PutCore(s1, a, o, {o} + {f});
    FlagsListing(s1, BinPut(s1, o), a);
  }

  lemma ServeListing(s: Cache, a: Arena, o: Desc, over: bool, req: nat, slab: bool, e: Env)
    requires ValidArena(a) && ServeCall(s, a, o, over, req, e)
    ensures SameListing(s, Serve(s, a, o, over, req, slab, e).1, a)
  {
    hide WellConfigured, SpansInv, TrieInv, BinsInv, Cutout, BinPut, HandOut, SameListing;
    HandReady(s, a, {o}, o);
    if over && e.cutDesc.None? {
      CutoutPoor(s, a, o, req, e);
      PutCore(s, a, o, {o});
      FlagsListing(s, BinPut(s, o), a);
    } else {
      var s1, d := s, o;
      if over {
        CutoutListing(s, a, o, req, e);
        CutoutCore(s, a, o, req, e);
        s1, d := Cutout(s, a, o, req, e).1, e.cutDesc.value;
      }
      HandReady(s1, a, {d}, d);
      PutCore(s1, a, d, {d});
      HandOutIs(s1, d, slab);
      FlagsListing(s1, BinPut(s1, d), a);
      FlagsListing(s1, HandOut(s1, d, slab), a);
      if over {
        ListingTrans(s, s1, BinPut(s1, d), a);
        ListingTrans(s, s1, HandOut(s1, d, slab), a);
      }
    }
  }

  lemma GetListed(s: Cache, a: Arena, req: int, slab: bool, e: Env)
    requires ValidArena(a) && GetCall(s, a, req, e)
    ensures ListedInv(s, a) ==> ListedInv(GetSpan(s, a, req, slab, e).1, a)
  {
    hide WellConfigured, CoreInv, Take, Serve, ListedInv, EnvOk, SameListing;
    if 0 <= req < |a.sizes| {
      TakeCore(s, a, req, e);
      TakeListed(s, a, req, e);
      var (out, over, s1) := Take(s, a, req, e);
      if out.Got? {
        ServeListing(s1, a, out.span, over, req, slab, e);
        SameListingKeeps(s1, Serve(s1, a, out.span, over, req, slab, e).1, a);
      }
    }
  }

  // ----- scache_put_span -----

  /** Both coalescing calls find the records they write to. */
  ghost predicate JoinsSafe(s: Cache, a: Arena, d: Desc, p: Plan)
    requires a.cfg.Positive() && Sides(s, d, p)
  {
    && (p.left.Some? ==> CoalesceSafe(s, a, p.left.value, d))
    && (p.right.Some? ==>
      CoalesceSafe(if p.left.Some? then Coalesce(s, a, p.left.value, d) else s, a, Leftmost(d, p), p.right.value))
  }

  lemma CoalescedListed(s: Cache, a: Arena, d: Desc, p: Plan)
    requires ListedInv(s, a) && a.cfg.Positive() && Joinables(s, a, d, p)
    ensures JoinsSafe(s, a, d, p) && ListedInv(Coalesced(s, a, d, p), a)
  {
    hide ListedInv, CoalesceSafe, Coalesce, CanMerge;
    var s1 := s;
    if p.left.Some? {
      CoalesceListed(s, a, p.left.value, d);
      CoalesceRecords(s, a, p.left.value, d);
      s1 := Coalesce(s, a, p.left.value, d);
    }
    if p.right.Some? {
      CoalesceListed(s1, a, Leftmost(d, p), p.right.value);
    }
  }

  ghost predicate MergeSafe(s: Cache, a: Arena, d: Desc)
    requires ValidArena(a) && CoreInv(s, a, {d})
  {
    PlanIsOk(s, a, d);
    var p := MakePlan(s, a, d);
    PlanSides(s, a, d, p);
    JoinsSafe(Removed(s, a, d, p), a, d, p)
  }

  ghost predicate PutSafe(s: Cache, a: Arena, d: Desc)
    requires ValidArena(a) && PutCall(s, a, d)
  {
    ReleaseKeeps(s, a, d);
    MergeSafe(Release(s, d), a, d)
  }

  lemma ListedPutSafe(s: Cache, a: Arena, d: Desc)
    requires ValidArena(a) && PutCall(s, a, d) && ListedInv(s, a)
    ensures PutSafe(s, a, d)
  {
    hide WellConfigured, CoreInv, Removed, Joinable, PlanOk, ListedInv, SameListing, CoalesceSafe, Coalesce, Release;
    ReleaseKeeps(s, a, d);
    var s0 := Release(s, d);
    FlagsListing(s, s0, a);
    SameListingKeeps(s, s0, a);
    PlanIsOk(s0, a, d);
    var p := MakePlan(s0, a, d);
    PlanSides(s0, a, d, p);
    RemovedKeeps(s0, a, d, p);
    var s1 := Removed(s0, a, d, p);
    FlagsListing(s0, s1, a);
    SameListingKeeps(s0, s1, a);
    CoalescedListed(s1, a, d, p);
  }

  lemma MergeAdjListed(s: Cache, a: Arena, d: Desc, e: Env)
    requires ValidArena(a) && CoreInv(s, a, {d}) && ListedInv(s, a)
    ensures ListedInv(MergeAdj(s, a, d, e).1, a)
  {
    hide WellConfigured, CoreInv, Removed, Coalesced, TrieInsert, Joinable, PlanOk, ListedInv, SameListing;
    PlanIsOk(s, a, d);
    var p := MakePlan(s, a, d);
    PlanSides(s, a, d, p);
    RemovedKeeps(s, a, d, p);
    var s1 := Removed(s, a, d, p);
    FlagsListing(s, s1, a);
    SameListingKeeps(s, s1, a);
    CoalescedListed(s1, a, d, p);
    var s2 := Coalesced(s1, a, d, p);
    InsertListing(s2, a, Leftmost(d, p), e.nodes, e.stop);
    SameListingKeeps(s2, MergeAdj(s, a, d, e).1, a);
  }

  lemma PutListed(s: Cache, a: Arena, d: Desc, e: Env)
    requires ValidArena(a) && PutCall(s, a, d)
    ensures ListedInv(s, a) ==> ListedInv(PutSpan(s, a, d, e), a)
  {
    hide WellConfigured, SpansInv, TrieInv, BinsInv, MergeAdj, Release, SetAlloc, BinPut, ListedInv, SameListing;
    if ListedInv(s, a) {
      ReleaseKeeps(s, a, d);
      MergeAdjCore(Release(s, d), a, d, e);
      var (m, s1) := MergeAdj(Release(s, d), a, d, e);
      HandReady(s1, a, {m}, m);
      PutCore(s1, a, m, {m});
      FlagsListing(s, Release(s, d), a);
      SameListingKeeps(s, Release(s, d), a);
      MergeAdjListed(Release(s, d), a, d, e);
      FlagsListing(s1, BinPut(s1, m), a);
      SameListingKeeps(s1, BinPut(s1, m), a);
    }
  }

  // ----- scache_get_span_aligned -----

  lemma PiecesListing(s: Cache, a: Arena, o: Desc, align: nat, c: nat, e: Env)
    requires ValidArena(a) && SplitCall(s, a, o, align, c, e)
    ensures var off := Offset(s.spans[o].addr, align); var size := a.sizes[c];
      && 0 < size && off + size < s.spans[o].nbytes
      && SameListing(s, Pieces(s, a, o, off, size, e), a)
  {
    hide WellConfigured, CoreInv, Cut, Offset, SameListing;
    SplitFacts(s, a, o, align, c, e);
    var off := Offset(s.spans[o].addr, align);
    var size := a.sizes[c];
    var f := e.cutDesc.value;
    var rest := s.spans[o].nbytes - off - size;
    CutListing(s, a, o, f, rest);
    if off > 0 {
      SplitTwo(s, a, o, align, c, e);
      TwoCutsCore(s, a, o, f, e.sideDesc.value, rest, size);
      SecondCut(s, a, o, f, e.sideDesc.value, rest, size);
      HandReady(Cut(s, a, o, f, rest), a, {o, f}, o);
      CutListing(Cut(s, a, o, f, rest), a, o, e.sideDesc.value, size);
      ListingTrans(s, Cut(s, a, o, f, rest), Pieces(s, a, o, off, size, e), a);
    }
  }

  lemma ListingTrans(s: Cache, s1: Cache, s2: Cache, a: Arena)
    requires SameListing(s, s1, a) && SameListing(s1, s2, a)
    ensures SameListing(s, s2, a)
  {
  }

  lemma AllocListing(s: Cache, a: Arena, d: Desc)
    requires d in s.spans
    ensures SameListing(s, SetAlloc(s, d, true), a)
  {
  }

  lemma SameKeys(s: Cache, s': Cache)
    requires SamePlaces(s, s')
    ensures s'.spans.Keys == s.spans.Keys
  {
  }

  lemma RebinListing(s: Cache, a: Arena, o: Desc, off: nat, c: nat, e: Env)
    requires ValidArena(a) && HasDescs(off, e) && SplitInHand(s, a, o, off, c, e) && DistinctDescs(o, e)
    ensures SameListing(s, Rebin(s, a, o, off, c, e), a)
  {
    hide WellConfigured, SpansInv, TrieInv, BinsInv, BinPut, TrieInsert, SameListing, SetAlloc, SamePlaces;
    var f, x := e.cutDesc.value, SplitDesc(o, off, e);
    var hand := PieceSet(o, off, e);
    HandReady(s, a, hand, f);
    PutCore(s, a, f, hand);
    var s1 := BinPut(s, f);
    FlagsListing(s, s1, a);
    if off > 0 {
      RebinLeft(s, a, o, off, c, e);
      HandReady(s1, a, {o, x}, o);
      PutCore(s1, a, o, {o, x});
      FlagsListing(s1, BinPut(s1, o), a);
      ListingTrans(s, s1, BinPut(s1, o), a);
      AllocListing(BinPut(s1, o), a, x);
      ListingTrans(s, BinPut(s1, o), Rebin(s, a, o, off, c, e), a);
    } else {
      SameKeys(s, s1);
      AllocListing(s1, a, o);
      ListingTrans(s, s1, Rebin(s, a, o, off, c, e), a);
    }
  }

  /** The split leaves the list as it is, and the origin without a record. */
  lemma SplitListing(s: Cache, a: Arena, o: Desc, align: nat, c: nat, e: Env)
    requires ValidArena(a) && SplitCall(s, a, o, align, c, e) && ListedInv(s, a)
    ensures var s' := SplitAndInsert(s, a, o, align, c, e); s'.origins == s.origins && o in s'.spans && s'.spans[o].record.None?
    ensures s.spans[o].record.None? ==> ListedInv(SplitAndInsert(s, a, o, align, c, e), a)
  {
    hide WellConfigured, CoreInv, SplitAndInsert, Offset, ListedInv, Pieces, ClassOf, SameListing;
    var off := Offset(s.spans[o].addr, align);
    SplitCore(s, a, o, align, c, e);
    SplitBasics(s, a, o, align, c, e);
    SplitAndInsertIs(s, a, o, align, c, e);
    PiecesListing(s, a, o, align, c, e);
    PiecesFields(s, a, o, off, c, e);
    var t := Pieces(s, a, o, off, a.sizes[c], e);
    if s.spans[o].record.None? {
      DropNone(t, o);
      SameListingKeeps(s, t, a);
    }
  }

  /** The origin, and no other span, loses its record to the split. */
  lemma SplitPresence(s: Cache, a: Arena, o: Desc, align: nat, c: nat, e: Env)
    requires ValidArena(a) && SplitCall(s, a, o, align, c, e)
    ensures var s' := SplitAndInsert(s, a, o, align, c, e);
      s'.origins == s.origins && forall d :: HasRecord(s', d) <==> HasRecord(s, d) && d != o
  {
    hide WellConfigured, CoreInv, SplitAndInsert, Offset, Pieces, ClassOf;
    SplitBasics(s, a, o, align, c, e);
    SplitAndInsertIs(s, a, o, align, c, e);
    PiecesListing(s, a, o, align, c, e);
  }

  /** Where the span taken had a record, the list keeps a span without one. */
  lemma ServeAlignedListed(s: Cache, a: Arena, o: Desc, align: nat, c: nat, e: Env)
    requires ValidArena(a) && TakenCall(s, a, o, align, c, e) && ListedInv(s, a)
    ensures var s' := ServeAligned(s, a, o, align, c, e).1; var loses := SplitGoes(s, a, o, align, c, e) && HasRecord(s, o);
      (ListedInv(s', a) <==> !loses) && (Recorded(s', s'.origins) <==> !loses)
  {
    hide WellConfigured, CoreInv, SplitAndInsert, Rebin, Offset, AlignUp, IsPow2, SameListing;
    assert s.spans[o].record.Some? ==> o in s.origins;
    ListedSafe(s, a);
    hide ListedInv;
    if SplitGoes(s, a, o, align, c, e) {
      var off := Offset(s.spans[o].addr, align);
      SplitReady(s, a, o, align, c, e);
      SplitListing(s, a, o, align, c, e);
      var s2 := SplitAndInsert(s, a, o, align, c, e);
      RebinListing(s2, a, o, off, c, e);
      RebinRecords(s2, a, o, off, c, e);
      SameListingKeeps(s2, Rebin(s2, a, o, off, c, e), a);
      if s.spans[o].record.Some? {
        NotRecorded(Rebin(s2, a, o, off, c, e), a, o);
      } else {
        ListedSafe(Rebin(s2, a, o, off, c, e), a);
      }
    }
  }

  lemma NotRecorded(s: Cache, a: Arena, o: Desc)
    requires o in s.spans && o in s.origins && s.spans[o].record.None?
    ensures !ListedInv(s, a) && !Recorded(s, s.origins)
  {
    var i :| 0 <= i < |s.origins| && s.origins[i] == o;
    assert !HasRecord(s, s.origins[i]);
  }

  /** An aligned get keeps list and records together exactly when the span it cuts up, if any, had
      no record; otherwise the list is left with a span whose links are gone. */
  lemma GetAlignedListed(s: Cache, a: Arena, lookup: seq<nat>, align: nat, c: nat, e: Env)
    requires ValidArena(a) && AlignedCall(s, a, lookup, align, c, e) && ListedInv(s, a)
    ensures var s' := GetAligned(s, a, lookup, align, c, e).1;
      && (ListedInv(s', a) <==> !LosesRecord(s, a, lookup, align, c, e))
      && (Recorded(s', s'.origins) <==> !LosesRecord(s, a, lookup, align, c, e))
  {
    assert a.cfg.Valid();
    hide WellConfigured, CoreInv, Take, EnvOk, ReqClass, IsPow2, ListedInv, SplitGoes, ServeAligned, Recorded;
    ListedSafe(s, a);
    var req := ReqClass(a, lookup, align, c);
    if 0 <= req < |a.sizes| {
      TakeCore(s, a, req, e);
      TakeGivesTaken(s, a, req, align, c, e);
      TakeListed(s, a, req, e);
      var (out, _, s1) := Take(s, a, req, e);
      ListedSafe(s1, a);
      if out.Got? {
        ServeAlignedListed(s1, a, out.span, align, c, e);
      }
    }
  }

  // ----- scache_decay -----

  lemma DecayListed(s: Cache, a: Arena)
    requires ValidArena(a) && CoreInv(s, a, {})
    ensures ListedInv(s, a) ==> ListedInv(Decay(s, a), a)
  {
    hide WellConfigured, CoreInv, ListedInv, DecayFrom, SameListing;
    DecayFromKeeps(s, a, 0);
    FlagsListing(s, Decay(s, a), a);
    SameListingKeeps(s, Decay(s, a), a);
  }
}
