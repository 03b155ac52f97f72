/** What destroying the cache unmaps, whether or not mappings are merged: the span that has a record
    gives the address, the record the size. As long as no record moves to a span that lies before the
    one it was made for, these calls cover every mapped page, each once. */
module SpanCalls {
  import opened Bits
  import opened Lists
  import opened SizeClasses
  import opened SpanState
  import opened SpanInvariants
  import opened SpanSteps
  import opened SpanOps
  import opened SpanGet
  import opened SpanMerge
  import opened SpanPut
  import opened SpanAligned
  import opened SpanDecay
  import opened SpanRecords
  import opened SpanRuns
  import opened SpanResults

  /** The call each span with a record stands for. */
  ghost function Calls(s: Cache, a: Arena): map<Desc, Region> {
    map d | d in s.spans && s.spans[d].arena == a.uid && s.spans[d].record.Some? ::
      Region(s.spans[d].addr, s.spans[d].record.value)
  }

  /** Whole pages, all of them mapped, and each mapped page in exactly one call. */
  ghost predicate Tiling(calls: map<Desc, Region>, mapped: set<nat>) {
    && (forall d :: d in calls ==> calls[d].addr % TRIE_PAGE == 0 && calls[d].nbytes % TRIE_PAGE == 0 && calls[d].nbytes > 0)
    && (forall d, p: nat :: d in calls && InRegion(calls[d], p) ==> p in mapped)
    && (forall p: nat :: p in mapped ==> exists d :: d in calls && InRegion(calls[d], p))
    && (forall d, e, p: nat :: d in calls && e in calls && InRegion(calls[d], p) && InRegion(calls[e], p) ==> d == e)
  }

  ghost predicate CallsTile(s: Cache, a: Arena) {
    Tiling(Calls(s, a), s.mapped)
  }

  /** Where the call of `l` starts there is already that of `e`. */
  ghost predicate Twice(calls: map<Desc, Region>, l: Desc, e: Desc) {
    && l in calls && e in calls && e != l && calls[l].nbytes > 0
    && calls[e].addr <= calls[l].addr < calls[e].addr + calls[e].nbytes
  }

  /** Some page is unmapped twice. */
  ghost predicate Overlaps(s: Cache, a: Arena) {
    exists l, e :: Twice(Calls(s, a), l, e)
  }

  lemma OverlapBreaks(s: Cache, a: Arena)
    requires Overlaps(s, a)
    ensures !CallsTile(s, a)
  {
    hide Twice, Calls, Tiling;
    var l, e :| Twice(Calls(s, a), l, e);
    TwiceBreaks(Calls(s, a), s.mapped, l, e);
  }

  lemma TwicePage(calls: map<Desc, Region>, l: Desc, e: Desc)
    requires Twice(calls, l, e) && calls[l].addr % TRIE_PAGE == 0
    ensures InRegion(calls[l], calls[l].addr / TRIE_PAGE) && InRegion(calls[e], calls[l].addr / TRIE_PAGE)
  {
    PageAt(calls[l].addr);
  }

  lemma PageAt(x: nat)
    requires x % TRIE_PAGE == 0
    ensures x / TRIE_PAGE * TRIE_PAGE == x
  {
  }

  lemma TwiceBreaks(calls: map<Desc, Region>, mapped: set<nat>, l: Desc, e: Desc)
    requires Twice(calls, l, e)
    ensures !Tiling(calls, mapped)
  {
    if Tiling(calls, mapped) {
      TwicePage(calls, l, e);
    }
  }

  /** The same records at the same places give the same calls. */
  lemma ListingCalls(s: Cache, s': Cache, a: Arena)
    requires SameListing(s, s', a)
    ensures Calls(s', a) == Calls(s, a) && (CallsTile(s', a) <==> CallsTile(s, a)) && (Overlaps(s', a) <==> Overlaps(s, a))
  {
    var (m, m') := (Calls(s, a), Calls(s', a));
    forall d ensures d in m <==> d in m' {
      assert Mine(s', a, d) && s'.spans[d].record.Some? <==> Mine(s, a, d) && s.spans[d].record.Some?;
    }
    forall d | d in m ensures m'[d] == m[d] {
      assert HasRecord(s, d);
    }
    assert m' == m;
  }

  // ----- joining two spans -----

  /** A record moves to the left span, whose own is enlarged by it. */
  ghost predicate RecordMoved(m: map<Desc, Region>, m': map<Desc, Region>, l: Desc, addr: nat, r: Desc) {
    && r in m && r != l && (l in m ==> m[l].addr == addr)
    && m' == (m - {r})[l := Region(addr, (if l in m then m[l].nbytes else 0) + m[r].nbytes)]
  }

  lemma JoinCalls(s: Cache, a: Arena, l: Desc, r: Desc)
    requires a.cfg.Positive() && Joinable(s, a, l, r) && a.unmapOnTermination
    ensures var s' := Join(s, a, l, r); var (m, m') := (Calls(s, a), Calls(s', a));
      && s'.mapped == s.mapped && l in s.spans
      && if r in m then RecordMoved(m, m', l, s.spans[l].addr, r) else m' == m
  {
    JoinGeometry(s, a, l, r);
    JoinRecord(s, a, l, r);
    hide Join;
    var m: map<Desc, Region> := Calls(s, a);
    var m' := Calls(Join(s, a, l, r), a);
    if r in m {
      assert m' == (m - {r})[l := Region(s.spans[l].addr, (if l in m then m[l].nbytes else 0) + m[r].nbytes)];
    } else {
      assert m' == m;
    }
  }

  lemma JoinRecord(s: Cache, a: Arena, l: Desc, r: Desc)
    requires a.cfg.Positive() && Joinable(s, a, l, r) && a.unmapOnTermination
    ensures var s' := Join(s, a, l, r); var (x, y) := (s.spans[l], s.spans[r]);
      && s'.mapped == s.mapped && l in s'.spans
      && s'.spans[l].record ==
           if y.record.None? then x.record else if x.record.Some? then Some(x.record.value + y.record.value) else y.record
  {
    hide ClassOf, PagesOf;
  }

  /** A page of a span that is not in the span's own call would be in one that starts inside the span. */
  lemma NotShorter(s: Cache, a: Arena, l: Desc)
    requires ValidArena(a) && SpansInv(s, a) && TrieInv(s, a) && Mine(s, a, l) && CallsTile(s, a) && l in Calls(s, a)
    ensures Calls(s, a)[l].nbytes >= s.spans[l].nbytes
  {
    var (r, x) := (Calls(s, a)[l], s.spans[l]);
    if r.nbytes < x.nbytes {
      var end := x.addr + r.nbytes;
      assert end % TRIE_PAGE == 0 && r.addr == x.addr;
      PageAt(end);
      assert InSpan(x, end / TRIE_PAGE) && !InRegion(r, end / TRIE_PAGE);
      hide WellConfigured, ClassOf, SpansInv, TrieInv, Calls;
      MappedInside(s, a, l);
      var e :| e in Calls(s, a) && InRegion(Calls(s, a)[e], end / TRIE_PAGE);
      EndOfCall(s, a, l, e);
    }
  }

  /** A span in front of one with a record has all of what its own record names, and no more. */
  lemma WholeRecord(s: Cache, a: Arena, l: Desc, r: Desc)
    requires ValidArena(a) && SpansInv(s, a) && TrieInv(s, a) && Joinable(s, a, l, r) && CallsTile(s, a)
    requires l in Calls(s, a) && r in Calls(s, a)
    ensures Calls(s, a)[l].nbytes == s.spans[l].nbytes
  {
    hide WellConfigured, ClassOf, SpansInv, TrieInv, Tiling;
    NotShorter(s, a, l);
    if Calls(s, a)[l].nbytes > s.spans[l].nbytes {
      CallHasBytes(s, a, r);
      TwiceBreaks(Calls(s, a), s.mapped, r, l);
    }
  }

  lemma CallHasBytes(s: Cache, a: Arena, d: Desc)
    requires CallsTile(s, a) && d in Calls(s, a)
    ensures Calls(s, a)[d].nbytes > 0
  {
  }

  /** No other call starts inside a span, nor runs into it from the left when it has a call itself. */
  lemma EndOfCall(s: Cache, a: Arena, l: Desc, e: Desc)
    requires ValidArena(a) && SpansInv(s, a) && TrieInv(s, a) && CallsTile(s, a) && Mine(s, a, l)
    requires l in Calls(s, a) && e in Calls(s, a) && e != l
    ensures Calls(s, a)[e].addr + Calls(s, a)[e].nbytes <= s.spans[l].addr || Calls(s, a)[e].addr >= s.spans[l].addr + s.spans[l].nbytes
  {
    var m := Calls(s, a);
    assert Mine(s, a, e) && m[e].addr == s.spans[e].addr && m[l].addr == s.spans[l].addr && m[l].nbytes > 0;
    hide Calls, WellConfigured, SpansInv, TrieInv;
    NotInside(s, a, l, e);
    if m[e].addr <= m[l].addr < m[e].addr + m[e].nbytes {
      TwiceBreaks(m, s.mapped, l, e);
    }
  }

  /** Two calls that meet become one. */
  lemma MovedTiles(m: map<Desc, Region>, m': map<Desc, Region>, l: Desc, r: Desc, mapped: set<nat>)
    requires Tiling(m, mapped) && l in m && RecordMoved(m, m', l, m[l].addr, r) && m[l].addr + m[l].nbytes == m[r].addr
    ensures Tiling(m', mapped)
  {
    assert forall p: nat :: InRegion(m'[l], p) <==> InRegion(m[l], p) || InRegion(m[r], p);
    assert m'[l].addr % TRIE_PAGE == 0 && m'[l].nbytes % TRIE_PAGE == 0 && m'[l].nbytes > 0;
    hide InRegion, Tiling;
    OneForTwo(m, m', l, r, mapped);
  }

  lemma OneForTwo(m: map<Desc, Region>, m': map<Desc, Region>, l: Desc, r: Desc, mapped: set<nat>)
    requires Tiling(m, mapped) && l in m && r in m && l != r && l in m' && m'.Keys == m.Keys - {r}
    requires m'[l].addr % TRIE_PAGE == 0 && m'[l].nbytes % TRIE_PAGE == 0 && m'[l].nbytes > 0
    requires forall d :: d in m' && d != l ==> m'[d] == m[d]
    requires forall p: nat :: InRegion(m'[l], p) <==> InRegion(m[l], p) || InRegion(m[r], p)
    ensures Tiling(m', mapped)
  {
    hide InRegion;
    forall p: nat | p in mapped ensures exists d :: d in m' && InRegion(m'[d], p) {
      var d :| d in m && InRegion(m[d], p);
      assert InRegion(m'[if d == r then l else d], p);
    }
  }

  /** Joining keeps the calls in order exactly if no record moves to a span that has none. Otherwise
      the call now starts inside another. */
  lemma JoinTiles(s: Cache, a: Arena, l: Desc, r: Desc)
    requires ValidArena(a) && SpansInv(s, a) && TrieInv(s, a) && Joinable(s, a, l, r) && a.unmapOnTermination && CallsTile(s, a)
    ensures var moves := HasRecord(s, r) && !HasRecord(s, l); var s' := Join(s, a, l, r);
      && (CallsTile(s', a) <==> !moves)
      && (moves ==> exists e :: Twice(Calls(s', a), l, e))
  {
    var (m, m') := (Calls(s, a), Calls(Join(s, a, l, r), a));
    assert (l in m <==> HasRecord(s, l)) && (r in m <==> HasRecord(s, r));
    assert GoodSpan(a, s.spans[l]);
    JoinCalls(s, a, l, r);
    if r in m && l in m {
      WholeRecord(s, a, l, r);
      assert m[r].addr == m[l].addr + m[l].nbytes;
      MovedTiles(m, m', l, r, s.mapped);
    } else if r in m {
      assert m[r].addr == s.spans[l].addr + s.spans[l].nbytes;
      hide Join, Calls, WellConfigured, SpansInv, TrieInv;
      var e := CallBefore(s, a, l);
      assert Twice(m', l, e);
      TwiceBreaks(m', s.mapped, l, e);
    }
  }

  /** The call that covers the start of a span. */
  lemma CallBefore(s: Cache, a: Arena, l: Desc) returns (e: Desc)
    requires ValidArena(a) && Mine(s, a, l) && GoodSpan(a, s.spans[l]) && TrieInv(s, a) && CallsTile(s, a)
    ensures e in Calls(s, a) && Calls(s, a)[e].addr <= s.spans[l].addr < Calls(s, a)[e].addr + Calls(s, a)[e].nbytes
  {
    hide WellConfigured, Calls, ClassOf, TrieInv;
    var p := s.spans[l].addr / TRIE_PAGE;
    StartPage(s, a, l);
    MappedInside(s, a, l);
    assert p in s.mapped;
    e :| e in Calls(s, a) && InRegion(Calls(s, a)[e], p);
  }

  /** A second join does not undo the overlap. */
  lemma StillTwice(s: Cache, a: Arena, l: Desc, r: Desc, e: Desc)
    requires ValidArena(a) && SpansInv(s, a) && Joinable(s, a, l, r) && a.unmapOnTermination && Twice(Calls(s, a), l, e)
    ensures Twice(Calls(Join(s, a, l, r), a), l, e)
  {
    assert GoodSpan(a, s.spans[l]);
    JoinCalls(s, a, l, r);
    hide Join, WellConfigured, ClassOf, SpansInv;
    var m := Calls(s, a);
    assert m[l].addr == s.spans[l].addr && (r in m ==> m[r].addr == s.spans[r].addr);
  }

  // ----- scache_put_span -----

  /** The span that stays has no record, and one of those it takes in has. */
  ghost predicate Moves(s: Cache, d: Desc, p: Plan) {
    !HasRecord(s, Leftmost(d, p)) && (HasRecord(s, d) || (p.right.Some? && HasRecord(s, p.right.value)))
  }

  lemma JoinedTiles(s: Cache, a: Arena, d: Desc, p: Plan)
    requires ValidArena(a) && SpansInv(s, a) && TrieInv(s, a) && Joinables(s, a, d, p) && a.unmapOnTermination && CallsTile(s, a)
    ensures var s' := Joined(s, a, d, p); (CallsTile(s', a) <==> !Moves(s, d, p)) && (Overlaps(s', a) <==> Moves(s, d, p))
  {
    hide WellConfigured, SpansInv, TrieInv, Join, Joinable, CallsTile, Twice;
    var m := Leftmost(d, p);
    var s1 := if p.left.Some? then Join(s, a, m, d) else s;
    if p.left.Some? {
      JoinTiles(s, a, m, d);
      JoinTrie(s, a, m, d);
      JoinSpans(s, a, m, d);
      JoinHasRecord(s, a, m, d, p.right);
      if p.right.Some? {
        SecondJoin(s, a, m, d, p.right.value);
      }
      if HasRecord(s, d) && !HasRecord(s, m) {
        var e :| Twice(Calls(s1, a), m, e);
        if p.right.Some? {
          StillTwice(s1, a, m, p.right.value, e);
        }
        assert Overlaps(Joined(s, a, d, p), a);
      }
    }
    if p.right.Some? && CallsTile(s1, a) {
      JoinTiles(s1, a, m, p.right.value);
    }
    if Overlaps(Joined(s, a, d, p), a) {
      OverlapBreaks(Joined(s, a, d, p), a);
    }
    if Overlaps(s1, a) {
      OverlapBreaks(s1, a);
    }
  }

  lemma JoinHasRecord(s: Cache, a: Arena, l: Desc, r: Desc, x: Option<Desc>)
    requires a.cfg.Positive() && Joinable(s, a, l, r) && a.unmapOnTermination
    ensures var s' := Join(s, a, l, r);
      && (HasRecord(s', l) <==> HasRecord(s, l) || HasRecord(s, r))
      && (x.Some? && x.value != l && x.value != r ==> (HasRecord(s', x.value) <==> HasRecord(s, x.value)))
  {
    JoinGeometry(s, a, l, r);
    JoinRecord(s, a, l, r);
    hide Join;
  }

  /** Freeing this span moves a record to a span that has none. */
  ghost predicate PutMoves(s: Cache, a: Arena, d: Desc)
    requires ValidArena(a) && PutCall(s, a, d)
  {
    ReleaseKeeps(s, a, d);
    var s0 := Release(s, d);
    PlanIsOk(s0, a, d);
    Moves(s0, d, MakePlan(s0, a, d))
  }

  lemma MovesStays(s: Cache, s': Cache, a: Arena, d: Desc, p: Plan)
    requires SameListing(s, s', a)
    ensures Moves(s', d, p) <==> Moves(s, d, p)
  {
  }

  lemma MergeAdjTiles(s: Cache, a: Arena, d: Desc, e: Env)
    requires ValidArena(a) && CoreInv(s, a, {d}) && a.unmapOnTermination && CallsTile(s, a)
    ensures Mine(s, a, d) && s.spans[d].addr > 0
    ensures CallsTile(MergeAdj(s, a, d, e).1, a) <==> !Moves(s, d, MakePlan(s, a, d))
    ensures Overlaps(MergeAdj(s, a, d, e).1, a) <==> Moves(s, d, MakePlan(s, a, d))
  {
    hide WellConfigured, SpansInv, TrieInv, BinsInv, Removed, Coalesced, Joined, TrieInsert, Joinables, PlanOk, CallsTile, SameListing, Moves, MakePlan, Overlaps;
    PlanIsOk(s, a, d);
    var p := MakePlan(s, a, d);
    PlanSides(s, a, d, p);
    RemovedKeeps(s, a, d, p);
    var s1 := Removed(s, a, d, p);
    FlagsListing(s, s1, a);
    ListingCalls(s, s1, a);
    MovesStays(s, s1, a, d, p);
    JoinedIs(s1, a, d, p, e);
    JoinedTiles(s1, a, d, p);
  }

  /** A put keeps the calls in order exactly if it moves no record to a span without one; if it does,
      a page will be unmapped twice. */
  lemma PutTiles(s: Cache, a: Arena, d: Desc, e: Env)
    requires ValidArena(a) && PutCall(s, a, d) && a.unmapOnTermination && CallsTile(s, a)
    ensures CallsTile(PutSpan(s, a, d, e), a) <==> !PutMoves(s, a, d)
    ensures Overlaps(PutSpan(s, a, d, e), a) <==> PutMoves(s, a, d)
  {
    hide WellConfigured, SpansInv, TrieInv, BinsInv, MergeAdj, Release, SetAlloc, BinPut, SameListing, CallsTile, Moves, MakePlan, Overlaps;
    ReleaseKeeps(s, a, d);
    var s0 := Release(s, d);
    FlagsListing(s, s0, a);
    ListingCalls(s, s0, a);
    MergeAdjCore(s0, a, d, e);
    MergeAdjTiles(s0, a, d, e);
    var (m, s1) := MergeAdj(s0, a, d, e);
    HandReady(s1, a, {m}, m);
    PutCore(s1, a, m, {m});
    FlagsListing(s1, BinPut(s1, m), a);
    ListingCalls(s1, BinPut(s1, m), a);
  }

  // ----- scache_get_span -----

  /** A new mapping gets a call of its own. */
  lemma NewTiles(m: map<Desc, Region>, mapped: set<nat>, mapped': set<nat>, d: Desc, r: Region)
    requires Tiling(m, mapped) && d !in m && r.addr % TRIE_PAGE == 0 && r.nbytes % TRIE_PAGE == 0 && r.nbytes > 0
    requires forall p: nat :: InRegion(r, p) ==> p !in mapped
    requires forall p: nat :: p in mapped' <==> p in mapped || InRegion(r, p)
    ensures Tiling(m[d := r], mapped')
  {
    hide InRegion;
    var m' := m[d := r];
    forall p: nat | p in mapped' ensures exists e :: e in m' && InRegion(m'[e], p) {
      if InRegion(r, p) {
        assert InRegion(m'[d], p);
      } else {
        var e :| e in m && InRegion(m[e], p);
        assert InRegion(m'[e], p);
      }
    }
  }

  lemma MintTiles(s: Cache, a: Arena, d: Desc, c: nat, addr: nat)
    requires ValidArena(a) && SpansInv(s, a) && TrieInv(s, a) && c < |a.sizes| && Fresh(s, a, d, c, addr)
    requires a.unmapOnTermination && CallsTile(s, a)
    ensures CallsTile(Minted(s, a, d, c, addr), a)
  {
    hide WellConfigured, SpansInv, TrieInv, Minted, Fresh, Covers, ClassOf, Tiling, PagesOf;
    var s' := Minted(s, a, d, c, addr);
    var r := Region(addr, a.sizes[c]);
    MintedIs(s, a, d, c, addr);
    MintTrie(s, a, d, c, addr);
    MintPages(s, a, d, c, addr);
    assert Calls(s', a) == Calls(s, a)[d := r];
    NewTiles(Calls(s, a), s.mapped, s'.mapped, d, r);
  }

  lemma MintPages(s: Cache, a: Arena, d: Desc, c: nat, addr: nat)
    requires ValidArena(a) && TrieInv(s, a) && c < |a.sizes| && Fresh(s, a, d, c, addr)
    ensures var r := Region(addr, a.sizes[c]); var s' := Minted(s, a, d, c, addr);
      && r.addr % TRIE_PAGE == 0 && r.nbytes % TRIE_PAGE == 0 && r.nbytes > 0
      && (forall p: nat :: InRegion(r, p) ==> p !in s.mapped)
      && (forall p: nat :: p in s'.mapped <==> p in s.mapped || InRegion(r, p))
  {
    var s' := Minted(s, a, d, c, addr);
    MintedIs(s, a, d, c, addr);
    assert s'.spans[d].addr == addr && s'.spans[d].nbytes == a.sizes[c];
    hide WellConfigured, Minted, Fresh, ClassOf, PagesOf;
    GoodPages(a, s'.spans[d]);
    assert forall p: nat :: InRegion(Region(addr, a.sizes[c]), p) <==> InSpan(s'.spans[d], p);
  }

  lemma TakeTiles(s: Cache, a: Arena, req: nat, e: Env)
    requires ValidArena(a) && CoreInv(s, a, {}) && req < |a.sizes| && EnvOk(s, a, req, e) && a.unmapOnTermination && CallsTile(s, a)
    ensures CallsTile(Take(s, a, req, e).2, a)
  {
    MintClassIn(a, req);
    hide WellConfigured, SpansInv, TrieInv, BinsInv, Mint, Minted, Pop, CallsTile, RegionOk, Fresh, SameListing;
    var i := FindBin(s.bitmap, |a.sizes|, req);
    var s' := Take(s, a, req, e).2;
    if i < 0 {
      MintIs(s, a, req, e);
      var out := Mint(s, a, req, e).0;
      if out.Got? {
        MintTiles(s, a, out.span, MintClass(a, req), e.region.value);
      } else {
        EpochListing(s, s', a);
        ListingCalls(s, s', a);
      }
    } else {
      PopKeeps(s, a, i);
      FlagsListing(s, s', a);
      ListingCalls(s, s', a);
    }
  }

  lemma EpochListing(s: Cache, s': Cache, a: Arena)
    requires OnlyEpochAndPaths(s, s')
    ensures SameListing(s, s', a)
  {
  }

  lemma GetTiles(s: Cache, a: Arena, req: int, slab: bool, e: Env)
    requires ValidArena(a) && GetCall(s, a, req, e) && a.unmapOnTermination && CallsTile(s, a)
    ensures CallsTile(GetSpan(s, a, req, slab, e).1, a)
  {
    hide WellConfigured, CoreInv, Take, Serve, CallsTile, EnvOk, SameListing;
    if 0 <= req < |a.sizes| {
      TakeCore(s, a, req, e);
      TakeTiles(s, a, req, e);
      var (out, over, s1) := Take(s, a, req, e);
      if out.Got? {
        ServeListing(s1, a, out.span, over, req, slab, e);
        ListingCalls(s1, Serve(s1, a, out.span, over, req, slab, e).1, a);
      }
    }
  }

  // ----- scache_get_span_aligned -----

  /** Without the record of `o` nothing unmaps the page it starts on. */
  lemma DropBreaks(s: Cache, a: Arena, o: Desc)
    requires CallsTile(s, a) && Mine(s, a, o) && HasRecord(s, o)
    ensures !CallsTile(DropRecord(s, o), a)
  {
    var m: map<Desc, Region> := Calls(s, a);
    var m' := Calls(DropRecord(s, o), a);
    assert m' == m - {o} && DropRecord(s, o).mapped == s.mapped;
    hide Calls, DropRecord;
    var p := m[o].addr / TRIE_PAGE;
    assert o in m && InRegion(m[o], p) && p in s.mapped;
    assert forall d :: d in m' ==> m'[d] == m[d] && !InRegion(m'[d], p);
  }

  lemma SplitTiles(s: Cache, a: Arena, o: Desc, align: nat, c: nat, e: Env)
    requires ValidArena(a) && SplitCall(s, a, o, align, c, e) && CallsTile(s, a)
    ensures CallsTile(SplitAndInsert(s, a, o, align, c, e), a) <==> !HasRecord(s, o)
  {
    hide WellConfigured, CoreInv, SplitAndInsert, Offset, Pieces, ClassOf, SameListing, CallsTile, DropRecord;
    var off := Offset(s.spans[o].addr, align);
    SplitBasics(s, a, o, align, c, e);
    SplitAndInsertIs(s, a, o, align, c, e);
    PiecesListing(s, a, o, align, c, e);
    PiecesFields(s, a, o, off, c, e);
    var t := Pieces(s, a, o, off, a.sizes[c], e);
    ListingCalls(s, t, a);
    if s.spans[o].record.None? {
      DropNone(t, o);
    } else {
      ListingMine(s, t, a, o);
      DropBreaks(t, a, o);
    }
  }

  lemma ListingMine(s: Cache, s': Cache, a: Arena, d: Desc)
    requires SameListing(s, s', a) && Mine(s, a, d) && HasRecord(s, d)
    ensures Mine(s', a, d) && HasRecord(s', d)
  {
  }

  lemma ServeAlignedTiles(s: Cache, a: Arena, o: Desc, align: nat, c: nat, e: Env)
    requires ValidArena(a) && TakenCall(s, a, o, align, c, e) && CallsTile(s, a)
    ensures CallsTile(ServeAligned(s, a, o, align, c, e).1, a) <==> !(SplitGoes(s, a, o, align, c, e) && HasRecord(s, o))
  {
    hide WellConfigured, CoreInv, SplitAndInsert, Rebin, Offset, AlignUp, IsPow2, SameListing, CallsTile;
    if SplitGoes(s, a, o, align, c, e) {
      var off := Offset(s.spans[o].addr, align);
      SplitReady(s, a, o, align, c, e);
      SplitTiles(s, a, o, align, c, e);
      var s2 := SplitAndInsert(s, a, o, align, c, e);
      RebinListing(s2, a, o, off, c, e);
      ListingCalls(s2, Rebin(s2, a, o, off, c, e), a);
    }
  }

  lemma GetAlignedTiles(s: Cache, a: Arena, lookup: seq<nat>, align: nat, c: nat, e: Env)
    requires ValidArena(a) && AlignedCall(s, a, lookup, align, c, e) && a.unmapOnTermination && CallsTile(s, a)
    ensures CallsTile(GetAligned(s, a, lookup, align, c, e).1, a) <==> !LosesRecord(s, a, lookup, align, c, e)
  {
    assert a.cfg.Valid();
    hide WellConfigured, CoreInv, Take, EnvOk, ReqClass, IsPow2, CallsTile, SplitGoes, ServeAligned;
    var req := ReqClass(a, lookup, align, c);
    if 0 <= req < |a.sizes| {
      TakeCore(s, a, req, e);
      TakeGivesTaken(s, a, req, align, c, e);
      TakeTiles(s, a, req, e);
      var (out, _, s1) := Take(s, a, req, e);
      if out.Got? {
        ServeAlignedTiles(s1, a, out.span, align, c, e);
      }
    }
  }

  // ----- steps and runs -----

  /** The step frees a span, and merging it moves a record to a span that has none. */
  ghost predicate MoveStep(s: Cache, a: Arena, lookup: seq<nat>, t: Step)
    requires Configured(a, lookup) && CoreInv(s, a, {}) && MayStep(s, a, lookup, t)
  {
    t.Put? && PutMoves(s, a, t.span)
  }

  lemma ForeignListing(s: Cache, s': Cache, a: Arena)
    requires Foreign(s, s', a)
    ensures Calls(s', a) == Calls(s, a) && s'.mapped == s.mapped
  {
    assert forall d :: Mine(s', a, d) <==> Mine(s, a, d);
  }

  lemma DecayTiles(s: Cache, a: Arena)
    requires ValidArena(a) && CoreInv(s, a, {}) && CallsTile(s, a)
    ensures CallsTile(Decay(s, a), a)
  {
    hide WellConfigured, CoreInv, CallsTile, DecayFrom, SameListing;
    DecayFromKeeps(s, a, 0);
    FlagsListing(s, Decay(s, a), a);
    ListingCalls(s, Decay(s, a), a);
  }

  /** The calls go on covering every mapped page once, exactly if the step neither cuts up a span with
      a record nor moves one to a span that has none; merging across mappings included. A step that
      moves one leaves a page that will be unmapped twice. */
  lemma StepTiles(s: Cache, a: Arena, lookup: seq<nat>, t: Step)
    requires Configured(a, lookup) && CoreInv(s, a, {}) && MayStep(s, a, lookup, t) && a.unmapOnTermination && CallsTile(s, a)
    ensures CallsTile(Apply(s, a, lookup, t), a) <==> !RecordStep(s, a, lookup, t) && !MoveStep(s, a, lookup, t)
    ensures MoveStep(s, a, lookup, t) ==> Overlaps(Apply(s, a, lookup, t), a)
  {
    hide WellConfigured, CoreInv, EnvOk, GetSpan, GetAligned, PutSpan, Decay, Foreign, CallsTile, LosesRecord, PutMoves, Overlaps;
    match t {
      case Get(req, slab, e) =>
        GetTiles(s, a, req, slab, e);
      case GetAlign(align, c, e) =>
        GetAlignedTiles(s, a, lookup, align, c, e);
      case Put(d, e) =>
        PutTiles(s, a, d, e);
      case DecayAll =>
        DecayTiles(s, a);
      case Others(_, _, _) =>
        ForeignListing(s, Apply(s, a, lookup, t), a);
        SameCallsTile(s, Apply(s, a, lookup, t), a);
    }
  }

  lemma SameCallsTile(s: Cache, s': Cache, a: Arena)
    requires Calls(s', a) == Calls(s, a) && s'.mapped == s.mapped
    ensures CallsTile(s', a) <==> CallsTile(s, a)
  {
  }

  /** No step of the run moves a record to a span that has none. */
  ghost predicate LeavesRecords(states: seq<Cache>, steps: seq<Step>, a: Arena, lookup: seq<nat>)
    requires Configured(a, lookup) && IsRun(states, steps, a, lookup)
  {
    forall i :: 0 <= i < |steps| && CoreInv(states[i], a, {}) ==> !MoveStep(states[i], a, lookup, steps[i])
  }

  lemma {:induction false} RunTiles(states: seq<Cache>, steps: seq<Step>, a: Arena, lookup: seq<nat>, i: nat)
    requires Configured(a, lookup) && IsRun(states, steps, a, lookup) && a.unmapOnTermination
    requires NoLeaks(states, steps, a, lookup) && KeepsRecords(states, steps, a, lookup) && LeavesRecords(states, steps, a, lookup)
    requires CoreInv(states[0], a, {}) && ListedInv(states[0], a) && CallsTile(states[0], a) && i < |states|
    ensures CoreInv(states[i], a, {}) && ListedInv(states[i], a) && CallsTile(states[i], a)
  {
    hide WellConfigured, CoreInv, ListedInv, MayStep, Apply, LeakStep, RecordStep, StepSafe, CallsTile, MoveStep;
    RunListed(states, steps, a, lookup, i);
    if i > 0 {
      RunTiles(states, steps, a, lookup, i - 1);
      assert i - 1 < |steps|;
      StepTiles(states[i - 1], a, lookup, steps[i - 1]);
    }
  }

  // ----- scache_destroy -----

  /** Each mapped page is unmapped by exactly one of the calls, and no other page is. */
  ghost predicate UnmapsOnce(u: seq<Region>, mapped: set<nat>) {
    && (forall i, p: nat :: 0 <= i < |u| && InRegion(u[i], p) ==> p in mapped)
    && (forall p: nat :: p in mapped ==> exists i :: 0 <= i < |u| && InRegion(u[i], p))
    && (forall i, j, p: nat :: 0 <= i < |u| && 0 <= j < |u| && InRegion(u[i], p) && InRegion(u[j], p) ==> i == j)
  }

  lemma CallAt(s: Cache, a: Arena, i: nat)
    requires ListedInv(s, a) && i < |s.origins|
    ensures Recorded(s, s.origins)
    ensures s.origins[i] in Calls(s, a) && Unmaps(s, s.origins)[i] == Calls(s, a)[s.origins[i]]
  {
    ListedSafe(s, a);
    assert s.origins[i] in s.origins;
  }

  lemma CallListed(s: Cache, a: Arena, d: Desc) returns (i: nat)
    requires ListedInv(s, a) && d in Calls(s, a)
    ensures i < |s.origins| && s.origins[i] == d
  {
    assert Mine(s, a, d) && d in s.origins;
    i :| i < |s.origins| && s.origins[i] == d;
  }

  /** What the walk of scache_destroy unmaps is in order when the records are. */
  lemma DestroyUnmapsOnce(s: Cache, a: Arena)
    requires ListedInv(s, a) && CallsTile(s, a)
    ensures Recorded(s, s.origins)
    ensures UnmapsOnce(Unmaps(s, s.origins), s.mapped)
  {
    assert Distinct(s.origins);
    ListedSafe(s, a);
    hide ListedInv, Calls, InRegion, Recorded;
    var (u, m) := (Unmaps(s, s.origins), Calls(s, a));
    forall i | 0 <= i < |u| ensures s.origins[i] in m && u[i] == m[s.origins[i]] {
      CallAt(s, a, i);
    }
    forall p: nat | p in s.mapped ensures exists i :: 0 <= i < |u| && InRegion(u[i], p) {
      var d :| d in m && InRegion(m[d], p);
      var i := CallListed(s, a, d);
      assert InRegion(u[i], p);
    }
  }

  /** Where the calls overlap, a page is unmapped twice. */
  lemma OverlapUnmaps(s: Cache, a: Arena)
    requires ValidArena(a) && SpansInv(s, a) && ListedInv(s, a) && Overlaps(s, a)
    ensures Recorded(s, s.origins)
    ensures !UnmapsOnce(Unmaps(s, s.origins), s.mapped)
  {
    ListedSafe(s, a);
    var l, e :| Twice(Calls(s, a), l, e);
    CallAligned(s, a, l);
    hide ListedInv, Calls, SpansInv, WellConfigured, Recorded, InRegion, Twice;
    var i := CallListed(s, a, l);
    var j := CallListed(s, a, e);
    CallAt(s, a, i);
    CallAt(s, a, j);
    TwiceApart(Calls(s, a), l, e);
    TwicePage(Calls(s, a), l, e);
  }

  lemma TwiceApart(calls: map<Desc, Region>, l: Desc, e: Desc)
    requires Twice(calls, l, e)
    ensures l in calls && e in calls && l != e
  {
  }

  lemma CallAligned(s: Cache, a: Arena, d: Desc)
    requires ValidArena(a) && SpansInv(s, a) && d in Calls(s, a)
    ensures Calls(s, a)[d].addr % TRIE_PAGE == 0
  {
    assert Mine(s, a, d) && GoodSpan(a, s.spans[d]);
    hide WellConfigured, ClassOf;
    GoodPages(a, s.spans[d]);
  }

  lemma InitTiles(a: Arena, spans: map<Desc, Span>, trie: map<nat, Desc>, paths: set<nat>)
    requires Clean(a, spans, trie)
    ensures CallsTile(Init(a, spans, trie, paths), a)
  {
    var s := Init(a, spans, trie, paths);
    assert forall d :: !Mine(s, a, d);
    assert Calls(s, a) == map[];
  }

  /** After any run from the creation of a cache that keeps records, mappings merged or not, which
      loses no span, cuts up no record and moves none to a span without one, destroying the cache
      unmaps every mapped page exactly once, and no other. */
  lemma RunUnmapsOnce(states: seq<Cache>, steps: seq<Step>, a: Arena, lookup: seq<nat>, i: nat)
    requires Configured(a, lookup) && a.unmapOnTermination && FromInit(states, steps, a, lookup) && i < |states|
    requires NoLeaks(states, steps, a, lookup) && KeepsRecords(states, steps, a, lookup) && LeavesRecords(states, steps, a, lookup)
    ensures Recorded(states[i], states[i].origins)
    ensures UnmapsOnce(Unmaps(states[i], states[i].origins), states[i].mapped)
  {
    hide WellConfigured, CoreInv, ListedInv, IsRun, KeepsRecords, NoLeaks, LeavesRecords, Init, CallsTile, NeatInv;
    InitHolds(a, states[0].spans, states[0].trie, states[0].paths);
    InitTiles(a, states[0].spans, states[0].trie, states[0].paths);
    RunTiles(states, steps, a, lookup, i);
    DestroyUnmapsOnce(states[i], a);
  }

  /** With mappings kept apart the right one of two neighbours never has a record. */
  lemma ApartJoins(s: Cache, a: Arena, l: Desc, r: Desc)
    requires ValidArena(a) && SpansInv(s, a) && OriginsInv(s, a) && Joinable(s, a, l, r) && !a.crossMerge
    ensures !HasRecord(s, r)
  {
    assert GoodSpan(a, s.spans[l]);
    hide WellConfigured, ClassOf;
  }

  /** So a put moves no record there; only merging across mappings does. */
  lemma ApartMovesNone(s: Cache, a: Arena, d: Desc)
    requires ValidArena(a) && PutCall(s, a, d) && OriginsInv(s, a) && !a.crossMerge
    ensures !PutMoves(s, a, d)
  {
    hide WellConfigured, TrieInv, BinsInv, OriginsInv, Release, Joinable, MakePlan, SpansInv;
    ReleaseKeeps(s, a, d);
    var s0 := Release(s, d);
    PlanIsOk(s0, a, d);
    var p := MakePlan(s0, a, d);
    if p.left.Some? {
      ApartJoins(s0, a, p.left.value, d);
    }
    if p.right.Some? {
      ApartJoins(s0, a, d, p.right.value);
    }
  }
}
