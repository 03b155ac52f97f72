/** What minting, splitting and coalescing do to the invariant, together with the trie insert
    that goes with each. */
module SpanSteps {
  import opened Bits
  import opened SizeClasses
  import opened Lists
  import opened SpanState
  import opened SpanInvariants

  /** The trie after the pages of `d` were set to `d`. */
  ghost function Cover(s: Cache, d: Desc): Cache
    requires d in s.spans
  {
    s.(trie := s.trie + (map p | p in PagesOf(s.spans[d]) :: d), paths := s.paths + PagesOf(s.spans[d]))
  }

  // ----- class sizes -----

  /** What the cache needs to know about class sizes. */
  lemma ClassFacts(a: Arena, nbytes: nat)
    requires ValidArena(a) && 0 < nbytes <= ALLOC_MAX
    ensures 0 <= ClassOf(a, nbytes) < |a.sizes|
    ensures nbytes <= a.sizes[ClassOf(a, nbytes)]
    ensures forall c :: 0 <= c < |a.sizes| && nbytes <= a.sizes[c] ==> ClassOf(a, nbytes) <= c
  {
    SpanClassIsLeast(a.cfg, a.sizes, nbytes);
  }

  lemma SizeFacts(a: Arena, c: nat)
    requires ValidArena(a) && c < |a.sizes|
    ensures 0 < a.sizes[c] <= ALLOC_MAX && a.sizes[c] % a.cfg.pageSize == 0
    ensures ClassOf(a, a.sizes[c]) == c
  {
    SpanClassOfSize(a.cfg, a.sizes, c);
    NthSpanIs(a.cfg, c);
    hide NthSpan, Units, IsPow2;
    MulDiv(a.cfg.pageSize, Units(a.cfg.steps, c));
  }

  lemma SizesGrow(a: Arena, c: nat, d: nat)
    requires ValidArena(a) && c < d < |a.sizes|
    ensures a.sizes[c] < a.sizes[d]
  {
    NthSpanIs(a.cfg, c);
    NthSpanIs(a.cfg, d);
    hide NthSpan, Units, IsPow2;
    SizeOrder(a.cfg.pageSize, a.cfg.steps, d, c);
  }

  lemma TailPlaced(page: nat, addr: nat, nbytes: nat, cut: nat)
    requires page > 0 && Placed(page, addr, nbytes) && 0 < cut < nbytes && cut % page == 0
    ensures Placed(page, addr, nbytes - cut) && Placed(page, addr + (nbytes - cut), cut)
  {
    TailMultiples(page, addr, nbytes, cut);
  }

  lemma TailMultiples(page: nat, addr: nat, nbytes: nat, cut: nat)
    requires page > 0 && addr % page == 0 && nbytes % page == 0 && 0 < cut < nbytes && cut % page == 0
    ensures page <= cut && page <= nbytes - cut
    ensures (nbytes - cut) % page == 0 && (addr + (nbytes - cut)) % page == 0
  {
    ModSub(nbytes, cut, page);
    ModAdd(addr, nbytes - cut, page);
    PositiveMultiple(cut, page);
    PositiveMultiple(nbytes - cut, page);
  }

  // ----- setting the pages of one span -----

  /** `s'` gives the pages of `d` to `d`, and for the other spans changes nothing on other pages. */
  ghost predicate Covers(s: Cache, s': Cache, a: Arena, d: Desc) {
    && Mine(s', a, d)
    && (forall p: nat :: InSpan(s'.spans[d], p) ==> p < TRIE_SLOTS && p in s'.trie && s'.trie[p] == d && p in s'.mapped && p in s'.paths)
    && (forall p: nat :: !InSpan(s'.spans[d], p) ==>
          && (p in s'.trie <==> p in s.trie) && (p in s.trie ==> s'.trie[p] == s.trie[p])
          && (p in s'.mapped <==> p in s.mapped) && (p in s.paths ==> p in s'.paths))
  }

  /** The other spans, as seen from the pages outside `d`. */
  ghost predicate OthersAgree(s: Cache, s': Cache, a: Arena, d: Desc)
    requires d in s'.spans
  {
    && (forall e, p: nat :: Mine(s', a, e) && e != d && InSpan(s'.spans[e], p) ==>
          Mine(s, a, e) && InSpan(s.spans[e], p) && !InSpan(s'.spans[d], p))
    && (forall p: nat :: p in s.trie && !InSpan(s'.spans[d], p) ==>
          && s.trie[p] in s'.spans && (Mine(s', a, s.trie[p]) <==> Mine(s, a, s.trie[p]))
          && (Mine(s, a, s.trie[p]) ==> InSpan(s'.spans[s.trie[p]], p)))
  }

  lemma CoverKeepsTrie(s: Cache, s': Cache, a: Arena, d: Desc)
    requires TrieInv(s, a) && Covers(s, s', a, d) && OthersAgree(s, s', a, d)
    ensures TrieInv(s', a)
  {
    hide InSpan;
  }

  // ----- coalescing -----

  ghost function Join(s: Cache, a: Arena, l: Desc, r: Desc): Cache
    requires a.cfg.Positive() && l in s.spans && r in s.spans && l != r
  {
    Cover(Coalesce(s, a, l, r), l)
  }

  ghost predicate Joinable(s: Cache, a: Arena, l: Desc, r: Desc) {
    Mine(s, a, l) && Mine(s, a, r) && l != r && CanMerge(s, a, Some(l), Some(r))
  }

  lemma JoinedSpan(s: Cache, a: Arena, l: Desc, r: Desc)
    requires ValidArena(a) && SpansInv(s, a) && Joinable(s, a, l, r)
    ensures GoodSpan(a, Join(s, a, l, r).spans[l])
  {
    var x, y := s.spans[l], s.spans[r];
    assert GoodSpan(a, x) && GoodSpan(a, y);
    hide WellConfigured, ClassOf;
    ModAdd(x.nbytes, y.nbytes, a.cfg.pageSize);
  }

  ghost predicate Geometry(s: Cache, s': Cache, a: Arena, l: Desc, r: Desc)
    requires l in s.spans && r in s.spans
  {
    && s'.spans.Keys == s.spans.Keys - {r} && l in s'.spans
    && (forall d :: d in s'.spans && d != l ==> s'.spans[d] == s.spans[d])
    && s'.spans[l].addr == s.spans[l].addr && s'.spans[l].nbytes == s.spans[l].nbytes + s.spans[r].nbytes
    && s'.spans[l].arena == s.spans[l].arena && s'.spans[l].isAlloc == s.spans[l].isAlloc
    && s.spans[l].addr + s.spans[l].nbytes == s.spans[r].addr
  }

  lemma JoinGeometry(s: Cache, a: Arena, l: Desc, r: Desc)
    requires a.cfg.Positive() && Joinable(s, a, l, r)
    ensures Geometry(s, Join(s, a, l, r), a, l, r)
  {
  }

  /** The joined span has the older age; the left one keeps its record if the right one has none. */
  lemma JoinFields(s: Cache, a: Arena, l: Desc, r: Desc)
    requires a.cfg.Positive() && Joinable(s, a, l, r)
    ensures var s' := Join(s, a, l, r);
      && s' == s.(spans := s'.spans, trie := s'.trie, paths := s'.paths, origins := s'.origins) && l in s'.spans
      && s'.spans[l].age == (if s.spans[l].age < s.spans[r].age then s.spans[l].age else s.spans[r].age)
      && (!a.crossMerge ==> s'.spans[l].age == s.spans[l].age)
      && (s.spans[r].record == None ==> s'.origins == s.origins && s'.spans[l].record == s.spans[l].record)
  {
    hide ClassOf, PagesOf, Without;
  }

  lemma JoinOthers(s: Cache, s': Cache, a: Arena, l: Desc, r: Desc)
    requires TrieInv(s, a) && Mine(s, a, l) && Mine(s, a, r) && l != r && Geometry(s, s', a, l, r)
    ensures forall p: nat :: InSpan(s'.spans[l], p) <==> InSpan(s.spans[l], p) || InSpan(s.spans[r], p)
    ensures OthersAgree(s, s', a, l)
  {
    assert forall p: nat :: InSpan(s'.spans[l], p) <==> InSpan(s.spans[l], p) || InSpan(s.spans[r], p);
    hide InSpan;
    assert forall d :: Mine(s', a, d) <==> Mine(s, a, d) && d != r;
    PagesNamed(s, a, l);
    PagesNamed(s, a, r);
    forall e, p: nat | Mine(s', a, e) && e != l && InSpan(s'.spans[e], p)
      ensures Mine(s, a, e) && InSpan(s.spans[e], p) && !InSpan(s'.spans[l], p)
    {
      assert s.trie[p] == e;
    }
    forall p: nat | p in s.trie && !InSpan(s'.spans[l], p)
      ensures s.trie[p] in s'.spans && (Mine(s', a, s.trie[p]) <==> Mine(s, a, s.trie[p]))
      ensures Mine(s, a, s.trie[p]) ==> InSpan(s'.spans[s.trie[p]], p)
    {
      assert s.trie[p] != r;
    }
  }

  lemma JoinTrie(s: Cache, a: Arena, l: Desc, r: Desc)
    requires ValidArena(a) && SpansInv(s, a) && TrieInv(s, a) && Joinable(s, a, l, r)
    ensures TrieInv(Join(s, a, l, r), a)
  {
    hide WellConfigured, PagesOf, Join, GoodSpan, InSpan, TrieInv, Geometry;
    var s' := Join(s, a, l, r);
    JoinGeometry(s, a, l, r);
    JoinOthers(s, s', a, l, r);
    JoinCovers(s, a, l, r);
    CoverKeepsTrie(s, s', a, l);
  }

  lemma JoinSpans(s: Cache, a: Arena, l: Desc, r: Desc)
    requires ValidArena(a) && SpansInv(s, a) && Joinable(s, a, l, r)
    ensures SpansInv(Join(s, a, l, r), a)
  {
    hide WellConfigured, PagesOf, GoodSpan;
    JoinedSpan(s, a, l, r);
    JoinGeometry(s, a, l, r);
    hide Join;
    var s' := Join(s, a, l, r);
    assert forall d :: Mine(s', a, d) ==> Mine(s, a, d);
  }

  lemma JoinCovers(s: Cache, a: Arena, l: Desc, r: Desc)
    requires ValidArena(a) && SpansInv(s, a) && TrieInv(s, a) && Joinable(s, a, l, r)
    ensures Covers(s, Join(s, a, l, r), a, l)
  {
    hide WellConfigured, PagesOf, GoodSpan, InSpan, TrieInv;
    var s' := Join(s, a, l, r);
    JoinedSpan(s, a, l, r);
    JoinGeometry(s, a, l, r);
    JoinOthers(s, s', a, l, r);
    JoinedPages(s, a, l, r);
    CoverMaps(Coalesce(s, a, l, r), l);
    MappedInside(s, a, l);
    MappedInside(s, a, r);
  }

  lemma PagesNamed(s: Cache, a: Arena, d: Desc)
    requires TrieInv(s, a) && Mine(s, a, d)
    ensures forall p: nat :: InSpan(s.spans[d], p) ==> p in s.trie && s.trie[p] == d
  {
    hide InSpan;
  }

  lemma MappedInside(s: Cache, a: Arena, d: Desc)
    requires TrieInv(s, a) && Mine(s, a, d)
    ensures forall p: nat :: InSpan(s.spans[d], p) ==> p < TRIE_SLOTS && p in s.mapped && p in s.paths
  {
    hide InSpan;
    forall p: nat | InSpan(s.spans[d], p) ensures p < TRIE_SLOTS && p in s.mapped && p in s.paths {
      assert p in s.trie && s.trie[p] == d;
    }
  }

  lemma CoverMaps(s: Cache, d: Desc)
    requires d in s.spans
    ensures var s' := Cover(s, d); var pages := PagesOf(s.spans[d]);
      && s' == s.(trie := s'.trie, paths := s'.paths)
      && (forall p: nat :: p in pages ==> p in s'.trie && s'.trie[p] == d && p in s'.paths)
      && (forall p: nat :: p !in pages ==> (p in s'.trie <==> p in s.trie) && (p in s.trie ==> s'.trie[p] == s.trie[p]))
      && (forall p: nat :: p in s'.paths <==> p in s.paths || p in pages)
  {
    hide PagesOf;
  }

  lemma JoinedPages(s: Cache, a: Arena, l: Desc, r: Desc)
    requires ValidArena(a) && SpansInv(s, a) && Joinable(s, a, l, r)
    ensures var t := Join(s, a, l, r).spans[l]; forall p: nat :: p in PagesOf(t) <==> InSpan(t, p)
  {
    JoinedSpan(s, a, l, r);
    var t := Join(s, a, l, r).spans[l];
    hide Join, PagesOf, InSpan, WellConfigured;
    GoodPages(a, t);
  }

  // ----- splitting -----

  ghost function Cut(s: Cache, a: Arena, o: Desc, f: Desc, cut: nat): Cache
    requires a.cfg.Positive() && o in s.spans && cut < s.spans[o].nbytes
  {
    Cover(CutTail(s, a, o, f, cut, ClassOf(a, cut)), f)
  }

  /** What can be cut off: some whole pages, not all. */
  ghost predicate Cuttable(s: Cache, a: Arena, o: Desc, cut: nat)
    requires a.cfg.Positive()
  {
    o in s.spans && 0 < cut < s.spans[o].nbytes && cut % a.cfg.pageSize == 0
  }

  /** `f` takes the tail of `o`, and nothing else moves. */
  ghost predicate TailMoved(s: Cache, s': Cache, o: Desc, f: Desc, cut: nat)
    requires o in s.spans
  {
    && f !in s.spans && f != o && s'.spans.Keys == s.spans.Keys + {f} && cut < s.spans[o].nbytes
    && (forall d :: d in s.spans && d != o ==> s'.spans[d] == s.spans[d])
    && s'.spans[o].addr == s.spans[o].addr && s'.spans[o].nbytes == s.spans[o].nbytes - cut
    && s'.spans[f].addr == s'.spans[o].addr + s'.spans[o].nbytes && s'.spans[f].nbytes == cut
    && s'.spans[o].arena == s.spans[o].arena == s'.spans[f].arena
  }

  lemma TailOthers(s: Cache, s': Cache, a: Arena, o: Desc, f: Desc, cut: nat)
    requires TrieInv(s, a) && Mine(s, a, o) && TailMoved(s, s', o, f, cut)
    ensures forall p: nat :: InSpan(s.spans[o], p) <==> InSpan(s'.spans[o], p) || InSpan(s'.spans[f], p)
    ensures OthersAgree(s, s', a, f)
  {
    assert forall p: nat :: InSpan(s.spans[o], p) <==> InSpan(s'.spans[o], p) || InSpan(s'.spans[f], p);
    assert forall p: nat :: !(InSpan(s'.spans[o], p) && InSpan(s'.spans[f], p));
    hide InSpan;
    assert forall d :: Mine(s', a, d) <==> Mine(s, a, d) || d == f;
    PagesNamed(s, a, o);
    forall e, p: nat | Mine(s', a, e) && e != f && InSpan(s'.spans[e], p)
      ensures Mine(s, a, e) && InSpan(s.spans[e], p) && !InSpan(s'.spans[f], p)
    {
      if e != o {
        assert s.trie[p] == e;
      }
    }
    forall p: nat | p in s.trie && !InSpan(s'.spans[f], p)
      ensures s.trie[p] in s'.spans && (Mine(s', a, s.trie[p]) <==> Mine(s, a, s.trie[p]))
      ensures Mine(s, a, s.trie[p]) ==> InSpan(s'.spans[s.trie[p]], p)
    {
      assert s.trie[p] != f;
    }
  }

  lemma CutMoves(s: Cache, a: Arena, o: Desc, f: Desc, cut: nat)
    requires a.cfg.Positive() && o in s.spans && f !in s.spans
    requires Cuttable(s, a, o, cut)
    ensures TailMoved(s, Cut(s, a, o, f, cut), o, f, cut)
    ensures var s' := Cut(s, a, o, f, cut);
      && s'.spans[f].szclass == ClassOf(a, cut) && s'.spans[o].szclass == ClassOf(a, s'.spans[o].nbytes)
      && s'.spans[f].state == s'.spans[o].state == s.spans[o].state
  {
    hide ClassOf;
  }

  /** Both parts keep the origin's age and flags, and the origin its record. */
  lemma CutFields(s: Cache, a: Arena, o: Desc, f: Desc, cut: nat)
    requires a.cfg.Positive() && o in s.spans && f !in s.spans && cut < s.spans[o].nbytes
    ensures var s' := Cut(s, a, o, f, cut);
      && s' == s.(spans := s'.spans, trie := s'.trie, paths := s'.paths) && f in s'.spans && o in s'.spans
      && s'.spans[f].isAlloc == s'.spans[o].isAlloc == s.spans[o].isAlloc
      && s'.spans[o].age == s'.spans[f].age == s.spans[o].age
      && s'.spans[o].record == s.spans[o].record && s'.spans[f].record == None
  {
    hide ClassOf, PagesOf;
  }

  lemma CutGood(s: Cache, a: Arena, o: Desc, f: Desc, cut: nat)
    requires ValidArena(a) && SpansInv(s, a) && Mine(s, a, o) && f !in s.spans
    requires Cuttable(s, a, o, cut)
    ensures var s' := Cut(s, a, o, f, cut); GoodSpan(a, s'.spans[o]) && GoodSpan(a, s'.spans[f])
  {
    hide WellConfigured, ClassOf, Cut, Placed;
    assert GoodSpan(a, s.spans[o]);
    CutMoves(s, a, o, f, cut);
    TailPlaced(a.cfg.pageSize, s.spans[o].addr, s.spans[o].nbytes, cut);
  }

  lemma CutTrie(s: Cache, a: Arena, o: Desc, f: Desc, cut: nat)
    requires ValidArena(a) && SpansInv(s, a) && TrieInv(s, a) && Mine(s, a, o) && f !in s.spans
    requires Cuttable(s, a, o, cut)
    ensures TrieInv(Cut(s, a, o, f, cut), a) && SpansInv(Cut(s, a, o, f, cut), a)
  {
    hide WellConfigured, PagesOf, GoodSpan, InSpan, TrieInv;
    var s' := Cut(s, a, o, f, cut);
    CutMoves(s, a, o, f, cut);
    CutGood(s, a, o, f, cut);
    TailOthers(s, s', a, o, f, cut);
    CutPages(a, s'.spans[f]);
    CoverMaps(CutTail(s, a, o, f, cut, ClassOf(a, cut)), f);
    MappedInside(s, a, o);
    hide Cut;
    assert Covers(s, s', a, f);
    CoverKeepsTrie(s, s', a, f);
  }

  lemma CutPages(a: Arena, sp: Span)
    requires ValidArena(a) && GoodSpan(a, sp)
    ensures forall p: nat :: p in PagesOf(sp) <==> InSpan(sp, p)
  {
    hide WellConfigured, PagesOf, InSpan;
    GoodPages(a, sp);
  }

  // ----- minting -----

  /** A span over a region just mapped, as span_create fills it in. */
  function NewSpan(a: Arena, age: nat, c: nat, addr: nat): Span
    requires c < |a.sizes|
  {
    Span(age, c, a.uid, CLEAN, false, false, addr, a.sizes[c],
         if a.unmapOnTermination then Some(a.sizes[c]) else None)
  }

  /** The new span before it is entered in the trie. */
  ghost function MintedBare(s: Cache, a: Arena, d: Desc, c: nat, addr: nat): Cache
    requires c < |a.sizes|
  {
    var sp := NewSpan(a, s.epoch % AGE_LIMIT, c, addr);
    s.(spans := s.spans[d := sp], epoch := (s.epoch + 1) % UINT32_LIMIT,
       mapped := s.mapped + PagesOf(sp), regions := s.regions[s.epoch := Region(addr, a.sizes[c])],
       origins := if a.unmapOnTermination then [d] + s.origins else s.origins)
  }

  /** A mint that worked: a new span over a new region, in the trie and among the origins. */
  ghost function Minted(s: Cache, a: Arena, d: Desc, c: nat, addr: nat): Cache
    requires c < |a.sizes|
  {
    Cover(MintedBare(s, a, d, c, addr), d)
  }

  /** What the mapper and the descriptor pool promise. */
  ghost predicate Fresh(s: Cache, a: Arena, d: Desc, c: nat, addr: nat)
    requires ValidArena(a) && c < |a.sizes|
  {
    && d !in s.spans && Placed(a.cfg.pageSize, addr, a.sizes[c])
    && forall p: nat :: p in Pages(addr, a.sizes[c]) ==> p !in s.trie
  }

  lemma NewSpanPages(s: Cache, a: Arena, d: Desc, c: nat, addr: nat, sp: Span)
    requires ValidArena(a) && c < |a.sizes| && Fresh(s, a, d, c, addr)
    requires sp == NewSpan(a, s.epoch % AGE_LIMIT, c, addr)
    ensures GoodSpan(a, sp)
    ensures forall p: nat :: p in PagesOf(sp) <==> InSpan(sp, p)
    ensures forall p: nat :: InSpan(sp, p) ==> p !in s.trie && p < TRIE_SLOTS
  {
    assert PagesOf(sp) == Pages(addr, a.sizes[c]);
    hide WellConfigured, ClassOf, PagesOf, Pages;
    SizeFacts(a, c);
    CutPages(a, sp);
    PagesBelow(a, sp);
  }

  lemma MintedIs(s: Cache, a: Arena, d: Desc, c: nat, addr: nat)
    requires ValidArena(a) && c < |a.sizes| && Fresh(s, a, d, c, addr)
    ensures var s' := Minted(s, a, d, c, addr);
      && d !in s.spans && s'.spans.Keys == s.spans.Keys + {d} && Mine(s', a, d) && GoodSpan(a, s'.spans[d])
      && s'.spans[d] == NewSpan(a, s.epoch % AGE_LIMIT, c, addr)
      && (forall e :: e in s.spans ==> s'.spans[e] == s.spans[e])
      && (forall p: nat :: InSpan(s'.spans[d], p) ==> p !in s.trie)
      && Covers(s, s', a, d)
  {
    hide WellConfigured, PagesOf, Pages, InSpan, GoodSpan, Cover, Placed;
    var s1 := MintedBare(s, a, d, c, addr);
    NewSpanPages(s, a, d, c, addr, s1.spans[d]);
    CoverMaps(s1, d);
  }

  /** `d` is new, and no page of it was in the trie. */
  lemma NewOthers(s: Cache, s': Cache, a: Arena, d: Desc)
    requires TrieInv(s, a) && d !in s.spans && s'.spans.Keys == s.spans.Keys + {d}
    requires forall e :: e in s.spans ==> s'.spans[e] == s.spans[e]
    requires forall p: nat :: InSpan(s'.spans[d], p) ==> p !in s.trie
    ensures OthersAgree(s, s', a, d)
  {
    hide InSpan;
    assert forall e :: Mine(s', a, e) && e != d <==> Mine(s, a, e);
    forall e, p: nat | Mine(s', a, e) && e != d && InSpan(s'.spans[e], p)
      ensures Mine(s, a, e) && InSpan(s.spans[e], p) && !InSpan(s'.spans[d], p)
    {
      PagesNamed(s, a, e);
    }
    forall p: nat | p in s.trie && !InSpan(s'.spans[d], p)
      ensures s.trie[p] in s'.spans && (Mine(s', a, s.trie[p]) <==> Mine(s, a, s.trie[p]))
      ensures Mine(s, a, s.trie[p]) ==> InSpan(s'.spans[s.trie[p]], p)
    {
      assert s.trie[p] in s.spans && s.trie[p] != d;
    }
  }

  lemma MintTrie(s: Cache, a: Arena, d: Desc, c: nat, addr: nat)
    requires ValidArena(a) && SpansInv(s, a) && TrieInv(s, a) && c < |a.sizes| && Fresh(s, a, d, c, addr)
    ensures TrieInv(Minted(s, a, d, c, addr), a)
  {
    var s' := Minted(s, a, d, c, addr);
    MintedIs(s, a, d, c, addr);
    hide Minted, WellConfigured, InSpan, GoodSpan, NewSpan, Fresh, TrieInv, Covers;
    NewOthers(s, s', a, d);
    CoverKeepsTrie(s, s', a, d);
  }

  lemma MintSpans(s: Cache, a: Arena, d: Desc, c: nat, addr: nat)
    requires ValidArena(a) && SpansInv(s, a) && c < |a.sizes| && Fresh(s, a, d, c, addr)
    ensures SpansInv(Minted(s, a, d, c, addr), a)
  {
    var s' := Minted(s, a, d, c, addr);
    MintedIs(s, a, d, c, addr);
    hide Minted, WellConfigured, PagesOf, GoodSpan, NewSpan, Fresh;
    assert forall e :: Mine(s', a, e) ==> Mine(s, a, e) || e == d;
  }

  lemma PagesBelow(a: Arena, sp: Span)
    requires ValidArena(a) && GoodSpan(a, sp)
    ensures forall p: nat :: InSpan(sp, p) ==> p < TRIE_SLOTS
  {
  }

  // ----- what these steps leave alone: bins, and the other free spans -----

  /** The free spans outside the hand are the same, and so are the bins. */
  ghost predicate SameFree(s: Cache, s': Cache, a: Arena, hand: set<Desc>, hand': set<Desc>) {
    && s'.bins == s.bins && s'.bitmap == s.bitmap
    && (forall d :: FreeSpan(s', a, hand', d) <==> FreeSpan(s, a, hand, d))
    && (forall d :: FreeSpan(s, a, hand, d) ==> d in s'.spans && s'.spans[d] == s.spans[d])
    && (forall d :: d in hand' ==> Mine(s', a, d) && !s'.spans[d].isAlloc)
  }

  lemma SameFreeKeeps(s: Cache, s': Cache, a: Arena, hand: set<Desc>, hand': set<Desc>)
    requires BinsInv(s, a, hand) && SameFree(s, s', a, hand, hand')
    ensures BinsInv(s', a, hand')
    ensures CoalescedInv(s, a, hand) ==> CoalescedInv(s', a, hand')
  {
    assert forall c: int, k, d :: InBucket(s', c, k, d) <==> InBucket(s, c, k, d);
    assert CountsInv(s') && BitmapInv(s') && Shape(s', |a.sizes|);
    hide InBucket, CountsInv, BitmapInv, FreeSpan, Adjacent;
  }

  lemma JoinFree(s: Cache, a: Arena, l: Desc, r: Desc, hand: set<Desc>)
    requires BinsInv(s, a, hand) && a.cfg.Positive() && Joinable(s, a, l, r) && l in hand && r in hand
    ensures SameFree(s, Join(s, a, l, r), a, hand, hand - {r})
  {
    hide Join, ClassOf;
    JoinGeometry(s, a, l, r);
    JoinFields(s, a, l, r);
    var s' := Join(s, a, l, r);
    assert forall d :: Mine(s', a, d) <==> Mine(s, a, d) && d != r;
  }

  lemma CutFree(s: Cache, a: Arena, o: Desc, f: Desc, cut: nat, hand: set<Desc>)
    requires BinsInv(s, a, hand) && a.cfg.Positive() && o in hand && f !in s.spans
    requires Cuttable(s, a, o, cut)
    ensures SameFree(s, Cut(s, a, o, f, cut), a, hand, hand + {f})
  {
    hide Cut, ClassOf;
    CutMoves(s, a, o, f, cut);
    CutFields(s, a, o, f, cut);
    var s' := Cut(s, a, o, f, cut);
    assert forall d :: Mine(s', a, d) <==> Mine(s, a, d) || d == f;
  }

  lemma MintedFlags(s: Cache, a: Arena, d: Desc, c: nat, addr: nat)
    requires c < |a.sizes|
    ensures var s' := Minted(s, a, d, c, addr); var sp := NewSpan(a, s.epoch % AGE_LIMIT, c, addr);
      && s'.bins == s.bins && s'.bitmap == s.bitmap && s'.spans == s.spans[d := sp] && sp.arena == a.uid && !sp.isAlloc
  {
    hide PagesOf;
  }

  lemma MintFree(s: Cache, a: Arena, d: Desc, c: nat, addr: nat, hand: set<Desc>)
    requires BinsInv(s, a, hand) && d !in s.spans && c < |a.sizes|
    ensures SameFree(s, Minted(s, a, d, c, addr), a, hand, hand + {d})
  {
    hide Minted, MintedBare, NewSpan;
    MintedFlags(s, a, d, c, addr);
    var s' := Minted(s, a, d, c, addr);
    assert forall e :: Mine(s', a, e) <==> Mine(s, a, e) || e == d;
  }

  // ----- neighbours -----

  /** No free span outside the hand is a neighbour of `d`. */
  ghost predicate Lonely(s: Cache, a: Arena, hand: set<Desc>, d: Desc)
    requires d in s.spans
  {
    forall e :: FreeSpan(s, a, hand, e) ==> !Adjacent(s.spans[e], s.spans[d]) && !Adjacent(s.spans[d], s.spans[e])
  }

  lemma BinPutCoalesced(s: Cache, a: Arena, d: Desc, hand: set<Desc>)
    requires BinsInv(s, a, hand) && d in hand && d in s.spans && 0 <= s.spans[d].szclass < |s.bins|
    requires CoalescedInv(s, a, hand) && Lonely(s, a, hand, d) && s.spans[d].nbytes > 0
    ensures CoalescedInv(BinPut(s, d), a, hand - {d})
  {
    BinPutKeeps(s, a, d, hand);
    hide BinPut, BinsInv;
    FlagsCoalesced(s, BinPut(s, d), a, d, hand);
  }

  lemma FlagsCoalesced(s: Cache, s': Cache, a: Arena, d: Desc, hand: set<Desc>)
    requires OnlyFlagsOf(s, s', d) && d in hand
    requires CoalescedInv(s, a, hand) && Lonely(s, a, hand, d) && s.spans[d].nbytes > 0
    ensures CoalescedInv(s', a, hand - {d})
  {
    assert forall e :: FreeSpan(s', a, hand - {d}, e) ==> e == d || FreeSpan(s, a, hand, e);
    assert s'.spans[d] == s.spans[d].(state := s'.spans[d].state, isAlloc := s'.spans[d].isAlloc, isSlab := s'.spans[d].isSlab);
    assert forall x :: Adjacent(x, s'.spans[d]) <==> Adjacent(x, s.spans[d]);
    assert forall x :: Adjacent(s'.spans[d], x) <==> Adjacent(s.spans[d], x);
    hide FreeSpan, SamePlaces;
  }

  lemma InBucketFree(s: Cache, a: Arena, c: nat, k: nat, d: Desc, hand: set<Desc>)
    requires BinsInv(s, a, hand) && InBucket(s, c, k, d)
    ensures FreeSpan(s, a, hand, d) && Shape(s, |s.bins|)
  {
  }

  lemma UnbinCoalesced(s: Cache, a: Arena, c: nat, k: nat, d: Desc, epochMin: nat, hand: set<Desc>)
    requires BinsInv(s, a, hand) && InBucket(s, c, k, d) && CoalescedInv(s, a, hand)
    ensures d in s.spans && s.bins[c].nspans > 0
    ensures CoalescedInv(Unbin(s, c, k, d, epochMin), a, hand + {d})
    ensures d in Unbin(s, c, k, d, epochMin).spans && Lonely(Unbin(s, c, k, d, epochMin), a, hand + {d}, d)
  {
    hide Unbin, BinsInv;
    UnbinKeeps(s, a, c, k, d, epochMin, hand);
    InBucketFree(s, a, c, k, d, hand);
    var s' := Unbin(s, c, k, d, epochMin);
    assert forall e :: FreeSpan(s', a, hand + {d}, e) ==> FreeSpan(s, a, hand, e) && s'.spans[e] == s.spans[e];
  }

  // ----- ages -----

  /** The age of a mapped page is that of the span it starts in. */
  lemma AgesAre(s: Cache, a: Arena)
    requires TrieInv(s, a)
    ensures Ages(s).Keys == s.mapped
    ensures forall d, p: nat :: Mine(s, a, d) && InSpan(s.spans[d], p) ==> p in Ages(s) && Ages(s)[p] == s.spans[d].age
    ensures forall p: nat :: p in s.mapped ==> p in s.trie && Mine(s, a, s.trie[p]) && InSpan(s.spans[s.trie[p]], p)
  {
    hide InSpan;
    forall p: nat | p in s.mapped ensures p in s.trie && Mine(s, a, s.trie[p]) && InSpan(s.spans[s.trie[p]], p) {
    }
  }

  /** Every span is older than the next mapping. */
  lemma AgesOld(s: Cache, a: Arena, d: Desc)
    requires ValidArena(a) && SpansInv(s, a) && TrieInv(s, a) && ApartInv(s, a) && Mine(s, a, d)
    ensures s.spans[d].age < s.epoch
  {
    if a.crossMerge {
      assert GoodSpan(a, s.spans[d]);
      hide WellConfigured, ClassOf, RegionsInv, HomeInv, TrieInv, Valley, Ages, SpansInv;
      AgesAre(s, a);
      GoodPages(a, s.spans[d]);
      var p := s.spans[d].addr / TRIE_PAGE;
      assert InSpan(s.spans[d], p);
      assert p in Ages(s) && Ages(s)[p] == s.spans[d].age;
    } else {
      AgesBelow(s, a);
    }
  }

  lemma ValleyAt(m: map<nat, nat>, p: nat, q: nat, r: nat)
    requires Valley(m) && p < q < r && p in m && r in m && m[p] == m[r]
    ensures q in m && m[q] <= m[p]
  {
    assert NoRidge(m, p, q, r);
  }

  /** Pages from `lo` to `mid` and from there to `hi` are joined under the older of two ages. */
  ghost predicate AgesJoin(m: map<nat, nat>, m': map<nat, nat>, lo: nat, mid: nat, hi: nat, x: nat, y: nat) {
    && m'.Keys == m.Keys && lo < mid < hi
    && (forall p :: lo <= p < hi ==> p in m && m[p] == if p < mid then x else y)
    && (forall p :: p in m ==> m'[p] == if lo <= p < hi then (if x < y then x else y) else m[p])
  }

  lemma JoinAt(m: map<nat, nat>, m': map<nat, nat>, lo: nat, mid: nat, hi: nat, x: nat, y: nat, p: nat, q: nat, r: nat)
    requires Valley(m) && AgesJoin(m, m', lo, mid, hi, x, y) && p < q < r && p in m && r in m && m'[p] == m'[r]
    ensures q in m && m'[q] <= m'[p]
  {
    hide Valley;
    var eldest := if x < y then lo else hi - 1;
    assert m[eldest] == m'[eldest];
    if lo <= q < hi {
      if p < lo && hi <= r {
        ValleyAt(m, p, eldest, r);
      }
    } else if lo <= p < hi {
      ValleyAt(m, eldest, q, r);
    } else if lo <= r < hi {
      ValleyAt(m, p, q, eldest);
    } else {
      ValleyAt(m, p, q, r);
    }
  }

  lemma ValleyJoins(m: map<nat, nat>, m': map<nat, nat>, lo: nat, mid: nat, hi: nat, x: nat, y: nat)
    requires Valley(m) && AgesJoin(m, m', lo, mid, hi, x, y)
    ensures Valley(m')
  {
    forall p: nat, q: nat, r: nat ensures NoRidge(m', p, q, r) {
      if p < q < r && p in m' && r in m' && m'[p] == m'[r] {
        JoinAt(m, m', lo, mid, hi, x, y, p, q, r);
      }
    }
  }

  // ----- regions, ages and origins -----

  lemma JoinHome(s: Cache, a: Arena, l: Desc, r: Desc)
    requires ValidArena(a) && HomeInv(s, a) && Joinable(s, a, l, r) && !a.crossMerge
    ensures HomeInv(Join(s, a, l, r), a)
  {
    hide Join, WellConfigured, InRegion, ClassOf;
    JoinGeometry(s, a, l, r);
    JoinFields(s, a, l, r);
    var s' := Join(s, a, l, r);
    assert forall d :: Mine(s', a, d) ==> Mine(s, a, d);
  }

  lemma JoinRegions(s: Cache, a: Arena, l: Desc, r: Desc)
    requires ValidArena(a) && RegionsInv(s, a) && Joinable(s, a, l, r)
    ensures RegionsInv(Join(s, a, l, r), a)
  {
    hide Join, WellConfigured, InRegion, ClassOf, Placed;
    JoinFields(s, a, l, r);
  }

  /** The pages of the joined span get the older age, the others keep theirs. */
  lemma JoinAges(s: Cache, a: Arena, l: Desc, r: Desc)
    requires ValidArena(a) && SpansInv(s, a) && TrieInv(s, a) && Joinable(s, a, l, r)
    ensures var (m, m') := (Ages(s), Ages(Join(s, a, l, r))); var (x, y) := (s.spans[l], s.spans[r]);
      && m'.Keys == m.Keys
      && (forall p: nat :: InSpan(x, p) ==> p in m && m[p] == x.age)
      && (forall p: nat :: InSpan(y, p) ==> p in m && m[p] == y.age)
      && (forall p: nat :: p in m ==> m'[p] == if InSpan(x, p) || InSpan(y, p) then (if x.age < y.age then x.age else y.age) else m[p])
  {
    hide Join, WellConfigured, InSpan, ClassOf, SpansInv, TrieInv, Ages, Geometry;
    var s' := Join(s, a, l, r);
    JoinTrie(s, a, l, r);
    JoinGeometry(s, a, l, r);
    JoinFields(s, a, l, r);
    JoinOthers(s, s', a, l, r);
    AgesAre(s, a);
    AgesAre(s', a);
    JoinedAges(s, s', a, l, r);
  }

  lemma JoinedAges(s: Cache, s': Cache, a: Arena, l: Desc, r: Desc)
    requires Mine(s, a, l) && Mine(s, a, r) && l != r && Geometry(s, s', a, l, r) && s'.mapped == s.mapped
    requires Ages(s).Keys == s.mapped && Ages(s').Keys == s'.mapped
    requires forall d, p: nat :: Mine(s, a, d) && InSpan(s.spans[d], p) ==> p in Ages(s) && Ages(s)[p] == s.spans[d].age
    requires forall d, p: nat :: Mine(s', a, d) && InSpan(s'.spans[d], p) ==> p in Ages(s') && Ages(s')[p] == s'.spans[d].age
    requires forall p: nat :: p in s.mapped ==> p in s.trie && Mine(s, a, s.trie[p]) && InSpan(s.spans[s.trie[p]], p)
    requires forall p: nat :: InSpan(s'.spans[l], p) <==> InSpan(s.spans[l], p) || InSpan(s.spans[r], p)
    ensures forall p: nat :: p in Ages(s) ==> Ages(s')[p] == if InSpan(s.spans[l], p) || InSpan(s.spans[r], p) then s'.spans[l].age else Ages(s)[p]
  {
    hide InSpan, Ages;
    forall p: nat | p in Ages(s) && !InSpan(s.spans[l], p) && !InSpan(s.spans[r], p) ensures Ages(s')[p] == Ages(s)[p] {
      var d := s.trie[p];
      assert d != l && d != r && Mine(s', a, d) && s'.spans[d] == s.spans[d];
    }
  }

  lemma JoinBlend(s: Cache, a: Arena, l: Desc, r: Desc)
    requires ValidArena(a) && SpansInv(s, a) && TrieInv(s, a) && BlendInv(s) && Joinable(s, a, l, r)
    ensures BlendInv(Join(s, a, l, r))
  {
    var (x, y) := (s.spans[l], s.spans[r]);
    assert GoodSpan(a, x) && GoodSpan(a, y);
    hide Join, WellConfigured, ClassOf, SpansInv, TrieInv, Ages, Valley;
    JoinAges(s, a, l, r);
    JoinFields(s, a, l, r);
    GoodPages(a, x);
    GoodPages(a, y);
    var (lo, mid, hi) := (x.addr / TRIE_PAGE, y.addr / TRIE_PAGE, (y.addr + y.nbytes) / TRIE_PAGE);
    SpanRange(x, y, lo, mid, hi);
    ValleyJoins(Ages(s), Ages(Join(s, a, l, r)), lo, mid, hi, x.age, y.age);
  }

  /** Two neighbours start on the pages of two ranges that meet. */
  lemma SpanRange(x: Span, y: Span, lo: nat, mid: nat, hi: nat)
    requires x.addr % TRIE_PAGE == 0 && x.nbytes % TRIE_PAGE == 0 && y.nbytes % TRIE_PAGE == 0 && x.nbytes > 0 && y.nbytes > 0
    requires x.addr + x.nbytes == y.addr
    requires lo == x.addr / TRIE_PAGE && mid == y.addr / TRIE_PAGE && hi == (y.addr + y.nbytes) / TRIE_PAGE
    ensures lo < mid < hi
    ensures forall p: nat :: (InSpan(x, p) <==> lo <= p < mid) && (InSpan(y, p) <==> mid <= p < hi)
  {
  }

  lemma JoinApart(s: Cache, a: Arena, l: Desc, r: Desc)
    requires ValidArena(a) && SpansInv(s, a) && TrieInv(s, a) && ApartInv(s, a) && Joinable(s, a, l, r)
    ensures ApartInv(Join(s, a, l, r), a)
  {
    hide Join, WellConfigured, SpansInv, TrieInv, RegionsInv, HomeInv, BlendInv;
    JoinRegions(s, a, l, r);
    if a.crossMerge {
      JoinBlend(s, a, l, r);
    } else {
      JoinHome(s, a, l, r);
    }
  }

  /** The right one of two neighbours of a region is not the region's first, so it has no record. */
  lemma JoinOrigins(s: Cache, a: Arena, l: Desc, r: Desc)
    requires ValidArena(a) && SpansInv(s, a) && OriginsInv(s, a)
    requires Joinable(s, a, l, r) && !a.crossMerge
    ensures OriginsInv(Join(s, a, l, r), a)
  {
    hide Join, WellConfigured, ClassOf;
    JoinHome(s, a, l, r);
    assert GoodSpan(a, s.spans[l]);
    assert s.spans[r].record == None;
    JoinGeometry(s, a, l, r);
    JoinFields(s, a, l, r);
    var s' := Join(s, a, l, r);
    assert forall d :: Mine(s', a, d) <==> Mine(s, a, d) && d != r;
  }

  lemma CutHome(s: Cache, a: Arena, o: Desc, f: Desc, cut: nat)
    requires ValidArena(a) && HomeInv(s, a) && Mine(s, a, o) && f !in s.spans
    requires Cuttable(s, a, o, cut)
    ensures HomeInv(Cut(s, a, o, f, cut), a)
  {
    hide Cut, WellConfigured, InRegion, ClassOf;
    CutMoves(s, a, o, f, cut);
    CutFields(s, a, o, f, cut);
    var s' := Cut(s, a, o, f, cut);
    assert forall d :: Mine(s', a, d) ==> Mine(s, a, d) || d == f;
  }

  lemma CutRegions(s: Cache, a: Arena, o: Desc, f: Desc, cut: nat)
    requires ValidArena(a) && RegionsInv(s, a) && Mine(s, a, o) && f !in s.spans
    requires Cuttable(s, a, o, cut)
    ensures RegionsInv(Cut(s, a, o, f, cut), a)
  {
    hide Cut, WellConfigured, InRegion, ClassOf, Placed;
    CutFields(s, a, o, f, cut);
  }

  /** A cut changes the age of no page. */
  lemma CutAgesSame(s: Cache, a: Arena, o: Desc, f: Desc, cut: nat)
    requires ValidArena(a) && SpansInv(s, a) && TrieInv(s, a) && Mine(s, a, o) && f !in s.spans && Cuttable(s, a, o, cut)
    ensures Ages(Cut(s, a, o, f, cut)) == Ages(s)
  {
    hide Cut, WellConfigured, ClassOf, SpansInv, TrieInv, Ages;
    var s' := Cut(s, a, o, f, cut);
    CutTrie(s, a, o, f, cut);
    CutMoves(s, a, o, f, cut);
    CutFields(s, a, o, f, cut);
    AgesAre(s, a);
    AgesAre(s', a);
    forall p: nat | p in Ages(s) ensures Ages(s')[p] == Ages(s)[p] {
      var d := s'.trie[p];
      assert Mine(s', a, d) && InSpan(s'.spans[d], p);
      if d == f {
        assert InSpan(s.spans[o], p);
      } else {
        assert Mine(s, a, d) && InSpan(s.spans[d], p);
      }
    }
  }

  lemma CutApart(s: Cache, a: Arena, o: Desc, f: Desc, cut: nat)
    requires ValidArena(a) && SpansInv(s, a) && TrieInv(s, a) && ApartInv(s, a) && Mine(s, a, o) && f !in s.spans
    requires Cuttable(s, a, o, cut)
    ensures ApartInv(Cut(s, a, o, f, cut), a)
  {
    hide Cut, WellConfigured, SpansInv, TrieInv, RegionsInv, HomeInv, BlendInv, Cuttable;
    CutRegions(s, a, o, f, cut);
    if a.crossMerge {
      CutEpoch(s, a, o, f, cut);
      CutAgesSame(s, a, o, f, cut);
      BlendSame(s, Cut(s, a, o, f, cut));
    } else {
      CutHome(s, a, o, f, cut);
    }
  }

  lemma CutEpoch(s: Cache, a: Arena, o: Desc, f: Desc, cut: nat)
    requires a.cfg.Positive() && Cuttable(s, a, o, cut)
    ensures cut < s.spans[o].nbytes && Cut(s, a, o, f, cut).epoch == s.epoch
  {
    hide ClassOf, PagesOf;
  }

  lemma CutOrigins(s: Cache, a: Arena, o: Desc, f: Desc, cut: nat)
    requires ValidArena(a) && OriginsInv(s, a) && Mine(s, a, o) && f !in s.spans
    requires Cuttable(s, a, o, cut)
    ensures OriginsInv(Cut(s, a, o, f, cut), a)
  {
    hide Cut, WellConfigured, ClassOf;
    CutHome(s, a, o, f, cut);
    CutMoves(s, a, o, f, cut);
    CutFields(s, a, o, f, cut);
    var s' := Cut(s, a, o, f, cut);
    assert forall d :: Mine(s', a, d) <==> Mine(s, a, d) || d == f;
  }

  /** One more span, `d`, on a region of its own. */
  ghost predicate NewHere(s: Cache, s': Cache, a: Arena, d: Desc, r: Region) {
    && d !in s.spans && s'.spans.Keys == s.spans.Keys + {d} && Mine(s', a, d)
    && (forall e :: e in s.spans ==> s'.spans[e] == s.spans[e])
    && s'.spans[d].age == s.epoch && s'.spans[d].addr == r.addr && s'.spans[d].nbytes == r.nbytes
    && s'.regions == s.regions[s.epoch := r] && s'.epoch == s.epoch + 1
  }

  lemma MintedFields(s: Cache, a: Arena, d: Desc, c: nat, addr: nat)
    requires c < |a.sizes| && d !in s.spans && s.epoch + 1 < AGE_LIMIT
    ensures var s' := Minted(s, a, d, c, addr); var r := Region(addr, a.sizes[c]);
      && NewHere(s, s', a, d, r) && s'.mapped == s.mapped + PagesOf(s'.spans[d])
      && s'.spans[d].record == (if a.unmapOnTermination then Some(r.nbytes) else None)
      && s'.origins == (if a.unmapOnTermination then [d] + s.origins else s.origins)
  {
    hide PagesOf;
  }

  lemma MintedRegion(s: Cache, a: Arena, d: Desc, c: nat, addr: nat)
    requires ValidArena(a) && c < |a.sizes| && Fresh(s, a, d, c, addr) && s.epoch + 1 < AGE_LIMIT
    ensures var s' := Minted(s, a, d, c, addr); var r := Region(addr, a.sizes[c]);
      && Placed(a.cfg.pageSize, r.addr, r.nbytes)
      && (forall p: nat :: InRegion(r, p) ==> p !in s.trie && p in s'.mapped)
      && (forall p: nat :: p in s.mapped ==> p in s'.mapped)
  {
    MintedIs(s, a, d, c, addr);
    MintedFields(s, a, d, c, addr);
    var s' := Minted(s, a, d, c, addr);
    var r := Region(addr, a.sizes[c]);
    assert s'.spans[d].addr == r.addr && s'.spans[d].nbytes == r.nbytes;
    hide Minted, WellConfigured, GoodSpan, PagesOf;
    assert forall p: nat :: InRegion(r, p) <==> InSpan(s'.spans[d], p);
  }

  lemma NewHome(s: Cache, s': Cache, a: Arena, d: Desc, r: Region)
    requires ValidArena(a) && RegionsInv(s, a) && HomeInv(s, a) && NewHere(s, s', a, d, r)
    ensures HomeInv(s', a)
  {
    AgesBelow(s, a);
    hide WellConfigured, RegionsInv;
    assert forall e :: Mine(s', a, e) ==> Mine(s, a, e) || e == d;
  }

  lemma MintAges(s: Cache, a: Arena, d: Desc, c: nat, addr: nat)
    requires ValidArena(a) && SpansInv(s, a) && TrieInv(s, a) && c < |a.sizes| && Fresh(s, a, d, c, addr)
    requires s.epoch + 1 < AGE_LIMIT
    ensures var s' := Minted(s, a, d, c, addr); var sp := NewSpan(a, s.epoch % AGE_LIMIT, c, addr);
      && (forall p: nat :: p in Ages(s') <==> p in Ages(s) || InSpan(sp, p))
      && (forall p: nat :: InSpan(sp, p) ==> p !in Ages(s) && Ages(s')[p] == s.epoch)
      && (forall p: nat :: p in Ages(s) ==> p in Ages(s') && Ages(s')[p] == Ages(s)[p])
  {
    hide Minted, WellConfigured, SpansInv, TrieInv, Fresh, Covers, Ages, GoodSpan, ClassOf, InSpan;
    var s' := Minted(s, a, d, c, addr);
    MintTrie(s, a, d, c, addr);
    MintedIs(s, a, d, c, addr);
    AgesAre(s, a);
    AgesAre(s', a);
    MintedAges(s, s', a, d);
  }

  /** The pages of a new mapping are new, and younger than all others. */
  lemma MintBlend(s: Cache, a: Arena, d: Desc, c: nat, addr: nat)
    requires ValidArena(a) && SpansInv(s, a) && TrieInv(s, a) && BlendInv(s) && c < |a.sizes| && Fresh(s, a, d, c, addr)
    requires s.epoch + 1 < AGE_LIMIT
    ensures BlendInv(Minted(s, a, d, c, addr))
  {
    hide Minted, WellConfigured, SpansInv, TrieInv, Ages, ClassOf, Valley, Placed, InSpan, Pages;
    var s' := Minted(s, a, d, c, addr);
    var hi := (addr + a.sizes[c]) / TRIE_PAGE;
    MintAges(s, a, d, c, addr);
    MintedEpoch(s, a, d, c, addr);
    NewSpanRange(a, NewSpan(a, s.epoch % AGE_LIMIT, c, addr));
    ValleyMints(Ages(s), Ages(s'), addr / TRIE_PAGE, hi, s.epoch);
  }

  lemma MintedEpoch(s: Cache, a: Arena, d: Desc, c: nat, addr: nat)
    requires c < |a.sizes| && s.epoch + 1 < AGE_LIMIT
    ensures Minted(s, a, d, c, addr).epoch == s.epoch + 1
  {
    hide PagesOf;
  }

  lemma NewSpanRange(a: Arena, sp: Span)
    requires ValidArena(a) && Placed(a.cfg.pageSize, sp.addr, sp.nbytes)
    ensures forall p: nat :: InSpan(sp, p) <==> sp.addr / TRIE_PAGE <= p < (sp.addr + sp.nbytes) / TRIE_PAGE
  {
    hide WellConfigured;
    GoodPages(a, sp);
  }

  lemma MintedAges(s: Cache, s': Cache, a: Arena, d: Desc)
    requires d !in s.spans && Mine(s', a, d) && s'.spans.Keys == s.spans.Keys + {d} && s'.spans[d].age == s.epoch
    requires forall e :: e in s.spans ==> s'.spans[e] == s.spans[e]
    requires Ages(s).Keys == s.mapped && Ages(s').Keys == s'.mapped
    requires forall e, p: nat :: Mine(s, a, e) && InSpan(s.spans[e], p) ==> p in Ages(s) && Ages(s)[p] == s.spans[e].age
    requires forall e, p: nat :: Mine(s', a, e) && InSpan(s'.spans[e], p) ==> p in Ages(s') && Ages(s')[p] == s'.spans[e].age
    requires forall p: nat :: p in s.mapped ==> p in s.trie && Mine(s, a, s.trie[p]) && InSpan(s.spans[s.trie[p]], p)
    requires forall p: nat :: p in s'.mapped ==> p in s'.trie && Mine(s', a, s'.trie[p]) && InSpan(s'.spans[s'.trie[p]], p)
    requires forall p: nat :: InSpan(s'.spans[d], p) ==> p !in s.trie
    ensures forall p: nat :: p in Ages(s') <==> p in Ages(s) || InSpan(s'.spans[d], p)
    ensures forall p: nat :: InSpan(s'.spans[d], p) ==> p !in Ages(s) && Ages(s')[p] == s.epoch
    ensures forall p: nat :: p in Ages(s) ==> p in Ages(s') && Ages(s')[p] == Ages(s)[p]
  {
    hide InSpan, Ages;
    forall p: nat | p in Ages(s) ensures p in Ages(s') && Ages(s')[p] == Ages(s)[p] {
      assert Mine(s', a, s.trie[p]) && s'.spans[s.trie[p]] == s.spans[s.trie[p]];
    }
    forall p: nat | p in Ages(s') && !InSpan(s'.spans[d], p) ensures p in Ages(s) {
      assert s'.trie[p] != d && Mine(s, a, s'.trie[p]);
    }
  }

  lemma ValleyMints(m: map<nat, nat>, m': map<nat, nat>, lo: nat, hi: nat, g: nat)
    requires Valley(m) && forall p :: p in m ==> m[p] < g
    requires forall p: nat :: p in m' <==> p in m || lo <= p < hi
    requires forall p: nat :: lo <= p < hi ==> p !in m && m'[p] == g
    requires forall p: nat :: p in m ==> m'[p] == m[p]
    ensures Valley(m')
  {
    forall p: nat, q: nat, r: nat ensures NoRidge(m', p, q, r) {
      assert NoRidge(m, p, q, r);
    }
  }

  lemma MintApart(s: Cache, a: Arena, d: Desc, c: nat, addr: nat)
    requires ValidArena(a) && SpansInv(s, a) && ApartInv(s, a) && TrieInv(s, a) && c < |a.sizes| && Fresh(s, a, d, c, addr)
    requires s.epoch + 1 < AGE_LIMIT
    ensures ApartInv(Minted(s, a, d, c, addr), a)
  {
    assert d !in s.spans;
    hide Minted, WellConfigured, InRegion, Placed, RegionsInv, HomeInv, TrieInv, SpansInv, Fresh, BlendInv;
    MintedFields(s, a, d, c, addr);
    MintedRegion(s, a, d, c, addr);
    NewRegion(s, Minted(s, a, d, c, addr), a, Region(addr, a.sizes[c]));
    if a.crossMerge {
      MintBlend(s, a, d, c, addr);
    } else {
      NewHome(s, Minted(s, a, d, c, addr), a, d, Region(addr, a.sizes[c]));
    }
  }

  /** A region on pages never mapped before overlaps none of the older ones. */
  lemma NewRegion(s: Cache, s': Cache, a: Arena, r: Region)
    requires ValidArena(a) && RegionsInv(s, a) && TrieInv(s, a) && Placed(a.cfg.pageSize, r.addr, r.nbytes)
    requires s'.regions == s.regions[s.epoch := r] && s'.epoch == s.epoch + 1
    requires forall p: nat :: InRegion(r, p) ==> p !in s.trie && p in s'.mapped
    requires forall p: nat :: p in s.mapped ==> p in s'.mapped
    ensures RegionsInv(s', a)
  {
    hide WellConfigured, InRegion, Placed;
    assert forall p: nat :: InRegion(r, p) ==> p !in s.mapped;
  }

  lemma NewOrigin(s: Cache, s': Cache, a: Arena, d: Desc, r: Region)
    requires ValidArena(a) && RegionsInv(s, a) && OriginsInv(s, a) && NewHere(s, s', a, d, r)
    requires s'.spans[d].record == if a.unmapOnTermination then Some(r.nbytes) else None
    requires s'.origins == if a.unmapOnTermination then [d] + s.origins else s.origins
    ensures OriginsInv(s', a)
  {
    hide WellConfigured, RegionsInv;
    NewHome(s, s', a, d, r);
    AgesBelow(s, a);
    assert forall e :: Mine(s', a, e) <==> Mine(s, a, e) || e == d;
    assert d !in s.origins;
  }

  lemma MintOrigins(s: Cache, a: Arena, d: Desc, c: nat, addr: nat)
    requires ValidArena(a) && ApartInv(s, a) && OriginsInv(s, a) && c < |a.sizes| && Fresh(s, a, d, c, addr)
    requires s.epoch + 1 < AGE_LIMIT
    ensures OriginsInv(Minted(s, a, d, c, addr), a)
  {
    assert d !in s.spans;
    hide Minted, WellConfigured, InRegion, Placed, RegionsInv, HomeInv, OriginsInv, Fresh;
    MintedFields(s, a, d, c, addr);
    NewOrigin(s, Minted(s, a, d, c, addr), a, d, Region(addr, a.sizes[c]));
  }

  lemma AgesBelow(s: Cache, a: Arena)
    requires ValidArena(a) && RegionsInv(s, a)
    ensures forall g :: g in s.regions ==> g < s.epoch
  {
  }
}
