/** scache_get_span_aligned: a span is found or minted with room for the alignment, and cut into
    up to three pieces. */
module SpanAligned {
  import opened Bits
  import opened SizeClasses
  import opened SpanState
  import opened SpanInvariants
  import opened SpanSteps
  import opened SpanOps
  import opened SpanGet
  import opened SpanPut

  /** What the source demands: a power of two no smaller than a page. */
  ghost predicate AlignOk(a: Arena, align: nat)
    requires ValidArena(a)
  {
    IsPow2(align) && a.cfg.pageSize <= align
  }

  function Offset(addr: nat, align: nat): nat
    requires align > 0
  {
    AlignUp(addr, align) - addr
  }

  /** The three pieces tile the origin: the middle one is aligned, the right one is never empty,
      and all are whole pages. */
  lemma PiecesTile(page: nat, addr: nat, nbytes: nat, size: nat, align: nat)
    requires page > 0 && align > 0 && align % page == 0 && Placed(page, addr, nbytes)
    requires size > 0 && size % page == 0 && nbytes >= size + align
    ensures var off := Offset(addr, align); var rest := nbytes - off - size;
      && (addr + off) % align == 0 && off < align && off % page == 0
      && rest > 0 && rest % page == 0 && off + size + rest == nbytes
      && (off > 0 ==> Placed(page, addr, off))
      && Placed(page, addr + off, size) && Placed(page, addr + off + size, rest)
  {
    hide Offset;
    var off := Offset(addr, align);
    OffsetMultiple(page, addr, align);
    PiecePlaced(page, addr, off, nbytes, size);
  }

  lemma OffsetMultiple(page: nat, addr: nat, align: nat)
    requires page > 0 && align > 0 && align % page == 0 && addr % page == 0
    ensures var off := Offset(addr, align); (addr + off) % align == 0 && off < align && off % page == 0
  {
    var off := Offset(addr, align);
    hide Offset;
    ModTrans(addr + off, page, align);
    ModSub(addr + off, addr, page);
  }

  /** Whole pages cut off whole pages leave whole pages. */
  lemma PiecePlaced(page: nat, addr: nat, off: nat, nbytes: nat, size: nat)
    requires page > 0 && Placed(page, addr, nbytes) && off % page == 0 && size % page == 0 && off + size < nbytes && size > 0
    ensures (nbytes - off - size) % page == 0
    ensures (off > 0 ==> Placed(page, addr, off))
    ensures Placed(page, addr + off, size) && Placed(page, addr + off + size, nbytes - off - size)
  {
    ModAdd(addr, off, page);
    ModAdd(addr + off, size, page);
    ModSub(nbytes, off, page);
    ModSub(nbytes - off, size, page);
    PositiveMultiple(size, page);
    PositiveMultiple(nbytes - off - size, page);
    if off > 0 {
      PositiveMultiple(off, page);
    }
  }

  /** The descriptors a split needs: one for the right piece, and one for the middle if there is a
      left piece, which keeps the origin's descriptor. */
  predicate HasDescs(off: nat, e: Env) {
    e.cutDesc.Some? && (off > 0 ==> e.sideDesc.Some?)
  }

  function SplitDesc(o: Desc, off: nat, e: Env): Desc
    requires HasDescs(off, e)
  {
    if off > 0 then e.sideDesc.value else o
  }

  /** span_split_aligned, once it can no longer fail. No piece keeps the origin's record. */
  function SplitInto(s: Cache, a: Arena, o: Desc, off: nat, c: nat, e: Env): Cache
    requires a.cfg.Positive() && o in s.spans && c < |a.sizes| && off + a.sizes[c] <= s.spans[o].nbytes && HasDescs(off, e)
  {
    var sp := s.spans[o].(record := None);
    var size := a.sizes[c];
    var rest := sp.nbytes - off - size;
    var s1 := s.(spans := s.spans[e.cutDesc.value := sp.(szclass := ClassOf(a, rest), addr := sp.addr + off + size, nbytes := rest)]);
    var s2 := if off > 0 then s1.(spans := s1.spans[o := sp.(szclass := ClassOf(a, off), nbytes := off)]) else s1;
    s2.(spans := s2.spans[SplitDesc(o, off, e) := sp.(szclass := c, addr := sp.addr + off, nbytes := size)])
  }

  function DropRecord(s: Cache, o: Desc): Cache
    requires o in s.spans
  {
    s.(spans := s.spans[o := s.spans[o].(record := None)])
  }

  /** The same pieces as one or two cuts from the tail. */
  ghost function Pieces(s: Cache, a: Arena, o: Desc, off: nat, size: nat, e: Env): Cache
    requires a.cfg.Positive() && o in s.spans && 0 < size && off + size < s.spans[o].nbytes && HasDescs(off, e)
    requires e.cutDesc.value != o
  {
    var s1 := Cut(s, a, o, e.cutDesc.value, s.spans[o].nbytes - off - size);
    if off > 0 then Cut(s1, a, o, e.sideDesc.value, size) else s1
  }

  ghost predicate SplitCall(s: Cache, a: Arena, o: Desc, align: nat, c: nat, e: Env)
    requires ValidArena(a)
  {
    && CoreInv(s, a, {o}) && Mine(s, a, o) && c < |a.sizes| && AlignOk(a, align)
    && a.sizes[c] + align <= s.spans[o].nbytes && HasDescs(Offset(s.spans[o].addr, align), e)
    && e.cutDesc.value !in s.spans && (e.sideDesc.Some? ==> e.sideDesc.value !in s.spans && e.sideDesc != e.cutDesc)
  }

  lemma PageFacts(a: Arena, align: nat)
    requires ValidArena(a) && AlignOk(a, align)
    ensures align > 0 && align % a.cfg.pageSize == 0
  {
    SmallerDivides(a.cfg.pageSize, align);
  }

  lemma SpanPlaced(s: Cache, a: Arena, o: Desc)
    requires ValidArena(a) && SpansInv(s, a) && Mine(s, a, o)
    ensures Placed(a.cfg.pageSize, s.spans[o].addr, s.spans[o].nbytes)
  {
    hide WellConfigured, ClassOf;
    assert GoodSpan(a, s.spans[o]);
  }

  lemma SplitFacts(s: Cache, a: Arena, o: Desc, align: nat, c: nat, e: Env)
    requires ValidArena(a) && SplitCall(s, a, o, align, c, e)
    ensures var off := Offset(s.spans[o].addr, align); var size := a.sizes[c]; var rest := s.spans[o].nbytes - off - size;
      && 0 < size && size % a.cfg.pageSize == 0 && 0 < rest && rest % a.cfg.pageSize == 0 && off % a.cfg.pageSize == 0
      && ClassOf(a, size) == c && (s.spans[o].addr + off) % align == 0 && Cuttable(s, a, o, rest)
  {
    hide WellConfigured, ClassOf, BinsInv, TrieInv, IsPow2, Offset, SpansInv, Placed;
    SizeFacts(a, c);
    PageFacts(a, align);
    SpanPlaced(s, a, o);
    PiecesTile(a.cfg.pageSize, s.spans[o].addr, s.spans[o].nbytes, a.sizes[c], align);
  }

  // ----- the pieces, as cuts -----

  /** After the cuts all pieces are in hand. */
  function PieceSet(o: Desc, off: nat, e: Env): set<Desc>
    requires HasDescs(off, e)
  {
    if off > 0 then {o, e.cutDesc.value, e.sideDesc.value} else {o, e.cutDesc.value}
  }

  /** Two cuts off the same tail, in general. */
  ghost predicate TwoCuttable(s: Cache, a: Arena, o: Desc, f: Desc, g: Desc, rest: nat, size: nat)
    requires a.cfg.Positive()
  {
    && f !in s.spans && g !in s.spans && f != g && Cuttable(s, a, o, rest)
    && 0 < size < s.spans[o].nbytes - rest && size % a.cfg.pageSize == 0
  }

  lemma SecondCut(s: Cache, a: Arena, o: Desc, f: Desc, g: Desc, rest: nat, size: nat)
    requires a.cfg.Positive() && TwoCuttable(s, a, o, f, g, rest, size)
    ensures var s1 := Cut(s, a, o, f, rest); Cuttable(s1, a, o, size) && g !in s1.spans && f in s1.spans && f != o && g != o
  {
    CutMoves(s, a, o, f, rest);
    hide Cut;
  }

  lemma TwoCutsCore(s: Cache, a: Arena, o: Desc, f: Desc, g: Desc, rest: nat, size: nat)
    requires ValidArena(a) && CoreInv(s, a, {o}) && TwoCuttable(s, a, o, f, g, rest, size)
    ensures o in Cut(s, a, o, f, rest).spans && size < Cut(s, a, o, f, rest).spans[o].nbytes
    ensures CoreInv(Cut(s, a, o, f, rest), a, {o, f})
    ensures CoreInv(Cut(Cut(s, a, o, f, rest), a, o, g, size), a, {o, f, g})
  {
    hide WellConfigured, CoreInv, Cut;
    SecondCut(s, a, o, f, g, rest, size);
    CutCore(s, a, o, f, rest, {o});
    assert {o} + {f} == {o, f} && {o, f} + {g} == {o, f, g};
    CutCore(Cut(s, a, o, f, rest), a, o, g, size, {o, f});
  }

  lemma SplitTwo(s: Cache, a: Arena, o: Desc, align: nat, c: nat, e: Env)
    requires ValidArena(a) && SplitCall(s, a, o, align, c, e) && Offset(s.spans[o].addr, align) > 0
    ensures var off := Offset(s.spans[o].addr, align); var size := a.sizes[c]; 
      && off + size < s.spans[o].nbytes
      && TwoCuttable(s, a, o, e.cutDesc.value, e.sideDesc.value, s.spans[o].nbytes - off - size, size)
  {
    SplitFacts(s, a, o, align, c, e);
    hide WellConfigured, CoreInv, Offset;
  }

  lemma PiecesCore(s: Cache, a: Arena, o: Desc, align: nat, c: nat, e: Env)
    requires ValidArena(a) && SplitCall(s, a, o, align, c, e)
    ensures var off := Offset(s.spans[o].addr, align); var size := a.sizes[c];
      && 0 < size && off + size < s.spans[o].nbytes
      && CoreInv(Pieces(s, a, o, off, size, e), a, PieceSet(o, off, e))
  {
    hide WellConfigured, CoreInv, Cut, Offset;
    SplitFacts(s, a, o, align, c, e);
    var off := Offset(s.spans[o].addr, align);
    var size := a.sizes[c];
    var f := e.cutDesc.value;
    if off > 0 {
      SplitTwo(s, a, o, align, c, e);
      TwoCutsCore(s, a, o, f, e.sideDesc.value, s.spans[o].nbytes - off - size, size);
    } else {
      CutCore(s, a, o, f, s.spans[o].nbytes - off - size, {o});
      assert {o} + {f} == {o, f};
    }
  }

  lemma CutNeat(s: Cache, a: Arena, o: Desc, f: Desc, cut: nat, hand: set<Desc>)
    requires ValidArena(a) && CoreInv(s, a, hand) && o in hand && f !in s.spans && Cuttable(s, a, o, cut) && NeatInv(s, a, hand)
    ensures NeatInv(Cut(s, a, o, f, cut), a, hand + {f})
  {
    hide WellConfigured, SpansInv, TrieInv, Cut, CoalescedInv, RegionsInv, HomeInv;
    assert Mine(s, a, o);
    CutApart(s, a, o, f, cut);
    CutFree(s, a, o, f, cut, hand);
    hide BinsInv, SameFree;
    SameFreeKeeps(s, Cut(s, a, o, f, cut), a, hand, hand + {f});
  }

  /** A cut gives no other span a new neighbour. */
  lemma CutOtherLonely(s: Cache, a: Arena, o: Desc, f: Desc, cut: nat, hand: set<Desc>, x: Desc)
    requires BinsInv(s, a, hand) && a.cfg.Positive() && o in hand && f !in s.spans && Cuttable(s, a, o, cut)
    requires x in s.spans && x != o && Lonely(s, a, hand, x)
    ensures x in Cut(s, a, o, f, cut).spans && Lonely(Cut(s, a, o, f, cut), a, hand + {f}, x)
  {
    CutMoves(s, a, o, f, cut);
    CutFree(s, a, o, f, cut, hand);
    hide BinsInv, Cut, FreeSpan, Adjacent;
  }

  lemma TwoCutsNeat(s: Cache, a: Arena, o: Desc, f: Desc, g: Desc, rest: nat, size: nat)
    requires ValidArena(a) && CoreInv(s, a, {o}) && TwoCuttable(s, a, o, f, g, rest, size)
    requires NeatInv(s, a, {o}) && Lonely(s, a, {o}, o)
    ensures o in Cut(s, a, o, f, rest).spans && size < Cut(s, a, o, f, rest).spans[o].nbytes
    ensures var s1 := Cut(s, a, o, f, rest);
      f in s1.spans && NeatInv(s1, a, {o, f}) && Lonely(s1, a, {o, f}, o) && Lonely(s1, a, {o, f}, f)
    ensures var s2 := Cut(Cut(s, a, o, f, rest), a, o, g, size);
      o in s2.spans && f in s2.spans && NeatInv(s2, a, {o, f, g}) && Lonely(s2, a, {o, f, g}, o) && Lonely(s2, a, {o, f, g}, f)
  {
    hide WellConfigured, SpansInv, TrieInv, Cut, NeatInv, Lonely;
    SecondCut(s, a, o, f, g, rest, size);
    TwoCutsCore(s, a, o, f, g, rest, size);
    hide BinsInv;
    var s1 := Cut(s, a, o, f, rest);
    assert {o} + {f} == {o, f} && {o, f} + {g} == {o, f, g};
    CutNeat(s, a, o, f, rest, {o});
    CutLonely(s, a, o, f, rest, {o});
    CutNeat(s1, a, o, g, size, {o, f});
    CutLonely(s1, a, o, g, size, {o, f});
    CutOtherLonely(s1, a, o, g, size, {o, f}, f);
  }

  lemma PiecesNeat(s: Cache, a: Arena, o: Desc, align: nat, c: nat, e: Env)
    requires ValidArena(a) && SplitCall(s, a, o, align, c, e) && NeatInv(s, a, {o}) && Lonely(s, a, {o}, o)
    ensures var off := Offset(s.spans[o].addr, align); var size := a.sizes[c];
      && 0 < size && off + size < s.spans[o].nbytes
      && (var s' := Pieces(s, a, o, off, size, e); var hand := PieceSet(o, off, e); var f := e.cutDesc.value;
          && o in s'.spans && f in s'.spans && NeatInv(s', a, hand) && Lonely(s', a, hand, o) && Lonely(s', a, hand, f))
  {
    hide WellConfigured, CoreInv, Cut, Offset, NeatInv, Lonely;
    SplitFacts(s, a, o, align, c, e);
    var off := Offset(s.spans[o].addr, align);
    var size := a.sizes[c];
    var f := e.cutDesc.value;
    var rest := s.spans[o].nbytes - off - size;
    if off > 0 {
      SplitTwo(s, a, o, align, c, e);
      TwoCutsNeat(s, a, o, f, e.sideDesc.value, rest, size);
    } else {
      CutNeat(s, a, o, f, rest, {o});
      CutLonely(s, a, o, f, rest, {o});
      assert {o} + {f} == {o, f};
    }
  }

  // ----- the origin's record is dropped -----

  /** Only the record of `o` differs. */
  ghost predicate OnlyRecordOf(s: Cache, s': Cache, o: Desc) {
    && o in s.spans && s'.spans.Keys == s.spans.Keys
    && (forall d :: d in s.spans && d != o ==> s'.spans[d] == s.spans[d])
    && s'.spans[o] == s.spans[o].(record := s'.spans[o].record)
    && s' == s.(spans := s'.spans)
  }

  lemma RecordSpans(s: Cache, s': Cache, a: Arena, o: Desc)
    requires ValidArena(a) && OnlyRecordOf(s, s', o) && SpansInv(s, a)
    ensures SpansInv(s', a)
  {
    hide WellConfigured, ClassOf, Placed;
    forall d | Mine(s', a, d) ensures GoodSpan(a, s'.spans[d]) {
      assert GoodSpan(a, s.spans[d]);
    }
  }

  lemma RecordTrie(s: Cache, s': Cache, a: Arena, o: Desc)
    requires OnlyRecordOf(s, s', o) && TrieInv(s, a)
    ensures TrieInv(s', a)
  {
    assert forall d, p: nat :: d in s.spans ==> (InSpan(s'.spans[d], p) <==> InSpan(s.spans[d], p));
    hide InSpan;
    assert forall d :: Mine(s', a, d) <==> Mine(s, a, d);
    assert s'.trie == s.trie && s'.mapped == s.mapped && s'.paths == s.paths;
    hide OnlyRecordOf;
  }

  lemma RecordApart(s: Cache, s': Cache, a: Arena, o: Desc)
    requires ValidArena(a) && OnlyRecordOf(s, s', o) && ApartInv(s, a)
    ensures ApartInv(s', a)
  {
    assert s'.regions == s.regions && s'.mapped == s.mapped && s'.epoch == s.epoch;
    hide WellConfigured, InRegion, Placed, BlendInv;
    if a.crossMerge {
      SameAges(s, s');
      BlendSame(s, s');
    }
    assert forall d :: Mine(s', a, d) ==> Mine(s, a, d);
  }

  lemma RecordFree(s: Cache, s': Cache, a: Arena, o: Desc, hand: set<Desc>)
    requires OnlyRecordOf(s, s', o) && BinsInv(s, a, hand) && o in hand
    ensures SameFree(s, s', a, hand, hand)
    ensures forall d :: FreeSpan(s', a, hand, d) <==> FreeSpan(s, a, hand, d)
  {
    assert forall d :: Mine(s', a, d) <==> Mine(s, a, d);
  }

  lemma DropKeeps(s: Cache, a: Arena, o: Desc, hand: set<Desc>)
    requires ValidArena(a) && CoreInv(s, a, hand) && o in hand
    ensures o in s.spans
    ensures var s' := DropRecord(s, o);
      && CoreInv(s', a, hand) && OnlyRecordOf(s, s', o) && (NeatInv(s, a, hand) ==> NeatInv(s', a, hand))
      && (forall x :: x in s.spans && Lonely(s, a, hand, x) ==> Lonely(s', a, hand, x))
  {
    assert o in s.spans;
    var s' := DropRecord(s, o);
    hide WellConfigured, BinsInv, SpansInv, TrieInv, ApartInv, CoalescedInv, Lonely;
    RecordSpans(s, s', a, o);
    RecordTrie(s, s', a, o);
    RecordFree(s, s', a, o, hand);
    SameFreeKeeps(s, s', a, hand, hand);
    if ApartInv(s, a) {
      RecordApart(s, s', a, o);
    }
    forall x | x in s.spans && Lonely(s, a, hand, x) ensures Lonely(s', a, hand, x) {
      RecordLonely(s, s', a, o, hand, x);
    }
  }

  lemma RecordLonely(s: Cache, s': Cache, a: Arena, o: Desc, hand: set<Desc>, x: Desc)
    requires OnlyRecordOf(s, s', o) && SameFree(s, s', a, hand, hand) && x in s.spans && Lonely(s, a, hand, x)
    ensures Lonely(s', a, hand, x)
  {
    hide FreeSpan;
  }

  // ----- what the source does, step by step, comes to the same -----

  lemma CutSpans(s: Cache, a: Arena, o: Desc, f: Desc, cut: nat)
    requires a.cfg.Positive() && o in s.spans && cut < s.spans[o].nbytes && f != o
    ensures var s' := Cut(s, a, o, f, cut); var sp := s.spans[o]; var rest := sp.nbytes - cut;
      && s'.spans == s.spans
           [f := sp.(szclass := ClassOf(a, cut), addr := sp.addr + rest, nbytes := cut, record := None)]
           [o := sp.(nbytes := rest, szclass := ClassOf(a, rest))]
      && s' == s.(spans := s'.spans, trie := s'.trie, paths := s'.paths)
      && s'.trie == s.trie + (map p | p in PagesOf(s'.spans[f]) :: f) && s'.paths == s.paths + PagesOf(s'.spans[f])
  {
    hide PagesOf, ClassOf;
  }

  predicate DescsNew(s: Cache, o: Desc, e: Env) {
    && o in s.spans && e.cutDesc.Some? && e.cutDesc.value !in s.spans
    && (e.sideDesc.Some? ==> e.sideDesc.value !in s.spans && e.sideDesc != e.cutDesc)
  }

  /** The origin is aligned already: it becomes the middle piece. */
  lemma SplitSpansTwo(s: Cache, a: Arena, o: Desc, c: nat, e: Env)
    requires a.cfg.Positive() && DescsNew(s, o, e) && c < |a.sizes|
    requires 0 < a.sizes[c] < s.spans[o].nbytes && ClassOf(a, a.sizes[c]) == c
    ensures SplitInto(s, a, o, 0, c, e).spans == DropRecord(Pieces(s, a, o, 0, a.sizes[c], e), o).spans
  {
    hide Cut, ClassOf, PagesOf;
    CutSpans(s, a, o, e.cutDesc.value, s.spans[o].nbytes - 0 - a.sizes[c]);
  }

  /** The origin's descriptor stays with the left piece. */
  lemma SplitSpansThree(s: Cache, a: Arena, o: Desc, off: nat, c: nat, e: Env)
    requires a.cfg.Positive() && DescsNew(s, o, e) && c < |a.sizes| && off > 0 && e.sideDesc.Some?
    requires 0 < a.sizes[c] && off + a.sizes[c] < s.spans[o].nbytes && ClassOf(a, a.sizes[c]) == c
    ensures SplitInto(s, a, o, off, c, e).spans == DropRecord(Pieces(s, a, o, off, a.sizes[c], e), o).spans
  {
    hide Cut, ClassOf, PagesOf;
    var f := e.cutDesc.value;
    var rest := s.spans[o].nbytes - off - a.sizes[c];
    CutSpans(s, a, o, f, rest);
    CutSpans(Cut(s, a, o, f, rest), a, o, e.sideDesc.value, a.sizes[c]);
  }

  lemma PiecesOnly(s: Cache, a: Arena, o: Desc, off: nat, size: nat, e: Env)
    requires a.cfg.Positive() && DescsNew(s, o, e) && 0 < size && off + size < s.spans[o].nbytes && HasDescs(off, e)
    ensures var s2 := Pieces(s, a, o, off, size, e); o in s2.spans && s2 == s.(spans := s2.spans, trie := s2.trie, paths := s2.paths)
  {
    hide Cut, ClassOf, PagesOf;
    var f := e.cutDesc.value;
    CutSpans(s, a, o, f, s.spans[o].nbytes - off - size);
    if off > 0 {
      CutSpans(Cut(s, a, o, f, s.spans[o].nbytes - off - size), a, o, e.sideDesc.value, size);
    }
  }

  lemma SplitSpans(s: Cache, a: Arena, o: Desc, off: nat, c: nat, e: Env)
    requires a.cfg.Positive() && o in s.spans && c < |a.sizes| && HasDescs(off, e)
    requires 0 < a.sizes[c] && off + a.sizes[c] < s.spans[o].nbytes && ClassOf(a, a.sizes[c]) == c
    requires e.cutDesc.value !in s.spans && (e.sideDesc.Some? ==> e.sideDesc.value !in s.spans && e.sideDesc != e.cutDesc)
    ensures var s1 := SplitInto(s, a, o, off, c, e); var s2 := Pieces(s, a, o, off, a.sizes[c], e);
      && o in s2.spans && s1.spans == DropRecord(s2, o).spans && s1 == s.(spans := s1.spans)
      && s2 == s.(spans := s2.spans, trie := s2.trie, paths := s2.paths)
  {
    hide Cut, ClassOf, PagesOf, Pieces;
    PiecesOnly(s, a, o, off, a.sizes[c], e);
    if off > 0 {
      SplitSpansThree(s, a, o, off, c, e);
    } else {
      SplitSpansTwo(s, a, o, c, e);
    }
  }

  /** `t` and `t'` agree, and so do the paths, outside these pages. */
  ghost predicate AgreeOutside(s: Cache, s': Cache, pages: set<nat>) {
    && (forall p :: p !in pages ==> (p in s.trie <==> p in s'.trie) && (p in s.trie ==> s'.trie[p] == s.trie[p]))
    && (forall p :: p !in pages ==> (p in s.paths <==> p in s'.paths))
  }

  lemma CutOutside(s: Cache, a: Arena, o: Desc, f: Desc, cut: nat)
    requires a.cfg.Positive() && o in s.spans && cut < s.spans[o].nbytes && f != o
    ensures f in Cut(s, a, o, f, cut).spans && AgreeOutside(s, Cut(s, a, o, f, cut), PagesOf(Cut(s, a, o, f, cut).spans[f]))
  {
    hide PagesOf, ClassOf;
  }

  lemma PiecesOutside(s: Cache, a: Arena, o: Desc, off: nat, size: nat, e: Env)
    requires a.cfg.Positive() && o in s.spans && 0 < size && off + size < s.spans[o].nbytes && HasDescs(off, e)
    requires e.cutDesc.value !in s.spans && (e.sideDesc.Some? ==> e.sideDesc.value !in s.spans && e.sideDesc != e.cutDesc)
    ensures var s2 := Pieces(s, a, o, off, size, e);
      && e.cutDesc.value in s2.spans && SplitDesc(o, off, e) in s2.spans
      && AgreeOutside(s, s2, PagesOf(s2.spans[e.cutDesc.value]) + PagesOf(s2.spans[SplitDesc(o, off, e)]))
  {
    hide Cut, PagesOf, ClassOf;
    var f := e.cutDesc.value;
    var rest := s.spans[o].nbytes - off - size;
    CutSpans(s, a, o, f, rest);
    CutOutside(s, a, o, f, rest);
    if off > 0 {
      var s1 := Cut(s, a, o, f, rest);
      CutSpans(s1, a, o, e.sideDesc.value, size);
      CutOutside(s1, a, o, e.sideDesc.value, size);
    }
  }

  lemma MapsMeet(m: map<nat, Desc>, m': map<nat, Desc>, px: set<nat>, pf: set<nat>, x: Desc, f: Desc)
    requires forall p :: p !in pf + px ==> (p in m <==> p in m') && (p in m ==> m'[p] == m[p])
    requires forall p :: p in px ==> p in m' && m'[p] == x
    requires forall p :: p in pf ==> p in m' && m'[p] == f
    ensures m + (map p | p in px :: x) + (map p | p in pf :: f) == m'
  {
  }

  lemma OwnPages(t: Cache, a: Arena, x: Desc)
    requires ValidArena(a) && SpansInv(t, a) && TrieInv(t, a) && Mine(t, a, x)
    ensures forall p :: p in PagesOf(t.spans[x]) ==> p in t.trie && t.trie[p] == x && p in t.mapped && p in t.paths
  {
    assert GoodSpan(a, t.spans[x]);
    hide WellConfigured, PagesOf, InSpan, SpansInv, GoodSpan, TrieInv;
    CutPages(a, t.spans[x]);
    MappedInside(t, a, x);
    PagesNamed(t, a, x);
  }

  /** Two inserts into a state that differs from `t` on the pages of two of its spans at most. */
  lemma TwoInserts(s: Cache, t: Cache, a: Arena, x: Desc, f: Desc, e: Env)
    requires ValidArena(a) && SpansInv(t, a) && TrieInv(t, a) && Mine(t, a, x) && Mine(t, a, f)
    requires s == t.(trie := s.trie, paths := s.paths) && t.mapped <= s.paths
    requires AgreeOutside(s, t, PagesOf(t.spans[f]) + PagesOf(t.spans[x]))
    ensures TrieInsert(TrieInsert(s, x, e.nodes, e.stop).1, f, e.nodes, e.stop).1 == t
  {
    hide WellConfigured, PagesOf, SpansInv, TrieInsert, TrieInv;
    var px, pf := PagesOf(t.spans[x]), PagesOf(t.spans[f]);
    OwnPages(t, a, x);
    OwnPages(t, a, f);
    InsertCovers(s, x, e);
    InsertCovers(Cover(s, x), f, e);
    MapsMeet(s.trie, t.trie, px, pf, x, f);
    assert s.paths + px + pf == t.paths;
  }

  /** The split and the first two inserts, as the source does them. */
  ghost function SplitAndInsert(s: Cache, a: Arena, o: Desc, align: nat, c: nat, e: Env): (s': Cache)
    requires ValidArena(a) && SplitCall(s, a, o, align, c, e)
  {
    var off := Offset(s.spans[o].addr, align);
    SplitFacts(s, a, o, align, c, e);
    TrieInsert(TrieInsert(SplitInto(s, a, o, off, c, e), SplitDesc(o, off, e), e.nodes, e.stop).1, e.cutDesc.value, e.nodes, e.stop).1
  }

  /** In state `s`, the pieces of the origin (as it was) are in hand. */
  ghost predicate SplitInHand(s: Cache, a: Arena, o: Desc, off: nat, c: nat, e: Env)
    requires ValidArena(a) && HasDescs(off, e)
  {
    && CoreInv(s, a, PieceSet(o, off, e)) && o in s.spans && s.spans[o].record.None?
    && SplitDesc(o, off, e) in s.spans && c < |a.sizes|
    && s.spans[SplitDesc(o, off, e)].nbytes == a.sizes[c] && s.spans[SplitDesc(o, off, e)].szclass == c
  }

  lemma SplitAndInsertIs(s: Cache, a: Arena, o: Desc, align: nat, c: nat, e: Env)
    requires ValidArena(a) && SplitCall(s, a, o, align, c, e)
    ensures var off := Offset(s.spans[o].addr, align); var size := a.sizes[c];
      && 0 < size && off + size < s.spans[o].nbytes
      && (var t := Pieces(s, a, o, off, size, e);
          && o in t.spans && CoreInv(t, a, PieceSet(o, off, e))
          && SplitAndInsert(s, a, o, align, c, e) == DropRecord(t, o))
  {
    hide WellConfigured, SpansInv, BinsInv, TrieInv, Pieces, SplitInto, TrieInsert, Offset, DropRecord, PagesOf, ClassOf, IsPow2;
    SplitFacts(s, a, o, align, c, e);
    var off := Offset(s.spans[o].addr, align);
    var size := a.sizes[c];
    var (x, f) := (SplitDesc(o, off, e), e.cutDesc.value);
    PiecesCore(s, a, o, align, c, e);
    SplitSpans(s, a, o, off, c, e);
    PiecesOutside(s, a, o, off, size, e);
    var t := Pieces(s, a, o, off, size, e);
    DropKeeps(t, a, o, PieceSet(o, off, e));
    DropPages(t, o);
    MappedPaths(s, a);
    HandReady(t, a, PieceSet(o, off, e), x);
    HandReady(t, a, PieceSet(o, off, e), f);
    DropIs(t, o);
    TwoInserts(SplitInto(s, a, o, off, c, e), DropRecord(t, o), a, x, f, e);
  }

  lemma DropPages(s: Cache, o: Desc)
    requires o in s.spans
    ensures forall d :: d in s.spans ==> PagesOf(DropRecord(s, o).spans[d]) == PagesOf(s.spans[d])
  {
  }

  lemma DropIs(s: Cache, o: Desc)
    requires o in s.spans
    ensures var s' := DropRecord(s, o);
      && s' == s.(spans := s'.spans) && s'.spans.Keys == s.spans.Keys
      && forall d :: d in s.spans ==> s'.spans[d].arena == s.spans[d].arena
  {
  }

  lemma MappedPaths(s: Cache, a: Arena)
    requires TrieInv(s, a)
    ensures s.mapped <= s.paths
  {
  }

  lemma PiecesFields(s: Cache, a: Arena, o: Desc, off: nat, c: nat, e: Env)
    requires a.cfg.Positive() && o in s.spans && c < |a.sizes| && HasDescs(off, e)
    requires 0 < a.sizes[c] && off + a.sizes[c] < s.spans[o].nbytes && ClassOf(a, a.sizes[c]) == c
    requires e.cutDesc.value !in s.spans && (e.sideDesc.Some? ==> e.sideDesc.value !in s.spans && e.sideDesc != e.cutDesc)
    ensures var s' := Pieces(s, a, o, off, a.sizes[c], e); var x := SplitDesc(o, off, e);
      && o in s'.spans && s'.spans[o].record == s.spans[o].record && s'.origins == s.origins
      && x in s'.spans && s'.spans[x].addr == s.spans[o].addr + off && s'.spans[x].nbytes == a.sizes[c] && s'.spans[x].szclass == c
      && e.cutDesc.value in s'.spans && s'.spans[e.cutDesc.value].addr == s.spans[o].addr + off + a.sizes[c]
      && (off > 0 ==> s'.spans[o].addr == s.spans[o].addr && s'.spans[o].nbytes == off)
  {
    hide Cut, ClassOf;
    var f := e.cutDesc.value;
    var rest := s.spans[o].nbytes - off - a.sizes[c];
    CutSpans(s, a, o, f, rest);
    if off > 0 {
      CutSpans(Cut(s, a, o, f, rest), a, o, e.sideDesc.value, a.sizes[c]);
    }
  }

  /** The right piece starts past the end of the left one. */
  predicate RightBeyond(s: Cache, o: Desc, f: Desc) {
    o in s.spans && f in s.spans && s.spans[o].addr + s.spans[o].nbytes < s.spans[f].addr
  }

  lemma SplitBasics(s: Cache, a: Arena, o: Desc, align: nat, c: nat, e: Env)
    requires ValidArena(a) && SplitCall(s, a, o, align, c, e)
    ensures var off := Offset(s.spans[o].addr, align);
      && 0 < a.sizes[c] && off + a.sizes[c] < s.spans[o].nbytes && ClassOf(a, a.sizes[c]) == c
      && s.spans[o].addr + off == AlignUp(s.spans[o].addr, align)
  {
    hide WellConfigured, CoreInv, ClassOf, IsPow2, Cuttable, AlignUp;
    SplitFacts(s, a, o, align, c, e);
  }

  /** The pieces are in hand, the middle one starting at the first aligned address. */
  lemma SplitCore(s: Cache, a: Arena, o: Desc, align: nat, c: nat, e: Env)
    requires ValidArena(a) && SplitCall(s, a, o, align, c, e)
    ensures var off := Offset(s.spans[o].addr, align); var s' := SplitAndInsert(s, a, o, align, c, e);
      && SplitInHand(s', a, o, off, c, e) && s'.origins == s.origins
      && s'.spans[SplitDesc(o, off, e)].addr == AlignUp(s.spans[o].addr, align)
      && (off > 0 ==> RightBeyond(s', o, e.cutDesc.value))
  {
    hide WellConfigured, CoreInv, Pieces, Offset, ClassOf, IsPow2, SplitAndInsert, DropRecord, AlignUp;
    var off := Offset(s.spans[o].addr, align);
    SplitAndInsertIs(s, a, o, align, c, e);
    SplitBasics(s, a, o, align, c, e);
    PiecesFields(s, a, o, off, c, e);
    var t := Pieces(s, a, o, off, a.sizes[c], e);
    DropKeeps(t, a, o, PieceSet(o, off, e));
    hide SplitCall;
    DropFields(t, o, SplitDesc(o, off, e));
    DropFields(t, o, e.cutDesc.value);
    DropFields(t, o, o);
  }

  lemma DropFields(s: Cache, o: Desc, x: Desc)
    requires o in s.spans && x in s.spans
    ensures var s' := DropRecord(s, o);
      && x in s'.spans && SameSize(s'.spans[x], s.spans[x]) && s'.spans[x].addr == s.spans[x].addr
      && s'.spans[o].record.None? && s'.origins == s.origins
  {
  }

  lemma SplitNeat(s: Cache, a: Arena, o: Desc, align: nat, c: nat, e: Env)
    requires ValidArena(a) && SplitCall(s, a, o, align, c, e) && NeatInv(s, a, {o}) && Lonely(s, a, {o}, o)
    ensures var s' := SplitAndInsert(s, a, o, align, c, e); var hand := PieceSet(o, Offset(s.spans[o].addr, align), e);
      && NeatInv(s', a, hand)
      && o in s'.spans && Lonely(s', a, hand, o) && e.cutDesc.value in s'.spans && Lonely(s', a, hand, e.cutDesc.value)
  {
    hide WellConfigured, CoreInv, Pieces, Offset, ClassOf, IsPow2, SplitAndInsert, NeatInv, Lonely;
    var off := Offset(s.spans[o].addr, align);
    SplitAndInsertIs(s, a, o, align, c, e);
    PiecesNeat(s, a, o, align, c, e);
    DropKeeps(Pieces(s, a, o, off, a.sizes[c], e), a, o, PieceSet(o, off, e));
  }

  // ----- the pieces go to the bins -----

  /** The outer pieces are binned, the right one first, and the middle one is handed out. */
  ghost function Rebin(s: Cache, a: Arena, o: Desc, off: nat, c: nat, e: Env): (s': Cache)
    requires ValidArena(a) && HasDescs(off, e) && SplitInHand(s, a, o, off, c, e)
    requires e.cutDesc.value != o && (e.sideDesc.Some? ==> e.sideDesc.value != o && e.sideDesc != e.cutDesc)
  {
    var f := e.cutDesc.value;
    HandReady(s, a, PieceSet(o, off, e), f);
    var s1 := BinPut(s, f);
    if off > 0 then
      RebinLeft(s, a, o, off, c, e);
      SetAlloc(BinPut(TrieInsert(s1, o, e.nodes, e.stop).1, o), e.sideDesc.value, true)
    else SetAlloc(s1, o, true)
  }

  /** The left piece is already in the trie, under its own name. */
  lemma RebinLeft(s: Cache, a: Arena, o: Desc, off: nat, c: nat, e: Env)
    requires ValidArena(a) && HasDescs(off, e) && SplitInHand(s, a, o, off, c, e) && off > 0
    requires e.cutDesc.value != o && e.sideDesc.value != o && e.sideDesc != e.cutDesc
    ensures var f := e.cutDesc.value; var g := e.sideDesc.value;
      && f in s.spans && Shape(s, |s.bins|) && 0 <= s.spans[f].szclass < |s.bins|
      && (var s1 := BinPut(s, f);
          && o in s1.spans && TrieInsert(s1, o, e.nodes, e.stop).1 == s1 && Shape(s1, |s1.bins|)
          && 0 <= s1.spans[o].szclass < |s1.bins| && CoreInv(s1, a, {o, g}) && CoreInv(BinPut(s1, o), a, {g})
          && g in BinPut(s1, o).spans)
  {
    hide WellConfigured, SpansInv, TrieInv, BinsInv, BinPut, TrieInsert;
    var f, g := e.cutDesc.value, e.sideDesc.value;
    HandReady(s, a, {o, f, g}, f);
    PutCore(s, a, f, {o, f, g});
    assert {o, f, g} - {f} == {o, g} && {o, g} - {o} == {g};
    var s1 := BinPut(s, f);
    HandReady(s1, a, {o, g}, o);
    CoverAgain(s1, a, o);
    InsertCovers(s1, o, e);
    PutCore(s1, a, o, {o, g});
    HandReady(BinPut(s1, o), a, {g}, g);
  }

  ghost predicate DistinctDescs(o: Desc, e: Env) {
    e.cutDesc.Some? && e.cutDesc.value != o && (e.sideDesc.Some? ==> e.sideDesc.value != o && e.sideDesc != e.cutDesc)
  }

  lemma RebinCore(s: Cache, a: Arena, o: Desc, off: nat, c: nat, e: Env)
    requires ValidArena(a) && HasDescs(off, e) && SplitInHand(s, a, o, off, c, e) && DistinctDescs(o, e)
    ensures var x := SplitDesc(o, off, e); var s' := Rebin(s, a, o, off, c, e);
      && CoreInv(s', a, {}) && Mine(s', a, x) && s'.spans[x].isAlloc
      && SameSize(s'.spans[x], s.spans[x]) && s'.spans[x].addr == s.spans[x].addr
  {
    hide WellConfigured, SpansInv, TrieInv, BinsInv, BinPut, TrieInsert;
    var f, x := e.cutDesc.value, SplitDesc(o, off, e);
    var hand := PieceSet(o, off, e);
    HandReady(s, a, hand, f);
    PutCore(s, a, f, hand);
    var s1 := BinPut(s, f);
    if off > 0 {
      RebinLeft(s, a, o, off, c, e);
      HandReady(s1, a, {o, x}, o);
      PutCore(s1, a, o, {o, x});
      HandOutKeeps(BinPut(s1, o), a, x, false);
    } else {
      assert hand - {f} == {o};
      HandOutKeeps(s1, a, o, false);
    }
  }

  lemma RebinNeat(s: Cache, a: Arena, o: Desc, off: nat, c: nat, e: Env)
    requires ValidArena(a) && HasDescs(off, e) && SplitInHand(s, a, o, off, c, e) && DistinctDescs(o, e)
    requires NeatInv(s, a, PieceSet(o, off, e))
    requires Lonely(s, a, PieceSet(o, off, e), o) && e.cutDesc.value in s.spans && Lonely(s, a, PieceSet(o, off, e), e.cutDesc.value)
    requires off > 0 ==> RightBeyond(s, o, e.cutDesc.value)
    ensures NeatInv(Rebin(s, a, o, off, c, e), a, {})
    ensures OriginsInv(s, a) ==> OriginsInv(Rebin(s, a, o, off, c, e), a)
  {
    hide WellConfigured, SpansInv, TrieInv, BinsInv, BinPut, TrieInsert, ApartInv, CoalescedInv, OriginsInv;
    var f, x := e.cutDesc.value, SplitDesc(o, off, e);
    var hand := PieceSet(o, off, e);
    HandReady(s, a, hand, f);
    PutCore(s, a, f, hand);
    PutCoalesced(s, a, f, hand);
    var s1 := BinPut(s, f);
    if off > 0 {
      assert hand - {f} == {o, x} && {o, x} - {o} == {x};
      RebinLeft(s, a, o, off, c, e);
      HandReady(s1, a, {o, x}, o);
      PutCore(s1, a, o, {o, x});
      PutOtherLonely(s, a, f, o, hand);
      PutCoalesced(s1, a, o, {o, x});
      HandOutKeeps(BinPut(s1, o), a, x, false);
    } else {
      assert hand - {f} == {o};
      HandOutKeeps(s1, a, o, false);
    }
  }

  lemma PutCoalesced(s: Cache, a: Arena, d: Desc, hand: set<Desc>)
    requires ValidArena(a) && CoreInv(s, a, hand) && d in hand && CoalescedInv(s, a, hand)
    requires d in s.spans && Lonely(s, a, hand, d)
    ensures Shape(s, |s.bins|) && 0 <= s.spans[d].szclass < |s.bins| && CoalescedInv(BinPut(s, d), a, hand - {d})
  {
    HandReady(s, a, hand, d);
    hide WellConfigured, BinsInv, TrieInv, CoalescedInv, Lonely, BinPut, ClassOf;
    assert GoodSpan(a, s.spans[d]);
    BinPutCoalesced(s, a, d, hand);
  }

  /** A put next to nobody in hand leaves the rest of the hand without neighbours. */
  lemma PutOtherLonely(s: Cache, a: Arena, d: Desc, x: Desc, hand: set<Desc>)
    requires ValidArena(a) && CoreInv(s, a, hand) && d in hand && x in hand && d != x
    requires d in s.spans && x in s.spans && Lonely(s, a, hand, x)
    requires !Adjacent(s.spans[x], s.spans[d]) && !Adjacent(s.spans[d], s.spans[x])
    ensures Shape(s, |s.bins|) && 0 <= s.spans[d].szclass < |s.bins|
    ensures x in BinPut(s, d).spans && Lonely(BinPut(s, d), a, hand - {d}, x)
  {
    HandReady(s, a, hand, d);
    hide WellConfigured, SpansInv, TrieInv, BinsInv, BinPut, ClassOf;
    PutCore(s, a, d, hand);
    var s' := BinPut(s, d);
    assert SamePlaces(s, s');
    assert s'.spans[x] == s.spans[x];
    forall e | FreeSpan(s', a, hand - {d}, e)
      ensures !Adjacent(s'.spans[e], s'.spans[x]) && !Adjacent(s'.spans[x], s'.spans[e])
    {
      if e != d {
        assert FreeSpan(s, a, hand, e) && s'.spans[e] == s.spans[e];
      }
    }
  }

  // ----- scache_get_span_aligned -----

  /** What a size-class table and a lookup table fix once and for all. */
  ghost predicate Configured(a: Arena, lookup: seq<nat>) {
    ValidArena(a) && a.cfg.minAlign <= a.cfg.slabMax && |lookup| == a.cfg.slabMax / a.cfg.minAlign
  }

  /** The request's class, looked up as for any allocation of that many bytes. */
  function ReqClass(a: Arena, lookup: seq<nat>, align: nat, c: nat): int
    requires a.cfg.Valid() && a.cfg.minAlign <= a.cfg.slabMax && |lookup| == a.cfg.slabMax / a.cfg.minAlign && c < |a.sizes|
  {
    GetSzclass(a.cfg, lookup, align + a.sizes[c]).szclass
  }

  ghost predicate AlignedCall(s: Cache, a: Arena, lookup: seq<nat>, align: nat, c: nat, e: Env)
    requires ValidArena(a)
  {
    && CoreInv(s, a, {}) && AlignOk(a, align) && c < |a.sizes|
    && a.cfg.minAlign <= a.cfg.slabMax && |lookup| == a.cfg.slabMax / a.cfg.minAlign
    && (0 <= ReqClass(a, lookup, align, c) < |a.sizes| ==> EnvOk(s, a, ReqClass(a, lookup, align, c), e))
  }

  /** span_split_aligned goes through: there is room, and the descriptors can be had. */
  predicate SplitGoes(s: Cache, a: Arena, o: Desc, align: nat, c: nat, e: Env)
    requires o in s.spans && c < |a.sizes| && align > 0
  {
    a.sizes[c] + align <= s.spans[o].nbytes && HasDescs(Offset(s.spans[o].addr, align), e)
  }

  /** The span taken is in hand, and the descriptors to come are new. */
  ghost predicate TakenCall(s: Cache, a: Arena, o: Desc, align: nat, c: nat, e: Env)
    requires ValidArena(a)
  {
    && CoreInv(s, a, {o}) && Mine(s, a, o) && c < |a.sizes| && AlignOk(a, align)
    && (e.cutDesc.Some? ==> e.cutDesc.value !in s.spans)
    && (e.sideDesc.Some? ==> e.sideDesc.value !in s.spans && e.sideDesc != e.cutDesc)
  }

  lemma SplitReady(s: Cache, a: Arena, o: Desc, align: nat, c: nat, e: Env)
    requires ValidArena(a) && TakenCall(s, a, o, align, c, e) && SplitGoes(s, a, o, align, c, e)
    ensures SplitCall(s, a, o, align, c, e) && DistinctDescs(o, e)
    ensures SplitInHand(SplitAndInsert(s, a, o, align, c, e), a, o, Offset(s.spans[o].addr, align), c, e)
  {
    hide WellConfigured, CoreInv, SplitAndInsert, Offset;
    assert SplitCall(s, a, o, align, c, e);
    SplitCore(s, a, o, align, c, e);
  }

  /** The part after a span was taken. Where the split fails the span has left its bin for good. */
  ghost function ServeAligned(s: Cache, a: Arena, o: Desc, align: nat, c: nat, e: Env): (Outcome, Cache)
    requires ValidArena(a) && TakenCall(s, a, o, align, c, e)
  {
    if s.spans[o].nbytes < a.sizes[c] + align then (InvalidArgs, s)
    else
      var off := Offset(s.spans[o].addr, align);
      if !HasDescs(off, e) then (PoolError, s)
      else
        SplitReady(s, a, o, align, c, e);
        (Got(SplitDesc(o, off, e)), Rebin(SplitAndInsert(s, a, o, align, c, e), a, o, off, c, e))
  }

  lemma TakeGivesTaken(s: Cache, a: Arena, req: nat, align: nat, c: nat, e: Env)
    requires ValidArena(a) && CoreInv(s, a, {}) && req < |a.sizes| && EnvOk(s, a, req, e) && c < |a.sizes| && AlignOk(a, align)
    ensures var (out, _, s1) := Take(s, a, req, e); out.Got? ==> TakenCall(s1, a, out.span, align, c, e)
  {
    hide WellConfigured, CoreInv, Take, RegionOk;
    TakeCore(s, a, req, e);
  }

  ghost function GetAligned(s: Cache, a: Arena, lookup: seq<nat>, align: nat, c: nat, e: Env): (Outcome, Cache)
    requires ValidArena(a) && AlignedCall(s, a, lookup, align, c, e)
  {
    var req := ReqClass(a, lookup, align, c);
    if req < 0 || req >= |a.sizes| then (InvalidArgs, s)
    else
      TakeGivesTaken(s, a, req, align, c, e);
      var (out, _, s1) := Take(s, a, req, e);
      if !out.Got? then (out, s1) else ServeAligned(s1, a, out.span, align, c, e)
  }

  // ----- what it keeps, and when it does not -----

  /** A span is taken out of its bin, or minted, and the split of it fails. */
  ghost predicate Leaks(s: Cache, a: Arena, lookup: seq<nat>, align: nat, c: nat, e: Env)
    requires ValidArena(a) && AlignedCall(s, a, lookup, align, c, e)
  {
    var req := ReqClass(a, lookup, align, c);
    0 <= req < |a.sizes| && (
      TakeCore(s, a, req, e);
      var (out, _, s1) := Take(s, a, req, e);
      out.Got? && !SplitGoes(s1, a, out.span, align, c, e))
  }

  /** A span in hand is in no bucket. */
  lemma LostIsLost(s: Cache, a: Arena, o: Desc)
    requires BinsInv(s, a, {o})
    ensures !BinsInv(s, a, {})
  {
    assert o in {o};
    assert FreeSpan(s, a, {}, o) && !InBucket(s, s.spans[o].szclass, s.spans[o].state, o);
  }

  lemma ServeAlignedCore(s: Cache, a: Arena, o: Desc, align: nat, c: nat, e: Env)
    requires ValidArena(a) && TakenCall(s, a, o, align, c, e)
    ensures var (out, s') := ServeAligned(s, a, o, align, c, e);
      && (out.Got? <==> SplitGoes(s, a, o, align, c, e)) && (CoreInv(s', a, {}) <==> out.Got?)
      && (out.Got? ==> Mine(s', a, out.span) && s'.spans[out.span].isAlloc)
      && (out.Got? ==> s'.spans[out.span].addr == AlignUp(s.spans[o].addr, align))
      && (out.Got? ==> s'.spans[out.span].nbytes == a.sizes[c] && s'.spans[out.span].szclass == c)
  {
    hide WellConfigured, SpansInv, TrieInv, BinsInv, SplitAndInsert, Rebin, Offset, AlignUp, IsPow2;
    if SplitGoes(s, a, o, align, c, e) {
      var off := Offset(s.spans[o].addr, align);
      SplitReady(s, a, o, align, c, e);
      SplitCore(s, a, o, align, c, e);
      RebinCore(SplitAndInsert(s, a, o, align, c, e), a, o, off, c, e);
    } else {
      LostIsLost(s, a, o);
    }
  }

  lemma ServeAlignedNeat(s: Cache, a: Arena, o: Desc, align: nat, c: nat, e: Env)
    requires ValidArena(a) && TakenCall(s, a, o, align, c, e) && SplitGoes(s, a, o, align, c, e)
    requires NeatInv(s, a, {o}) && Lonely(s, a, {o}, o)
    ensures NeatInv(ServeAligned(s, a, o, align, c, e).1, a, {})
    ensures OriginsInv(SplitAndInsert(s, a, o, align, c, e), a) ==> OriginsInv(ServeAligned(s, a, o, align, c, e).1, a)
  {
    hide WellConfigured, CoreInv, SplitAndInsert, Rebin, Offset, AlignUp, IsPow2, NeatInv, OriginsInv, Lonely;
    var off := Offset(s.spans[o].addr, align);
    SplitReady(s, a, o, align, c, e);
    SplitCore(s, a, o, align, c, e);
    SplitNeat(s, a, o, align, c, e);
    RebinNeat(SplitAndInsert(s, a, o, align, c, e), a, o, off, c, e);
  }

  /** The core survives exactly when the split goes through; a span handed out is aligned and has
      the full size of its class. */
  lemma GetAlignedCore(s: Cache, a: Arena, lookup: seq<nat>, align: nat, c: nat, e: Env)
    requires ValidArena(a) && AlignedCall(s, a, lookup, align, c, e)
    ensures var (out, s') := GetAligned(s, a, lookup, align, c, e);
      && (CoreInv(s', a, {}) <==> !Leaks(s, a, lookup, align, c, e))
      && (Leaks(s, a, lookup, align, c, e) ==> !out.Got?)
      && (out.Got? ==> Mine(s', a, out.span) && s'.spans[out.span].isAlloc)
      && (out.Got? ==> s'.spans[out.span].addr % align == 0)
      && (out.Got? ==> s'.spans[out.span].nbytes == a.sizes[c] && s'.spans[out.span].szclass == c)
  {
    assert a.cfg.Valid();
    hide WellConfigured, CoreInv, Take, EnvOk, ReqClass, AlignUp, IsPow2, SplitGoes, ServeAligned;
    var req := ReqClass(a, lookup, align, c);
    if 0 <= req < |a.sizes| {
      TakeCore(s, a, req, e);
      TakeGivesTaken(s, a, req, align, c, e);
      var (out, _, s1) := Take(s, a, req, e);
      if out.Got? {
        ServeAlignedCore(s1, a, out.span, align, c, e);
      }
    }
  }

  /** A split that goes through leaves no two free neighbours. */
  lemma GetAlignedNeat(s: Cache, a: Arena, lookup: seq<nat>, align: nat, c: nat, e: Env)
    requires ValidArena(a) && AlignedCall(s, a, lookup, align, c, e) && !Leaks(s, a, lookup, align, c, e)
    requires NeatInv(s, a, {}) && s.epoch + 1 < AGE_LIMIT
    ensures NeatInv(GetAligned(s, a, lookup, align, c, e).1, a, {})
  {
    assert a.cfg.Valid();
    hide WellConfigured, CoreInv, Take, EnvOk, ReqClass, IsPow2, NeatInv, OriginsInv, Lonely, SplitGoes, ServeAligned;
    var req := ReqClass(a, lookup, align, c);
    if 0 <= req < |a.sizes| {
      TakeCore(s, a, req, e);
      TakeGivesTaken(s, a, req, align, c, e);
      TakeNeat(s, a, req, e);
      var (out, _, s1) := Take(s, a, req, e);
      if out.Got? {
        ServeAlignedNeat(s1, a, out.span, align, c, e);
      }
    }
  }

  /** The span cut up carried the record of its mapping. */
  ghost predicate LosesRecord(s: Cache, a: Arena, lookup: seq<nat>, align: nat, c: nat, e: Env)
    requires ValidArena(a) && AlignedCall(s, a, lookup, align, c, e)
  {
    var req := ReqClass(a, lookup, align, c);
    0 <= req < |a.sizes| && (
      TakeCore(s, a, req, e);
      var (out, _, s1) := Take(s, a, req, e);
      out.Got? && SplitGoes(s1, a, out.span, align, c, e) && s1.spans[out.span].record.Some?)
  }

  lemma PiecesOrigins(s: Cache, a: Arena, o: Desc, align: nat, c: nat, e: Env)
    requires ValidArena(a) && SplitCall(s, a, o, align, c, e) && NeatInv(s, a, {o}) && OriginsInv(s, a)
    ensures var off := Offset(s.spans[o].addr, align); var size := a.sizes[c];
      && 0 < size && off + size < s.spans[o].nbytes
      && OriginsInv(Pieces(s, a, o, off, size, e), a)
  {
    hide WellConfigured, CoreInv, Cut, Offset, ApartInv, OriginsInv, CoalescedInv;
    SplitFacts(s, a, o, align, c, e);
    var off := Offset(s.spans[o].addr, align);
    var size := a.sizes[c];
    var f := e.cutDesc.value;
    var rest := s.spans[o].nbytes - off - size;
    CutOrigins(s, a, o, f, rest);
    if off > 0 {
      SplitTwo(s, a, o, align, c, e);
      TwoCutsCore(s, a, o, f, e.sideDesc.value, rest, size);
      SecondCut(s, a, o, f, e.sideDesc.value, rest, size);
      HandReady(Cut(s, a, o, f, rest), a, {o, f}, o);
      CutOrigins(Cut(s, a, o, f, rest), a, o, e.sideDesc.value, size);
    }
  }

  /** Dropping a record that is not there changes nothing. */
  lemma DropNone(s: Cache, o: Desc)
    requires o in s.spans && s.spans[o].record.None?
    ensures DropRecord(s, o) == s
  {
    assert s.spans[o := s.spans[o].(record := None)] == s.spans;
  }

  lemma SplitOrigins(s: Cache, a: Arena, o: Desc, align: nat, c: nat, e: Env)
    requires ValidArena(a) && SplitCall(s, a, o, align, c, e) && NeatInv(s, a, {o}) && OriginsInv(s, a)
    ensures s.spans[o].record.None? ==> OriginsInv(SplitAndInsert(s, a, o, align, c, e), a)
    ensures s.spans[o].record.Some? ==> o in SplitAndInsert(s, a, o, align, c, e).origins
  {
    SplitCore(s, a, o, align, c, e);
    SplitBasics(s, a, o, align, c, e);
    assert s.spans[o].record.Some? ==> o in s.origins;
    hide WellConfigured, CoreInv, SplitAndInsert, Offset, OriginsInv, NeatInv, Pieces, ClassOf, DropRecord;
    var off := Offset(s.spans[o].addr, align);
    SplitAndInsertIs(s, a, o, align, c, e);
    PiecesOrigins(s, a, o, align, c, e);
    PiecesFields(s, a, o, off, c, e);
    if s.spans[o].record.None? {
      DropNone(Pieces(s, a, o, off, a.sizes[c], e), o);
    }
  }

  /** The origins list does not change while the pieces are binned, nor do the records. */
  lemma RebinRecords(s: Cache, a: Arena, o: Desc, off: nat, c: nat, e: Env)
    requires ValidArena(a) && HasDescs(off, e) && SplitInHand(s, a, o, off, c, e) && DistinctDescs(o, e)
    ensures var s' := Rebin(s, a, o, off, c, e); s'.origins == s.origins && o in s'.spans && s'.spans[o].record.None?
  {
    hide WellConfigured, SpansInv, TrieInv, BinsInv, BinPut, TrieInsert;
    var f, x := e.cutDesc.value, SplitDesc(o, off, e);
    var hand := PieceSet(o, off, e);
    HandReady(s, a, hand, f);
    PutCore(s, a, f, hand);
    var s1 := BinPut(s, f);
    assert SamePlaces(s, s1);
    if off > 0 {
      RebinLeft(s, a, o, off, c, e);
      HandReady(s1, a, {o, x}, o);
      PutCore(s1, a, o, {o, x});
      assert SamePlaces(s1, BinPut(s1, o));
    }
  }

  lemma ServeAlignedOrigins(s: Cache, a: Arena, o: Desc, align: nat, c: nat, e: Env)
    requires ValidArena(a) && TakenCall(s, a, o, align, c, e) && NeatInv(s, a, {o}) && Lonely(s, a, {o}, o) && OriginsInv(s, a)
    ensures OriginsInv(ServeAligned(s, a, o, align, c, e).1, a) <==>
      !(SplitGoes(s, a, o, align, c, e) && s.spans[o].record.Some?)
  {
    hide WellConfigured, CoreInv, SplitAndInsert, Rebin, Offset, AlignUp, IsPow2, NeatInv, OriginsInv, Lonely;
    if SplitGoes(s, a, o, align, c, e) {
      var off := Offset(s.spans[o].addr, align);
      SplitReady(s, a, o, align, c, e);
      SplitOrigins(s, a, o, align, c, e);
      SplitCore(s, a, o, align, c, e);
      var s2 := SplitAndInsert(s, a, o, align, c, e);
      RebinRecords(s2, a, o, off, c, e);
      if s.spans[o].record.Some? {
        Unlisted(Rebin(s2, a, o, off, c, e), a, o);
      } else {
        ServeAlignedNeat(s, a, o, align, c, e);
      }
    }
  }

  /** The origins list stays exact unless the span cut up had a record: the pieces get none. */
  lemma GetAlignedOrigins(s: Cache, a: Arena, lookup: seq<nat>, align: nat, c: nat, e: Env)
    requires ValidArena(a) && AlignedCall(s, a, lookup, align, c, e)
    requires NeatInv(s, a, {}) && OriginsInv(s, a) && s.epoch + 1 < AGE_LIMIT
    ensures OriginsInv(GetAligned(s, a, lookup, align, c, e).1, a) <==> !LosesRecord(s, a, lookup, align, c, e)
  {
    assert a.cfg.Valid();
    hide WellConfigured, CoreInv, Take, EnvOk, ReqClass, IsPow2, NeatInv, OriginsInv, Lonely, SplitGoes, ServeAligned;
    var req := ReqClass(a, lookup, align, c);
    if 0 <= req < |a.sizes| {
      TakeCore(s, a, req, e);
      TakeGivesTaken(s, a, req, align, c, e);
      TakeNeat(s, a, req, e);
      var (out, _, s1) := Take(s, a, req, e);
      if out.Got? {
        ServeAlignedOrigins(s1, a, out.span, align, c, e);
      }
    }
  }

  lemma Unlisted(s: Cache, a: Arena, o: Desc)
    requires o in s.spans && o in s.origins && s.spans[o].record.None?
    ensures !OriginsInv(s, a)
  {
  }

  lemma ValidConfig(a: Arena)
    requires ValidArena(a)
    ensures a.cfg.Valid()
  {
  }
}
