/** The two tiers joined: a span that the span cache hands out for a slab is what a pail takes for
    granted, memory apart from all its other slabs, and stays so until it is put back. */
module SlabSupply {
  import opened SizeClasses
  import opened SlabGeometry
  import opened SpanState
  import opened SpanInvariants
  import opened SpanOps
  import opened SpanGet
  import opened SpanSizes
  import opened SpanAligned
  import opened SpanFrames
  import opened SpanRuns
  import opened SpanLedger
  import Pail

  /** The slabs lie at the start of allocated spans of the arena, with room for their blocks. */
  ghost predicate OnSpans(s: Cache, a: Arena, slabs: map<Desc, Pail.SlabState>, nbytes: nat) {
    forall d :: d in slabs ==> Allocated(s, a, d) && s.spans[d].addr == slabs[d].addr && nbytes <= s.spans[d].nbytes
  }

  /** They are apart, since spans are. */
  lemma SpansApart(s: Cache, a: Arena, slabs: map<Desc, Pail.SlabState>, nbytes: nat)
    requires ValidArena(a) && CoreInv(s, a, {}) && OnSpans(s, a, slabs, nbytes)
    ensures Pail.AllApart(slabs, nbytes)
  {
    hide CoreInv, ValidArena, Allocated;
    forall d, e | d in slabs && e in slabs && d != e ensures Pail.Apart(slabs[d], slabs[e], nbytes) {
      AllocatedApart(s, a, d, e);
    }
  }

  /** The bytes of a slab of class `c`. */
  function ClassBytes(a: Arena, sizes: seq<nat>, c: nat): nat
    requires a.cfg.Positive() && c < |sizes| && forall k :: 0 <= k < |sizes| ==> sizes[k] > 0
  {
    Pail.SlabBytes(NBlocks(a.cfg.pageSize, sizes, c), sizes[c])
  }

  /** A pail may take the span as an answer, and has its slabs on spans afterwards. */
  lemma SlabIsFresh(s: Cache, a: Arena, sizes: seq<nat>, c: nat, e: Env, slabs: map<Desc, Pail.SlabState>, free: set<nat>)
    requires ValidArena(a) && GetCall(s, a, c, e) && c < |a.sizes| && c < |sizes|
    requires IsSlabTable(a.cfg, sizes) && 8 * a.cfg.minAlign <= a.cfg.pageSize
    requires (forall k :: 0 <= k < |sizes| ==> sizes[k] > 0) && OnSpans(s, a, slabs, ClassBytes(a, sizes, c))
    ensures var (out, s') := GetSpan(s, a, c, true, e); var nbytes := ClassBytes(a, sizes, c);
      && (out.Got? ==> (
            && out.span in s'.spans
            && Pail.Fresh(slabs, Some((out.span, s'.spans[out.span].addr)), nbytes)
            && OnSpans(s', a, slabs[out.span := Pail.SlabState(s'.spans[out.span].addr, free)], nbytes)))
      && (!out.Got? ==> OnSpans(s', a, slabs, nbytes))
  {
    hide WellConfigured, CoreInv, GetSpan, EnvOk, IsSlabTable, NBlocks;
    var nbytes := ClassBytes(a, sizes, c);
    GetSpanCore(s, a, c, true, e);
    GetSpanFramed(s, a, c, true, e);
    GetHandsFree(s, a, c, true, e);
    SlabFitsGot(s, a, sizes, c, e);
    var (out, s') := GetSpan(s, a, c, true, e);
    assert OnSpans(s', a, slabs, nbytes);
    if out.Got? {
      var more := slabs[out.span := Pail.SlabState(s'.spans[out.span].addr, free)];
      assert out.span !in slabs;
      assert OnSpans(s', a, more, nbytes);
      SpansApart(s', a, more, nbytes);
      assert forall d :: d in slabs ==> Pail.Apart(more[d], more[out.span], nbytes);
    }
  }

  /** No operation of any arena moves a slab's span, or takes it, but the put of that very span. */
  lemma StepKeepsSlabs(s: Cache, a: Arena, lookup: seq<nat>, t: Step, slabs: map<Desc, Pail.SlabState>, nbytes: nat)
    requires Configured(a, lookup) && CoreInv(s, a, {}) && MayStep(s, a, lookup, t)
    requires OnSpans(s, a, slabs, nbytes) && TakenBy(t) !! slabs.Keys
    ensures OnSpans(Apply(s, a, lookup, t), a, slabs, nbytes)
  {
    hide ValidArena, CoreInv, Apply, MayStep;
    StepLedger(s, a, lookup, t);
    var s' := Apply(s, a, lookup, t);
    forall d | d in slabs ensures Allocated(s', a, d) && s'.spans[d] == s.spans[d] {
      assert d in AllocSet(s, a) && d in AllocSet(s', a);
    }
  }

  /** A flush: the span of any slab can be put back, which keeps the cache's invariant, and the
      slabs that are left stay where they are. */
  lemma FlushSucceeds(s: Cache, a: Arena, lookup: seq<nat>, d: Desc, e: Env, slabs: map<Desc, Pail.SlabState>, nbytes: nat)
    requires Configured(a, lookup) && CoreInv(s, a, {}) && OnSpans(s, a, slabs, nbytes) && d in slabs
    ensures MayStep(s, a, lookup, Put(d, e))
    ensures var s' := Apply(s, a, lookup, Put(d, e));
      CoreInv(s', a, {}) && AllocSet(s', a) == AllocSet(s, a) - {d} && OnSpans(s', a, slabs - {d}, nbytes)
  {
    hide ValidArena, CoreInv, Apply;
    StepCore(s, a, lookup, Put(d, e));
    StepLedger(s, a, lookup, Put(d, e));
    StepKeepsSlabs(s, a, lookup, Put(d, e), slabs - {d}, nbytes);
  }
}
