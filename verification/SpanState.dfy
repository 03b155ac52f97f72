/** The state of one arena's span cache, and what each of its operations does to it, branch by
    branch. Descriptors live at addresses (`Desc`); the page trie and the records are maps and
    lists of those. The invariants and the proofs are in SpanInvariants, the imperative cache
    that computes these functions in place is in SpanCache. */
module SpanState {
  import opened SizeClasses
  import opened Lists

  type Desc = nat

  /** Span states, which are also bucket indices. */
  const CLEAN: nat := 0
  const DIRTY: nat := 1
  const RETAINED: nat := 2
  const SPAN_NSTATES: nat := 3

  const TRIE_PAGE: nat := 4096
  const TRIE_SLOTS: nat := 0x10_0000_0000
  /** Addresses handed out by the mapper stay below 2^48. */
  const ADDR_MAX: nat := 0x1_0000_0000_0000
  const AGE_LIMIT: nat := 0x1000_0000
  const UINT32_LIMIT: nat := 0x1_0000_0000

  datatype Span = Span(
    age: nat, szclass: int, arena: nat, state: nat, isSlab: bool, isAlloc: bool,
    addr: nat, nbytes: nat, record: Option<nat>)

  datatype Bin = Bin(buckets: seq<set<Desc>>, nspans: nat, epochMin: nat, bits: set<nat>)

  datatype Region = Region(addr: nat, nbytes: nat)

  /** The configuration an arena runs with. */
  datatype Arena = Arena(
    cfg: Config, sizes: seq<nat>, defaultClass: nat, uid: nat,
    unmapOnTermination: bool, crossMerge: bool, hasMadvise: bool)

  /** `spans` holds every live descriptor, other arenas' included, since they share the trie.
      `paths` are pages whose trie nodes are sure to exist. `mapped` and `regions` record what the mapper
      handed out; the code keeps neither. */
  datatype Cache = Cache(
    spans: map<Desc, Span>, trie: map<nat, Desc>, paths: set<nat>,
    bins: seq<Bin>, bitmap: seq<set<nat>>, origins: seq<Desc>, epoch: nat,
    mapped: set<nat>, regions: map<nat, Region>)

  function ClassOf(a: Arena, nbytes: nat): int
    requires a.cfg.Positive()
  {
    GetSpanSzclass(a.cfg, nbytes)
  }

  predicate Mine(s: Cache, a: Arena, d: Desc) {
    d in s.spans && s.spans[d].arena == a.uid
  }

  // ----- pages and the trie -----

  predicate Touches(p: nat, first: nat, last: nat) {
    first <= p <= last
  }

  /** The pages an insert touches. */
  function Pages(addr: nat, nbytes: nat): set<nat> {
    if nbytes == 0 then {}
    else
      var first, last := addr / TRIE_PAGE, (addr + nbytes - 1) / TRIE_PAGE;
      set p | first <= p <= last && Touches(p, first, last)
  }

  function PagesOf(sp: Span): set<nat> {
    Pages(sp.addr, sp.nbytes)
  }

  function Lookup(s: Cache, addr: nat): Option<Desc> {
    var slot := addr / TRIE_PAGE % TRIE_SLOTS;
    if slot in s.trie then Some(s.trie[slot]) else None
  }

  /** An insert succeeds when every page has its nodes or the pool can make them; otherwise the
      pages before the failing one end up null. */
  function TrieInsert(s: Cache, d: Desc, canAlloc: bool, stop: nat): (r: (bool, Cache))
    requires d in s.spans
  {
    var pages := PagesOf(s.spans[d]);
    if pages <= s.paths || canAlloc then
      (true, s.(trie := s.trie + (map p | p in pages :: d), paths := s.paths + pages))
    else
      var done := set p | p in pages && p < stop;
      (false, s.(trie := s.trie - done, paths := s.paths + done))
  }

  // ----- the class bitmap -----

  predicate BitIs(bitmap: seq<set<nat>>, c: nat) {
    c / 64 < |bitmap| && c % 64 in bitmap[c / 64]
  }

  function SetBitmap(bitmap: seq<set<nat>>, c: nat, val: bool): seq<set<nat>>
    requires c / 64 < |bitmap|
  {
    bitmap[c / 64 := if val then bitmap[c / 64] + {c % 64} else bitmap[c / 64] - {c % 64}]
  }

  /** The least nonempty bin from `c` on, or -1. */
  function FindBin(bitmap: seq<set<nat>>, n: nat, c: nat): (idx: int)
    ensures idx == -1 || c <= idx < n
    ensures idx >= 0 ==> BitIs(bitmap, idx)
    ensures forall k :: c <= k < n && (idx == -1 || k < idx) ==> !BitIs(bitmap, k)
    decreases n - c
  {
    if c >= n then -1
    else if BitIs(bitmap, c) then c
    else FindBin(bitmap, n, c + 1)
  }

  // ----- bins -----

  predicate BinShape(b: Bin) {
    |b.buckets| == SPAN_NSTATES
  }

  predicate Shape(s: Cache, n: nat) {
    |s.bins| == n && |s.bitmap| == (n + 63) / 64 && forall c :: 0 <= c < n ==> BinShape(s.bins[c])
  }

  /** The order of a bucket: by age, then by address. */
  predicate Before(x: Span, y: Span) {
    if x.age < y.age then true
    else if x.age > y.age then false
    else x.addr < y.addr
  }

  ghost predicate IsFirst(s: Cache, bucket: set<Desc>, d: Desc) {
    d in bucket && d in s.spans && forall e :: e in bucket && e in s.spans ==> !Before(s.spans[e], s.spans[d])
  }

  predicate IsFirstBucket(b: Bin, k: nat)
    requires BinShape(b)
  {
    k in b.bits && k < SPAN_NSTATES && forall j :: 0 <= j < k ==> j !in b.bits
  }

  /** bin_put_span and the bit in the class bitmap: whatever is not retained becomes dirty. */
  function BinPut(s: Cache, d: Desc): Cache
    requires d in s.spans && Shape(s, |s.bins|) && 0 <= s.spans[d].szclass < |s.bins|
  {
    var c: nat := s.spans[d].szclass;
    var k := if s.spans[d].state == RETAINED then RETAINED else DIRTY;
    var b := s.bins[c];
    s.(spans := s.spans[d := s.spans[d].(state := k)],
       bins := s.bins[c := b.(buckets := b.buckets[k := b.buckets[k] + {d}], bits := b.bits + {k}, nspans := b.nspans + 1)],
       bitmap := SetBitmap(s.bitmap, c, true))
  }

  /** Takes `d` out of bucket `k` of bin `c`; a retained span comes back dirty. */
  function Unbin(s: Cache, c: nat, k: nat, d: Desc, epochMin: nat): Cache
    requires d in s.spans && Shape(s, |s.bins|) && c < |s.bins| && k < SPAN_NSTATES && s.bins[c].nspans > 0
  {
    var b := s.bins[c];
    var rest := b.buckets[k] - {d};
    var bits := if rest == {} then b.bits - {k} else b.bits;
    s.(spans := if k == RETAINED then s.spans[d := s.spans[d].(state := DIRTY)] else s.spans,
       bins := s.bins[c := b.(buckets := b.buckets[k := rest], bits := bits, nspans := b.nspans - 1, epochMin := epochMin)],
       bitmap := if bits == {} then SetBitmap(s.bitmap, c, false) else s.bitmap)
  }

  /** bin_remove_span: the bucket is the one the span's own flags name. */
  function BinRemove(s: Cache, d: Desc): Cache
    requires d in s.spans && Shape(s, |s.bins|) && 0 <= s.spans[d].szclass < |s.bins|
    requires s.spans[d].state < SPAN_NSTATES && s.bins[s.spans[d].szclass].nspans > 0
  {
    var c: nat := s.spans[d].szclass;
    Unbin(s, c, s.spans[d].state, d, s.bins[c].epochMin)
  }

  /** bin_get_span: `d` is the first of the first nonempty bucket `k`. */
  function BinPop(s: Cache, c: nat, k: nat, d: Desc): Cache
    requires d in s.spans && Shape(s, |s.bins|) && c < |s.bins| && k < SPAN_NSTATES && s.bins[c].nspans > 0
  {
    var left := s.bins[c].nspans - 1;
    Unbin(s, c, k, d, if s.bins[c].epochMin > left then left else s.bins[c].epochMin)
  }

  // ----- splitting and coalescing -----

  function SetAlloc(s: Cache, d: Desc, alloc: bool): Cache
    requires d in s.spans
  {
    s.(spans := s.spans[d := s.spans[d].(isAlloc := alloc)])
  }

  /** The last `cut` bytes of `o` go to a new descriptor, under class `c`; both keep their other
      flags, and only the origin keeps its record. */
  function CutTail(s: Cache, a: Arena, o: Desc, f: Desc, cut: nat, c: int): Cache
    requires a.cfg.Positive() && o in s.spans && cut < s.spans[o].nbytes
  {
    var sp := s.spans[o];
    var rest := sp.nbytes - cut;
    s.(spans := s.spans
         [f := sp.(szclass := c, addr := sp.addr + rest, nbytes := cut, record := None)]
         [o := sp.(nbytes := rest, szclass := ClassOf(a, rest))])
  }

  function MarkSlab(s: Cache, d: Desc, slab: bool): Cache
    requires d in s.spans
  {
    s.(spans := s.spans[d := s.spans[d].(isSlab := slab)])
  }

  // ----- the list of origins -----

  predicate HasRecord(s: Cache, d: Desc) {
    d in s.spans && s.spans[d].record.Some?
  }

  /** Every listed span has a record. The list's links are kept in the records. */
  predicate Recorded(s: Cache, origins: seq<Desc>) {
    forall i :: 0 <= i < |origins| ==> HasRecord(s, origins[i])
  }

  /** A push writes a link into the record of the list's head; the span is not linked yet. */
  predicate PushSafe(s: Cache, d: Desc) {
    d !in s.origins && (s.origins != [] ==> HasRecord(s, s.origins[0]))
  }

  function Holders(spans: map<Desc, Span>): set<Desc> {
    set d | d in spans && spans[d].record.Some?
  }

  /** A removal writes a link into the records of the neighbours, and takes the span to be linked;
      `holders` are the spans with a record. */
  predicate RemoveSafe(holders: set<Desc>, origins: seq<Desc>, r: Desc) {
    && r in origins && r in holders
    && forall i :: 0 < i < |origins| ==>
         && (origins[i] == r ==> origins[i - 1] in holders)
         && (origins[i - 1] == r ==> origins[i] in holders)
  }

  /** Where span_coalesce's writes to the list go to records that exist; the left span gets one
      before it is pushed. */
  predicate CoalesceSafe(s: Cache, a: Arena, l: Desc, r: Desc)
    requires l in s.spans && r in s.spans
  {
    a.unmapOnTermination && HasRecord(s, r) ==>
      if HasRecord(s, l) then RemoveSafe(Holders(s.spans), s.origins, r)
      else PushSafe(s, l) && RemoveSafe(Holders(s.spans) + {l}, [l] + s.origins, r)
  }

  /** span_coalesce, record by record: the right record's size goes to the left one. */
  function Coalesce(s: Cache, a: Arena, l: Desc, r: Desc): Cache
    requires a.cfg.Positive() && l in s.spans && r in s.spans && l != r
  {
    var x, y := s.spans[l], s.spans[r];
    var moves := a.unmapOnTermination && y.record.Some?;
    var record :=
      if !moves then x.record
      else if x.record.Some? then Some(x.record.value + y.record.value)
      else y.record;
    var origins :=
      if !moves then s.origins
      else Without(if x.record.Some? then s.origins else [l] + s.origins, r);
    var nbytes := x.nbytes + y.nbytes;
    s.(spans := (s.spans - {r})[l := x.(
         age := if x.age > y.age then y.age else x.age,
         szclass := ClassOf(a, nbytes),
         state := if x.state > y.state then x.state else y.state,
         nbytes := nbytes, record := record)],
       origins := origins)
  }

  /** span_can_merge. */
  predicate CanMerge(s: Cache, a: Arena, l: Option<Desc>, r: Option<Desc>) {
    && l.Some? && r.Some? && l.value in s.spans && r.value in s.spans
    && (var x, y := s.spans[l.value], s.spans[r.value];
        && !x.isAlloc && !y.isAlloc
        && x.arena == y.arena
        && x.addr + x.nbytes == y.addr
        && x.nbytes + y.nbytes <= ALLOC_MAX
        && (a.crossMerge || x.age == y.age))
  }
}
