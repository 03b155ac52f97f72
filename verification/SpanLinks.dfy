/** The structures behind the span cache: SpanState has the page trie as a map and the buckets as
    sets. Here the tree of PageTrie and the heaps of PairingHeap do the same, operation by
    operation. */
module SpanLinks {
  import opened SizeClasses
  import opened SpanState
  import opened SpanInvariants
  import opened SpanOps
  import PageTrie
  import PairingHeap

  // ----- the page trie -----

  /** What the tree stores for a slot; 0 is null. */
  function Stored(s: Cache, slot: nat): nat {
    if slot in s.trie then s.trie[slot] else 0
  }

  ghost predicate Shows(s: Cache, m: map<nat, PageTrie.Ptr>) {
    forall slot :: 0 <= slot < TRIE_SLOTS ==> PageTrie.Get(m, slot) == Stored(s, slot)
  }

  /** Descriptors are not at address 0, and keys are page numbers the trie can tell apart. */
  ghost predicate Storable(s: Cache) {
    forall slot :: slot in s.trie ==> slot < TRIE_SLOTS && s.trie[slot] != 0
  }

  /** The tree holds the map, and has at least the nodes the map counts on. */
  ghost predicate OnTree(s: Cache, t: PageTrie.Trie)
    reads t, t.Repr
  {
    && t.Valid() && Shows(s, t.entries) && Storable(s)
    && forall p :: p in s.paths ==> t.HasPath(p)
  }

  lemma RangeIsPages(sp: Span, slot: nat)
    requires sp.nbytes > 0 && sp.addr + sp.nbytes <= ADDR_MAX
    ensures slot in PagesOf(sp) <==> PageTrie.InRange(slot, PageTrie.FirstPage(sp.addr), PageTrie.EndPage(sp.addr, sp.nbytes))
    ensures slot in PagesOf(sp) ==> slot < TRIE_SLOTS
  {
    if slot in PagesOf(sp) {
      assert PageTrie.Slot(slot) == slot;
    }
  }

  /** As far as a page, when the insert stopped there. */
  lemma RangeIsDone(sp: Span, slot: nat, stop: nat)
    requires sp.nbytes > 0 && sp.addr + sp.nbytes <= ADDR_MAX
    requires PageTrie.FirstPage(sp.addr) <= stop < PageTrie.EndPage(sp.addr, sp.nbytes)
    ensures slot in PagesOf(sp) && slot < stop <==> PageTrie.InRange(slot, PageTrie.FirstPage(sp.addr), stop)
    ensures stop in PagesOf(sp)
  {
    if slot in PagesOf(sp) && slot < stop {
      assert PageTrie.Slot(slot) == slot;
    }
  }

  lemma FilledShows(s: Cache, m: map<nat, PageTrie.Ptr>, d: Desc, stop: nat)
    requires Shows(s, m) && Storable(s) && d in s.spans && d != 0
    requires s.spans[d].nbytes > 0 && s.spans[d].addr + s.spans[d].nbytes <= ADDR_MAX
    ensures var sp := s.spans[d]; var s' := TrieInsert(s, d, true, stop).1;
      && Storable(s') && Shows(s', PageTrie.Fill(m, PageTrie.FirstPage(sp.addr), PageTrie.EndPage(sp.addr, sp.nbytes), d))
  {
    var sp, s' := s.spans[d], TrieInsert(s, d, true, stop).1;
    var (start, end) := (PageTrie.FirstPage(sp.addr), PageTrie.EndPage(sp.addr, sp.nbytes));
    forall slot | 0 <= slot < TRIE_SLOTS ensures PageTrie.Get(PageTrie.Fill(m, start, end, d), slot) == Stored(s', slot) {
      PageTrie.FillAt(m, start, end, d, slot);
      RangeIsPages(sp, slot);
    }
    forall slot | slot in s'.trie ensures slot < TRIE_SLOTS && s'.trie[slot] != 0 {
      RangeIsPages(sp, slot);
    }
  }

  lemma UndoneShows(s: Cache, m: map<nat, PageTrie.Ptr>, d: Desc, stop: nat)
    requires Shows(s, m) && Storable(s) && d in s.spans
    requires s.spans[d].nbytes > 0 && s.spans[d].addr + s.spans[d].nbytes <= ADDR_MAX
    requires PageTrie.FirstPage(s.spans[d].addr) <= stop < PageTrie.EndPage(s.spans[d].addr, s.spans[d].nbytes)
    requires stop !in s.paths
    ensures var start := PageTrie.FirstPage(s.spans[d].addr); var (ok, s') := TrieInsert(s, d, false, stop);
      && !ok && Storable(s')
      && Shows(s', PageTrie.Fill(PageTrie.Fill(m, start, stop, d), start, stop, 0))
  {
    var sp := s.spans[d];
    var start, s' := PageTrie.FirstPage(sp.addr), TrieInsert(s, d, false, stop).1;
    RangeIsDone(sp, stop, stop);
    forall slot | 0 <= slot < TRIE_SLOTS
      ensures PageTrie.Get(PageTrie.Fill(PageTrie.Fill(m, start, stop, d), start, stop, 0), slot) == Stored(s', slot)
    {
      PageTrie.FillAt(m, start, stop, d, slot);
      PageTrie.FillAt(PageTrie.Fill(m, start, stop, d), start, stop, 0, slot);
      RangeIsDone(sp, slot, stop);
    }
  }

  /** pagetrie_insert on the tree is TrieInsert on the map, for some answer of the node pool. */
  method EnterPages(t: PageTrie.Trie, ghost s: Cache, d: Desc, sp: Span, budget: nat) returns (ok: bool, ghost canAlloc: bool, ghost stop: nat)
    requires OnTree(s, t) && d in s.spans && s.spans[d] == sp && d != 0 && sp.addr + sp.nbytes <= ADDR_MAX
    modifies t.Repr
    ensures var (done, s') := TrieInsert(s, d, canAlloc, stop); ok == done && OnTree(s', t)
    ensures PagesOf(sp) <= s.paths ==> ok
  {
    var status, left;
    ghost var m := t.entries;
    status, stop, left := t.Insert(sp.addr, d, sp.nbytes, budget);
    ok, canAlloc := status == PageTrie.Success, status == PageTrie.Success;
    if sp.nbytes == 0 {
      assert TrieInsert(s, d, canAlloc, stop).1.trie == s.trie;
    } else if ok {
      FilledShows(s, m, d, stop);
      forall p | p in PagesOf(sp) ensures t.HasPath(p) {
      }
    } else {
      UndoneShows(s, m, d, stop);
      RangeIsDone(sp, stop, stop);
    }
  }

  /** pagetrie_lookup on the tree is Lookup on the map. */
  method FindSpan(t: PageTrie.Trie, ghost s: Cache, addr: nat) returns (d: Option<Desc>)
    requires OnTree(s, t)
    ensures d == Lookup(s, addr)
  {
    var ptr := t.Lookup(addr);
    assert PageTrie.Slot(addr / TRIE_PAGE) == addr / TRIE_PAGE % TRIE_SLOTS;
    d := if ptr == 0 then None else Some(ptr);
  }

  // ----- the buckets -----

  /** Each span has a descriptor of its own, with its age and address. */
  ghost predicate Mirrors(s: Cache, bucket: set<Desc>, at: map<Desc, PairingHeap.Span>)
    reads at.Values`age, at.Values`addr
  {
    && bucket <= at.Keys && bucket <= s.spans.Keys
    && (forall d, e :: d in bucket && e in bucket && at[d] == at[e] ==> d == e)
    && forall d :: d in bucket ==> at[d].age == s.spans[d].age && at[d].addr == s.spans[d].addr
  }

  ghost function Nodes(bucket: set<Desc>, at: map<Desc, PairingHeap.Span>): set<PairingHeap.Span> {
    set d | d in bucket && d in at :: at[d]
  }

  /** The heap holds the descriptors of the set. */
  ghost predicate OnHeap(s: Cache, bucket: set<Desc>, at: map<Desc, PairingHeap.Span>, b: PairingHeap.Bucket)
    reads b, b.Contents(), at.Values`age, at.Values`addr
  {
    b.Valid() && b.Contents() == Nodes(bucket, at) && Mirrors(s, bucket, at)
  }

  lemma HeapFirst(s: Cache, bucket: set<Desc>, at: map<Desc, PairingHeap.Span>, d: Desc)
    requires Mirrors(s, bucket, at) && d in bucket && PairingHeap.FirstAmong(Nodes(bucket, at), at[d])
    ensures IsFirst(s, bucket, d)
  {
    forall e | e in bucket ensures !Before(s.spans[e], s.spans[d]) {
      assert at[e] in Nodes(bucket, at) && !PairingHeap.SpanCmp(at[e], at[d]);
    }
  }

  /** A first node of the heap is the node of the first span of the bucket. */
  lemma FirstNode(s: Cache, a: Arena, bucket: set<Desc>, at: map<Desc, PairingHeap.Span>, node: PairingHeap.Span)
    requires ValidArena(a) && SpansInv(s, a) && TrieInv(s, a) && Mirrors(s, bucket, at)
    requires forall d :: d in bucket ==> Mine(s, a, d)
    requires node in Nodes(bucket, at) && PairingHeap.FirstAmong(Nodes(bucket, at), node)
    ensures First(s, bucket) in bucket && First(s, bucket) in at && at[First(s, bucket)] == node
  {
    hide ValidArena, SpansInv, TrieInv;
    var d :| d in bucket && at[d] == node;
    HeapFirst(s, bucket, at, d);
    FirstUnique(s, a, bucket, d, First(s, bucket));
  }

  lemma NodeOf(s: Cache, bucket: set<Desc>, at: map<Desc, PairingHeap.Span>)
    requires Mirrors(s, bucket, at) && bucket != {}
    ensures bucket <= s.spans.Keys && Nodes(bucket, at) != {}
  {
    var d :| d in bucket;
    assert at[d] in Nodes(bucket, at);
  }

  lemma OneNodeLess(s: Cache, bucket: set<Desc>, at: map<Desc, PairingHeap.Span>, d: Desc)
    requires Mirrors(s, bucket, at) && d in bucket
    ensures Mirrors(s, bucket - {d}, at) && Nodes(bucket - {d}, at) == Nodes(bucket, at) - {at[d]}
  {
  }

  /** bucket_pop on the heap takes out the very span the cache takes from the set. */
  method PopFirst(b: PairingHeap.Bucket, ghost s: Cache, ghost a: Arena, ghost bucket: set<Desc>, ghost at: map<Desc, PairingHeap.Span>)
    returns (node: PairingHeap.Span)
    requires ValidArena(a) && SpansInv(s, a) && TrieInv(s, a) && OnHeap(s, bucket, at, b)
    requires bucket != {} && forall d :: d in bucket ==> Mine(s, a, d)
    modifies b, b.Contents()`next, b.Contents()`prev, b.Contents()`child
    ensures bucket <= s.spans.Keys && First(s, bucket) in at && node == at[First(s, bucket)]
    ensures OnHeap(s, bucket - {First(s, bucket)}, at, b)
  {
    hide Mirrors, Nodes, IsFirst, ValidArena, SpansInv, TrieInv, Mine, PairingHeap.Rooted, PairingHeap.FirstAmong, PairingHeap.Spans, PairingHeap.Top;
    NodeOf(s, bucket, at);
    ghost var nodes := b.Contents();
    var r := b.Pop();
    node := r;
    FirstNode(s, a, bucket, at, node);
    OneNodeLess(s, bucket, at, First(s, bucket));
  }

  lemma OneNodeMore(s: Cache, bucket: set<Desc>, at: map<Desc, PairingHeap.Span>, d: Desc)
    requires Mirrors(s, bucket + {d}, at) && d !in bucket
    ensures at[d] !in Nodes(bucket, at) && Nodes(bucket + {d}, at) == Nodes(bucket, at) + {at[d]}
  {
  }

  /** bucket_insert on the heap. */
  method InsertNode(b: PairingHeap.Bucket, node: PairingHeap.Span, ghost s: Cache, ghost bucket: set<Desc>,
      ghost at: map<Desc, PairingHeap.Span>, ghost d: Desc)
    requires OnHeap(s, bucket, at, b) && Mirrors(s, bucket + {d}, at) && d !in bucket && d in at && at[d] == node
    modifies b, b.Contents()`next, b.Contents()`prev, b.Contents()`child, node`next, node`prev, node`child
    ensures OnHeap(s, bucket + {d}, at, b)
  {
    hide Mirrors, Nodes, PairingHeap.Rooted, PairingHeap.Spans, PairingHeap.Top;
    OneNodeMore(s, bucket, at, d);
    b.Insert(node);
  }

  lemma NodeInside(s: Cache, bucket: set<Desc>, at: map<Desc, PairingHeap.Span>, d: Desc)
    requires Mirrors(s, bucket, at) && d in bucket
    ensures at[d] in Nodes(bucket, at)
  {
  }

  /** bucket_remove on the heap. */
  method RemoveNode(b: PairingHeap.Bucket, node: PairingHeap.Span, ghost s: Cache, ghost bucket: set<Desc>,
      ghost at: map<Desc, PairingHeap.Span>, ghost d: Desc)
    requires OnHeap(s, bucket, at, b) && d in bucket && at[d] == node
    modifies b, b.Contents()`next, b.Contents()`prev, b.Contents()`child
    ensures OnHeap(s, bucket - {d}, at, b)
  {
    hide Nodes, PairingHeap.Rooted, PairingHeap.Spans, PairingHeap.Top;
    OneNodeLess(s, bucket, at, d);
    NodeInside(s, bucket, at, d);
    b.Remove(node);
  }
}
