/** The structures behind a pail: Pail has its slabs as sets of free blocks and its registry as a
    sequence. Here the bitmaps of Slab and the links of LinkedList do the same. */
module PailLinks {
  import opened Lists
  import opened Pail
  import Slab
  import LinkedList

  // ----- slabs -----

  /** The slab's metadata says what the pail knows of it; its fields can count the blocks. */
  ghost predicate OnSlab(x: SlabState, n: nat, size: nat, slab: Slab.Slab)
    reads slab, slab.words
  {
    && slab.Valid() && slab.Free() == x.free && slab.addr == x.addr
    && slab.nblocks == n && slab.nbytesBlock == Slab.Stride(size) && Countable(n, size)
  }

  lemma CountIs(x: SlabState, n: nat, size: nat, slab: Slab.Slab)
    requires OnSlab(x, n, size, slab)
    ensures slab.nblocksFree == |x.free|
  {
    Slab.CounterExact(slab.words[..], n, slab.nblocksFree);
  }

  /** The bitmap gives the block the pail takes, and the counter tells when it was the last one. */
  method GetFirst(slab: Slab.Slab, ghost x: SlabState, ghost n: nat, ghost size: nat) returns (block: nat, ghost i: nat)
    requires OnSlab(x, n, size, slab) && x.free != {}
    modifies slab`nblocksFree, slab.words
    ensures i in x.free && (forall j :: j in x.free ==> i <= j) && block == AddressOf(x, i, size)
    ensures OnSlab(SlabState(x.addr, x.free - {i}), n, size, slab)
    ensures slab.nblocksFree == 0 <==> x.free - {i} == {}
  {
    CountIs(x, n, size, slab);
    var ok;
    block, ok, i := slab.GetBlock();
    CountIs(SlabState(x.addr, x.free - {i}), n, size, slab);
  }

  /** The bitmap takes a block back, and the counter tells whether it is the first free one, or the last. */
  method PutBack(slab: Slab.Slab, block: nat, ghost x: SlabState, ghost n: nat, ghost size: nat, ghost i: nat)
    requires OnSlab(x, n, size, slab) && i < n && i !in x.free && block == AddressOf(x, i, size)
    modifies slab`nblocksFree, slab.words
    ensures OnSlab(SlabState(x.addr, x.free + {i}), n, size, slab)
    ensures slab.nblocksFree == |x.free + {i}|
  {
    slab.PutBlock(block, i);
    CountIs(SlabState(x.addr, x.free + {i}), n, size, slab);
  }

  // ----- the registry -----

  /** The list links the nodes of the registry's slabs, in order. */
  ghost predicate OnList(registry: seq<Desc>, at: map<Desc, LinkedList.Node>, list: LinkedList.List)
    reads list, list.nodes
  {
    list.Valid() && Named(registry, at) && list.nodes == Nodes(registry, at)
  }

  /** Every slab has a node of its own. */
  ghost predicate Named(registry: seq<Desc>, at: map<Desc, LinkedList.Node>) {
    && (forall d :: d in registry ==> d in at)
    && forall d, e :: d in at && e in at && at[d] == at[e] ==> d == e
  }

  ghost function Nodes(registry: seq<Desc>, at: map<Desc, LinkedList.Node>): (r: seq<LinkedList.Node>)
    requires forall d :: d in registry ==> d in at
    ensures |r| == |registry| && forall i :: 0 <= i < |r| ==> r[i] == at[registry[i]]
  {
    seq(|registry|, i requires 0 <= i < |registry| => at[registry[i]])
  }

  lemma NodesWithout(registry: seq<Desc>, at: map<Desc, LinkedList.Node>, d: Desc) returns (k: nat)
    requires Named(registry, at) && d in registry
    ensures d in at && k < |registry| && registry[k] == d && Named(Without(registry, d), at)
    ensures Nodes(Without(registry, d), at) == LinkedList.Without(Nodes(registry, at), k)
  {
    k := Place(registry, d);
    WithoutAt(registry, d);
  }

  /** registry_push. */
  method Push(list: LinkedList.List, node: LinkedList.Node, ghost registry: seq<Desc>, ghost at: map<Desc, LinkedList.Node>, ghost d: Desc)
    requires OnList(registry, at, list) && d !in registry && d in at && at[d] == node
    modifies list, node, list.nodes
    ensures OnList([d] + registry, at, list)
  {
    list.PushFront(node);
    assert list.nodes == Nodes([d] + registry, at);
  }

  /** registry_pop. */
  method PopSlab(list: LinkedList.List, ghost registry: seq<Desc>, ghost at: map<Desc, LinkedList.Node>) returns (node: LinkedList.Node?)
    requires OnList(registry, at, list) && registry != []
    modifies list, list.nodes
    ensures registry[0] in at && node == at[registry[0]] && OnList(registry[1..], at, list)
  {
    node := list.PopFront();
    assert list.nodes == Nodes(registry[1..], at);
  }

  /** registry_remove. */
  method RemoveSlab(list: LinkedList.List, node: LinkedList.Node, ghost registry: seq<Desc>, ghost at: map<Desc, LinkedList.Node>, ghost d: Desc)
    requires OnList(registry, at, list) && d in registry && at[d] == node
    modifies list, list.nodes
    ensures OnList(Without(registry, d), at, list)
  {
    hide Named, Without, Place, LinkedList.Chained, Distinct, LinkedList.Without;
    ghost var k := NodesWithout(registry, at, d);
    list.Remove(node, k);
  }
}
