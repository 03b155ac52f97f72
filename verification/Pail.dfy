/** A pail: the slabs of one size class, with a registry of those that have a free block. */
module Pail {
  import opened Bits
  import opened Lists
  import opened SizeClasses
  import Slab

  type Desc = nat

  /** A slab as the pail sees it: where it starts, and which blocks are free. */
  datatype SlabState = SlabState(addr: nat, free: set<nat>)

  /** A block: its slab, and its number in the slab. */
  type Block = (Desc, nat)

  ghost function Outstanding(slabs: map<Desc, SlabState>, n: nat): set<Block> {
    set d, i | d in slabs && 0 <= i < n && i !in slabs[d].free :: (d, i)
  }

  ghost function FreeBlocks(slabs: map<Desc, SlabState>): set<Block> {
    set d, i | d in slabs && i in slabs[d].free :: (d, i)
  }

  predicate Apart(x: SlabState, y: SlabState, nbytes: nat) {
    x.addr + nbytes <= y.addr || y.addr + nbytes <= x.addr
  }

  /** The block's address: blocks are as far apart as the 16 bits of the slab's metadata say. */
  function AddressOf(x: SlabState, i: nat, size: nat): nat {
    Slab.BlockAt(x.addr, size, i)
  }

  /** The registry lists exactly the slabs with a free block, the count counts all slabs, and slabs
      lie apart. */
  ghost predicate PailInv(slabs: map<Desc, SlabState>, registry: seq<Desc>, nslabs: nat, n: nat, nbytes: nat) {
    nslabs == |slabs| && Bounded(slabs, n) && Registered(slabs, registry) && AllApart(slabs, nbytes)
  }

  ghost predicate Bounded(slabs: map<Desc, SlabState>, n: nat) {
    forall d, i :: d in slabs && i in slabs[d].free ==> i < n
  }

  ghost predicate Registered(slabs: map<Desc, SlabState>, registry: seq<Desc>) {
    Distinct(registry) && forall d :: d in registry <==> d in slabs && slabs[d].free != {}
  }

  ghost predicate AllApart(slabs: map<Desc, SlabState>, nbytes: nat) {
    forall d, e :: d in slabs && e in slabs && d != e ==> Apart(slabs[d], slabs[e], nbytes)
  }

  /** A slab the span cache may answer with: a new descriptor, on memory of its own. */
  ghost predicate Fresh(slabs: map<Desc, SlabState>, answer: Option<(Desc, nat)>, nbytes: nat) {
    answer.Some? ==> (
      && answer.value.0 !in slabs
      && forall d :: d in slabs ==> Apart(slabs[d], SlabState(answer.value.1, {}), nbytes))
  }

  // ----- what each change keeps -----

  lemma MintRegistry(slabs: map<Desc, SlabState>, registry: seq<Desc>, d: Desc, x: SlabState)
    requires Registered(slabs, registry) && d !in slabs && x.free != {}
    ensures Registered(slabs[d := x], [d] + registry)
  {
    assert forall e :: e in [d] + registry <==> e == d || e in registry;
  }

  lemma MintApart(slabs: map<Desc, SlabState>, n: nat, nbytes: nat, d: Desc, x: SlabState)
    requires AllApart(slabs, nbytes) && Bounded(slabs, n) && d !in slabs && forall i :: i in x.free ==> i < n
    requires forall e :: e in slabs ==> Apart(slabs[e], x, nbytes)
    ensures AllApart(slabs[d := x], nbytes) && Bounded(slabs[d := x], n)
  {
  }

  lemma MintOut(slabs: map<Desc, SlabState>, n: nat, d: Desc, x: SlabState)
    requires d !in slabs && forall i: nat :: i < n ==> i in x.free
    ensures Outstanding(slabs[d := x], n) == Outstanding(slabs, n)
  {
  }

  lemma MintKeeps(slabs: map<Desc, SlabState>, registry: seq<Desc>, nslabs: nat, n: nat, nbytes: nat, d: Desc, addr: nat)
    requires PailInv(slabs, registry, nslabs, n, nbytes) && Fresh(slabs, Some((d, addr)), nbytes) && n > 0
    ensures var now := slabs[d := SlabState(addr, FirstN(n))];
      PailInv(now, [d] + registry, nslabs + 1, n, nbytes) && Outstanding(now, n) == Outstanding(slabs, n)
  {
    hide Registered, AllApart, Bounded, Outstanding;
    var x := SlabState(addr, FirstN(n));
    var now := slabs[d := x];
    assert 0 in FirstN(n);
    hide FirstN;
    MintRegistry(slabs, registry, d, x);
    MintApart(slabs, n, nbytes, d, x);
    MintOut(slabs, n, d, x);
    assert |now| == |slabs| + 1;
  }

  /** Only the free set of `d` differs. */
  function WithFree(slabs: map<Desc, SlabState>, d: Desc, free: set<nat>): map<Desc, SlabState>
    requires d in slabs
  {
    slabs[d := slabs[d].(free := free)]
  }

  lemma FreeKeeps(slabs: map<Desc, SlabState>, registry: seq<Desc>, registry': seq<Desc>, nslabs: nat, n: nat, nbytes: nat, d: Desc, free: set<nat>)
    requires PailInv(slabs, registry, nslabs, n, nbytes) && d in slabs && (forall i :: i in free ==> i < n)
    requires Registered(WithFree(slabs, d, free), registry')
    ensures PailInv(WithFree(slabs, d, free), registry', nslabs, n, nbytes)
  {
    var now := WithFree(slabs, d, free);
    assert now.Keys == slabs.Keys && |now.Keys| == |now| && |slabs.Keys| == |slabs|;
    hide Registered;
    assert Bounded(now, n) by { hide AllApart; }
    assert AllApart(now, nbytes) by { hide Bounded; }
    hide WithFree, AllApart, Bounded;
  }

  /** After a block was taken the slab leaves the front of the registry if it was the last. */
  lemma TakenRegistry(slabs: map<Desc, SlabState>, registry: seq<Desc>, i: nat)
    requires Registered(slabs, registry) && registry != [] && registry[0] in slabs
    ensures var d := registry[0]; var free := slabs[d].free - {i};
      Registered(WithFree(slabs, d, free), if free == {} then registry[1..] else registry)
  {
    Popped(registry);
    assert registry[0] in registry;
  }

  /** After a block came back the slab is registered, at the front if it was not before. */
  lemma BackRegistry(slabs: map<Desc, SlabState>, registry: seq<Desc>, d: Desc, i: nat)
    requires Registered(slabs, registry) && d in slabs && i !in slabs[d].free
    ensures var free := slabs[d].free + {i};
      Registered(WithFree(slabs, d, free), if |free| == 1 then [d] + registry else registry)
  {
    var was, free := slabs[d].free, slabs[d].free + {i};
    assert |free| == |was| + 1;
    assert forall e :: e in [d] + registry <==> e == d || e in registry;
    if |free| == 1 {
      assert was == {} && d !in registry;
    } else {
      assert was != {};
    }
  }

  /** A slab that is flushed leaves the registry and the pail. */
  lemma FlushKeeps(slabs: map<Desc, SlabState>, registry: seq<Desc>, nslabs: nat, n: nat, nbytes: nat, d: Desc)
    requires PailInv(slabs, registry, nslabs, n, nbytes) && d in slabs
    ensures PailInv(slabs - {d}, Without(registry, d), nslabs - 1, n, nbytes)
  {
    var now := slabs - {d};
    assert now.Keys == slabs.Keys - {d} && |now.Keys| == |now| && |slabs.Keys| == |slabs|;
    WithoutIs(registry, d);
  }

  /** The block named is one of a slab of the pail, and not free. */
  lemma OutFacts(slabs: map<Desc, SlabState>, n: nat, d: Desc, i: nat)
    requires Bounded(slabs, n) && (d, i) in Outstanding(slabs, n)
    ensures d in slabs && i < n && i !in slabs[d].free && forall j :: j in slabs[d].free + {i} ==> j < n
  {
  }

  lemma PutStays(slabs: map<Desc, SlabState>, registry: seq<Desc>, nslabs: nat, n: nat, nbytes: nat, d: Desc, i: nat)
    requires PailInv(slabs, registry, nslabs, n, nbytes) && (d, i) in Outstanding(slabs, n)
    ensures d in slabs && i !in slabs[d].free
    ensures var free := slabs[d].free + {i}; var now := WithFree(slabs, d, free);
      && PailInv(now, if |free| == 1 then [d] + registry else registry, nslabs, n, nbytes)
      && Outstanding(now, n) == Outstanding(slabs, n) - {(d, i)}
  {
    hide Outstanding, Bounded, Registered, AllApart;
    OutFacts(slabs, n, d, i);
    var free := slabs[d].free + {i};
    GivenBack(slabs, n, d, i);
    BackRegistry(slabs, registry, d, i);
    FreeKeeps(slabs, registry, if |free| == 1 then [d] + registry else registry, nslabs, n, nbytes, d, free);
  }

  /** A slab about to have all its blocks back has had one before, so it is linked. */
  lemma WasRegistered(slabs: map<Desc, SlabState>, registry: seq<Desc>, n: nat, d: Desc, i: nat)
    requires Registered(slabs, registry) && d in slabs && n >= 2 && |slabs[d].free + {i}| == n
    ensures d in registry
  {
    var free := slabs[d].free;
    assert |free + {i}| <= |free| + 1 by {
      assert i in free ==> free + {i} == free;
    }
  }

  /** A slab that has all its blocks back and is not the only one is unlinked, which it was. */
  lemma PutFlushes(slabs: map<Desc, SlabState>, registry: seq<Desc>, nslabs: nat, n: nat, nbytes: nat, d: Desc, i: nat)
    requires PailInv(slabs, registry, nslabs, n, nbytes) && (d, i) in Outstanding(slabs, n) && n >= 2
    ensures d in slabs
    ensures var free := slabs[d].free + {i}; var now := WithFree(slabs, d, free);
      |free| == n && nslabs > 1 ==>
        && d in registry
        && PailInv(now - {d}, Without(registry, d), nslabs - 1, n, nbytes)
        && Outstanding(now - {d}, n) == Outstanding(now, n)
  {
    hide Outstanding, Bounded, Registered, AllApart, Without;
    OutFacts(slabs, n, d, i);
    var free := slabs[d].free + {i};
    if |free| == n && nslabs > 1 {
      WasRegistered(slabs, registry, n, d, i);
      FlushKeeps(slabs, registry, nslabs, n, nbytes, d);
      assert WithFree(slabs, d, free) - {d} == slabs - {d};
      AllFree(free, n);
      Flushed(slabs, n, d, free);
    }
  }

  function SlabBytes(n: nat, size: nat): nat {
    n * size
  }

  /** A block's number, from its address. */
  function IndexOf(x: SlabState, block: nat, size: nat): nat
    requires Slab.Stride(size) > 0 && x.addr <= block
  {
    (block - x.addr) / Slab.Stride(size)
  }

  lemma IndexOfAddress(x: SlabState, i: nat, size: nat)
    requires Slab.Stride(size) > 0
    ensures x.addr <= AddressOf(x, i, size) && IndexOf(x, AddressOf(x, i, size), size) == i
  {
    MulDivRight(i, Slab.Stride(size));
  }

  /** What the 16-bit metadata can count, and a stride that a put can divide by. */
  predicate Countable(n: nat, size: nat) {
    2 <= n < UINT16_LIMIT && Slab.Stride(size) > 0
  }

  class Pail {
    const n: nat
    const size: nat
    var registry: seq<Desc>
    var nslabs: nat
    var slabs: map<Desc, SlabState>

    ghost function Out(): set<Block>
      reads this
    {
      Outstanding(slabs, n)
    }

    ghost predicate Valid()
      reads this
    {
      Countable(n, size) && PailInv(slabs, registry, nslabs, n, SlabBytes(n, size))
    }

    constructor (blocks: nat, bytes: nat)
      requires Countable(blocks, bytes)
      ensures Valid() && n == blocks && size == bytes && slabs == map[]
    {
      n, size, registry, nslabs, slabs := blocks, bytes, [], 0, map[];
    }

    /** _pail_mint_slab. */
    method MintSlab(answer: Option<(Desc, nat)>) returns (ok: bool)
      requires Valid() && Fresh(slabs, answer, SlabBytes(n, size))
      modifies this
      ensures Valid() && ok == answer.Some? && Out() == old(Out())
      ensures !ok ==> slabs == old(slabs) && registry == old(registry)
      ensures ok ==> slabs == old(slabs)[answer.value.0 := SlabState(answer.value.1, FirstN(n))] && registry == [answer.value.0] + old(registry)
    {
      if answer.None? {
        return false;
      }
      hide PailInv, Fresh, Outstanding;
      var (d, addr) := answer.value;
      MintKeeps(slabs, registry, nslabs, n, SlabBytes(n, size), d, addr);
      slabs := slabs[d := SlabState(addr, FirstN(n))];
      registry := [d] + registry;
      nslabs := nslabs + 1;
      return true;
    }

    /** The front slab of the registry gives its first free block. */
    method TakeBlock() returns (block: nat, ghost b: Block)
      requires Valid() && registry != []
      modifies this
      ensures Valid() && b !in old(Out()) && Out() == old(Out()) + {b}
      ensures b.0 == old(registry)[0] && b.0 in slabs && b.1 < n && block == AddressOf(slabs[b.0], b.1, size)
      ensures b.0 in old(slabs) && slabs == WithFree(old(slabs), b.0, old(slabs)[b.0].free - {b.1})
      ensures b.1 in old(slabs)[b.0].free && forall j :: j in old(slabs)[b.0].free ==> b.1 <= j
      ensures registry == if old(slabs)[b.0].free == {b.1} then old(registry)[1..] else old(registry)
    {
      var d := registry[0];
      assert d in registry;
      var i := FirstFree(slabs[d].free);
      block, b := AddressOf(slabs[d], i, size), (d, i);
      ghost var was := slabs;
      var free := slabs[d].free - {i};
      assert free == {} <==> slabs[d].free == {i};
      assert forall j :: j in free ==> j in slabs[d].free && j < n;
      TakenRegistry(slabs, registry, i);
      FreeKeeps(slabs, registry, if free == {} then registry[1..] else registry, nslabs, n, SlabBytes(n, size), d, free);
      TakenOut(slabs, n, d, i);
      hide PailInv, Outstanding;
      slabs := WithFree(slabs, d, free);
      if free == {} {
        registry := registry[1..];
      }
    }

    /** _pail_get_block. */
    method GetBlock(answer: Option<(Desc, nat)>) returns (block: Option<nat>, ghost b: Block)
      requires Valid() && Fresh(slabs, answer, SlabBytes(n, size))
      modifies this
      ensures Valid() && (block.None? <==> old(registry) == [] && answer.None?)
      ensures block.None? ==> slabs == old(slabs) && registry == old(registry)
      ensures block.Some? ==> b !in old(Out()) && Out() == old(Out()) + {b}
      ensures block.Some? ==> b.0 in slabs && b.1 < n && block.value == AddressOf(slabs[b.0], b.1, size)
      ensures SamePlaces(old(slabs), slabs, answer)
      ensures block.Some? ==> slabs.Keys == old(slabs).Keys + if old(registry) == [] then {answer.value.0} else {}
    {
      hide PailInv, Outstanding, SlabBytes, AddressOf, SamePlaces;
      ghost var was := slabs;
      StaysPut(was, answer);
      if registry == [] {
        var ok := MintSlab(answer);
        if !ok {
          return None, (0, 0);
        }
        MintPlaces(was, answer, FirstN(n));
      }
      ghost var minted := slabs;
      var addr;
      addr, b := TakeBlock();
      FreePlaces(was, minted, answer, b.0, minted[b.0].free - {b.1});
      return Some(addr), b;
    }

    /** _pail_put_block. The span cache takes a flushed slab back, which cannot fail. */
    method PutBlock(d: Desc, block: nat, flush: bool, ghost i: nat) returns (flushed: bool)
      requires Valid() && (d, i) in Out() && block == AddressOf(slabs[d], i, size)
      modifies this
      ensures Valid() && Out() == old(Out()) - {(d, i)}
      ensures var free := old(slabs)[d].free + {i};
        && flushed == (flush && |free| == n && old(nslabs) > 1)
        && slabs == (if flushed then WithFree(old(slabs), d, free) - {d} else WithFree(old(slabs), d, free))
        && (flushed ==> d in old(registry) && registry == Without(old(registry), d))
        && (!flushed ==> registry == if old(slabs)[d].free == {} then [d] + old(registry) else old(registry))
    {
      hide PailInv, Outstanding, Without, SlabBytes, AddressOf, IndexOf, WithFree;
      PutStays(slabs, registry, nslabs, n, SlabBytes(n, size), d, i);
      PutFlushes(slabs, registry, nslabs, n, SlabBytes(n, size), d, i);
      IndexOfAddress(slabs[d], i, size);
      var k := IndexOf(slabs[d], block, size);
      var free := slabs[d].free + {k};
      assert |free| == |slabs[d].free| + 1;
      slabs := WithFree(slabs, d, free);
      flushed := flush && |free| == n && nslabs > 1;
      if flushed {
        registry := Without(registry, d);
        slabs := slabs - {d};
        nslabs := nslabs - 1;
      } else if |free| == 1 {
        registry := [d] + registry;
      }
    }

    /** scache_query on a block's address: the slab that holds it. */
    method Query(block: nat, ghost b: Block) returns (d: Desc)
      requires Valid() && b.0 in slabs && b.1 < n && block == AddressOf(slabs[b.0], b.1, size)
      ensures d == b.0
    {
      BlockInside(slabs[b.0], b.1, n, size);
      d :| d in slabs && slabs[d].addr <= block < slabs[d].addr + SlabBytes(n, size);
      hide SlabBytes, AddressOf, Registered, Bounded;
    }

    /** The rollback loop of pail_get_batch: slabs are never flushed here. */
    method GiveBack(blocks: seq<nat>, ghost pairs: seq<Block>)
      requires Valid() && Holds(slabs, n, size, blocks, pairs) && ToSet(pairs) <= Out()
      modifies this
      ensures Valid() && Out() == old(Out()) - ToSet(pairs) && SameAddresses(old(slabs), slabs)
    {
      ghost var out := Out();
      ghost var was := slabs;
      assert out - ToSet(pairs[..0]) == out;
      var j := 0;
      while j < |blocks|
        invariant 0 <= j <= |blocks| == |pairs| && Valid()
        invariant Out() == out - ToSet(pairs[..j])
        invariant SameAddresses(was, slabs)
      {
        PairAt(was, n, size, blocks, pairs, j);
        hide Outstanding, AddressOf, Holds, ToSet, PailInv, WithFree;
        var d := Query(blocks[j], pairs[j]);
        ghost var i := pairs[j].1;
        ghost var before := slabs;
        StillOut(out, pairs, j);
        var _ := PutBlock(d, blocks[j], false, i);
        AddressesFree(was, before, d, before[d].free + {i});
        NextGone(out, pairs, j);
        j := j + 1;
      }
      assert pairs[..j] == pairs;
    }

    /** What holds between two blocks of a batch: `out` was outstanding before it. */
    ghost predicate Midway(out: set<Block>, blocks: seq<nat>, pairs: seq<Block>)
      reads this
    {
      Valid() && Holds(slabs, n, size, blocks, pairs) && ToSet(pairs) !! out && Out() == out + ToSet(pairs)
    }

    /** One more block of a batch. */
    method GetNext(blocks: seq<nat>, answers: seq<Option<(Desc, nat)>>, ghost out: set<Block>, ghost pairs: seq<Block>)
      returns (block: Option<nat>, ghost b: Block)
      requires Midway(out, blocks, pairs) && answers != [] && AllFresh(slabs, answers, SlabBytes(n, size))
      modifies this
      ensures block.None? <==> old(registry) == [] && answers[0].None?
      ensures SamePlaces(old(slabs), slabs, answers[0])
      ensures block.Some? ==> b !in old(Out()) && Out() == old(Out()) + {b}
      ensures block.None? ==> slabs == old(slabs) && registry == old(registry)
      ensures block.Some? ==> slabs.Keys == old(slabs).Keys + if old(registry) == [] then {answers[0].value.0} else {}
      ensures block.None? ==> Midway(out, blocks, pairs)
      ensures block.Some? ==> Midway(out, blocks + [block.value], pairs + [b]) && AllFresh(slabs, answers[1..], SlabBytes(n, size))
    {
      hide Outstanding, AddressOf, Holds, ToSet, PailInv, AllFresh, SlabBytes, SamePlaces;
      HeadFresh(slabs, answers, SlabBytes(n, size));
      ghost var was := slabs;
      block, b := GetBlock(answers[0]);
      if block.Some? {
        HoldsMore(was, slabs, n, size, blocks, pairs, answers[0], block.value, b);
        TailFresh(was, slabs, answers, SlabBytes(n, size));
      }
    }

    /** pail_get_batch: all the blocks, or none. It fails exactly if the span cache has no slab when
        the free blocks, those of the slabs got so far included, are used up; the slabs got by then
        stay, with all their blocks free. */
    method GetBatch(k: nat, answers: seq<Option<(Desc, nat)>>) returns (blocks: Option<seq<nat>>, ghost pairs: seq<Block>)
      requires Valid() && |answers| == k && AllFresh(slabs, answers, SlabBytes(n, size))
      modifies this
      ensures Valid()
      ensures blocks.None? <==> exists i :: FallsShort(|FreeBlocks(old(slabs))|, n, answers, i)
      ensures blocks.None? ==> Out() == old(Out())
      ensures blocks.None? ==> exists i ::
        FallsShort(|FreeBlocks(old(slabs))|, n, answers, i) && OnlyMinted(|FreeBlocks(old(slabs))|, old(slabs), slabs, n, answers[..i])
      ensures blocks.Some? ==> |blocks.value| == k && Holds(slabs, n, size, blocks.value, pairs)
      ensures blocks.Some? ==> ToSet(pairs) !! old(Out()) && Out() == old(Out()) + ToSet(pairs)
      ensures blocks.Some? ==> Grown(|FreeBlocks(old(slabs))|, old(slabs), slabs, n, answers)
    {
      hide Underway, Midway, Grown, Left, FallsShort, FreeBlocks, AllFresh, PailInv, Outstanding, Holds, ToSet, OnlyMinted, UsedUp, SlabBytes;
      var dest := [];
      pairs := [];
      ghost var (out, was, free) := (Out(), slabs, |FreeBlocks(slabs)|);
      StartsUnderway(answers);
      var i := 0;
      while i < k
        invariant 0 <= i <= k && |dest| == i && Underway(was, out, free, dest, pairs, answers)
        invariant forall j :: 0 <= j < i ==> !FallsShort(free, n, answers, j)
      {
        var block, b := GetAnother(was, out, free, dest, pairs, answers);
        if block.None? {
          GiveUp(was, out, free, dest, pairs, answers);
          return None, [];
        }
        dest, pairs := dest + [block.value], pairs + [b];
        i := i + 1;
      }
      NeverFalls(free, n, answers);
      EndsUnderway(was, out, free, dest, pairs, answers);
      blocks := Some(dest);
    }

    /** A batch between two blocks: which slabs were got for it, and how many blocks are free. */
    ghost predicate Underway(was: map<Desc, SlabState>, out: set<Block>, free: nat, dest: seq<nat>, pairs: seq<Block>,
                             answers: seq<Option<(Desc, nat)>>)
      reads this
    {
      && |dest| <= |answers| && Bounded(was, n) && Outstanding(was, n) == out
      && Midway(out, dest, pairs) && AllFresh(slabs, answers[|dest|..], SlabBytes(n, size))
      && |FreeBlocks(slabs)| == Left(free, n, |dest|) && Grown(free, was, slabs, n, answers[..|dest|])
    }

    lemma StartsUnderway(answers: seq<Option<(Desc, nat)>>)
      requires Valid() && AllFresh(slabs, answers, SlabBytes(n, size))
      ensures Underway(slabs, Out(), |FreeBlocks(slabs)|, [], [], answers)
    {
      hide Outstanding, AllFresh, SlabBytes, Grown, FreeBlocks, Left;
      GrownNone(|FreeBlocks(slabs)|, slabs, n);
      LeftFirst(|FreeBlocks(slabs)|, n);
      assert ToSet([]) == {} && answers[0..] == answers && answers[..0] == [];
    }

    lemma EndsUnderway(was: map<Desc, SlabState>, out: set<Block>, free: nat, dest: seq<nat>, pairs: seq<Block>,
                       answers: seq<Option<(Desc, nat)>>)
      requires Underway(was, out, free, dest, pairs, answers) && |dest| == |answers|
      ensures Valid() && Holds(slabs, n, size, dest, pairs) && ToSet(pairs) !! out && Out() == out + ToSet(pairs)
      ensures Grown(free, was, slabs, n, answers)
    {
      assert answers[..|dest|] == answers;
    }

    method GetAnother(ghost was: map<Desc, SlabState>, ghost out: set<Block>, ghost free: nat, dest: seq<nat>, ghost pairs: seq<Block>,
                      answers: seq<Option<(Desc, nat)>>)
      returns (block: Option<nat>, ghost b: Block)
      requires Underway(was, out, free, dest, pairs, answers) && |dest| < |answers|
      modifies this
      ensures block.None? <==> FallsShort(free, n, answers, |dest|)
      ensures block.None? ==> Underway(was, out, free, dest, pairs, answers)
      ensures block.Some? ==> Underway(was, out, free, dest + [block.value], pairs + [b], answers)
    {
      hide Outstanding, AddressOf, Holds, ToSet, PailInv, AllFresh, SlabBytes, SamePlaces, Grown, Left, FallsShort, FreeBlocks, UsedUp;
      var i := |dest|;
      ghost var (now, empty) := (slabs, registry == []);
      NothingFree(slabs, registry, nslabs, n, SlabBytes(n, size));
      NextFalls(free, n, answers, i);
      NewOne(slabs, answers, i, SlabBytes(n, size));
      block, b := GetNext(dest, answers[i..], out, pairs);
      if block.Some? {
        NothingFree(slabs, registry, nslabs, n, SlabBytes(n, size));
        OneKeyMore(now, slabs, answers[i], empty);
        CountsDown(now, slabs, n, Outstanding(now, n), b, empty);
        GrownMore(free, was, now, slabs, n, answers, i);
        assert answers[i..][1..] == answers[i + 1..];
      }
    }

    method GiveUp(ghost was: map<Desc, SlabState>, ghost out: set<Block>, ghost free: nat, dest: seq<nat>, ghost pairs: seq<Block>,
                  ghost answers: seq<Option<(Desc, nat)>>)
      requires Underway(was, out, free, dest, pairs, answers)
      modifies this
      ensures Valid() && Out() == out && OnlyMinted(free, was, slabs, n, answers[..|dest|])
    {
      hide AddressOf, Holds, ToSet, AllFresh, SlabBytes, Grown, Left, FreeBlocks, OnlyMinted, Outstanding;
      ghost var now := slabs;
      GiveBack(dest, pairs);
      assert out + ToSet(pairs) - ToSet(pairs) == out;
      BackAsBefore(free, was, now, slabs, n, answers[..|dest|]);
    }
  }

  // ----- when a batch fails -----

  /** The free blocks, and then every slab of `n` got for the batch, are used up before block `i`. */
  predicate UsedUp(free: nat, n: nat, i: int)
    requires n > 0
  {
    free <= i && (i - free) % n == 0
  }

  /** Block `i` needs a slab, and there is none. */
  predicate FallsShort(free: nat, n: nat, answers: seq<Option<(Desc, nat)>>, i: int)
    requires n > 0
  {
    0 <= i < |answers| && UsedUp(free, n, i) && answers[i].None?
  }

  /** The slabs got on the way to the end of the answers are where these say, and nothing else is new. */
  ghost predicate Grown(free: nat, was: map<Desc, SlabState>, now: map<Desc, SlabState>, n: nat, answers: seq<Option<(Desc, nat)>>)
    requires n > 0
  {
    && (forall d :: d in was ==> d in now && now[d].addr == was[d].addr)
    && (forall j :: 0 <= j < |answers| && UsedUp(free, n, j) && answers[j].Some? ==>
          answers[j].value.0 in now && now[answers[j].value.0].addr == answers[j].value.1)
    && forall d :: d in now && d !in was ==>
          exists j :: 0 <= j < |answers| && UsedUp(free, n, j) && answers[j].Some? && answers[j].value.0 == d
  }

  /** They have all their blocks, and the slabs there were are as they were. */
  ghost predicate OnlyMinted(free: nat, was: map<Desc, SlabState>, now: map<Desc, SlabState>, n: nat, answers: seq<Option<(Desc, nat)>>)
    requires n > 0
  {
    && Grown(free, was, now, n, answers)
    && (forall d :: d in was ==> d in now && now[d] == was[d])
    && (forall d :: d in now && d !in was ==> now[d].free == FirstN(n))
  }

  /** How many blocks are free before block `i`. */
  function Left(free: nat, n: nat, i: nat): nat
    requires n > 0
  {
    if i <= free then free - i else (n - (i - free) % n) % n
  }

  lemma LeftFirst(free: nat, n: nat)
    requires n > 0
    ensures Left(free, n, 0) == free
  {
  }

  lemma LeftNext(free: nat, n: nat, i: nat)
    requires n > 0
    ensures Left(free, n, i) == 0 <==> UsedUp(free, n, i)
    ensures Left(free, n, i + 1) == (if Left(free, n, i) == 0 then n else Left(free, n, i)) - 1
  {
    if i >= free {
      NextRest(i - free, n);
      RestOf((i - free) % n, n);
      RestOf((i + 1 - free) % n, n);
    }
  }

  lemma RestOf(m: nat, n: nat)
    requires m < n
    ensures (n - m) % n == if m == 0 then 0 else n - m
  {
    if m > 0 {
      DivUnique(n - m, n, 0, n - m);
    } else {
      DivUnique(n, n, 1, 0);
    }
  }

  lemma NextRest(m: nat, n: nat)
    requires n > 0
    ensures (m + 1) % n == if m % n == n - 1 then 0 else m % n + 1
  {
    var q, r := m / n, m % n;
    if r == n - 1 {
      DivUnique(m + 1, n, q + 1, 0);
    } else {
      DivUnique(m + 1, n, q, r + 1);
    }
  }

  lemma NextFalls(free: nat, n: nat, answers: seq<Option<(Desc, nat)>>, i: nat)
    requires n > 0 && i < |answers|
    ensures FallsShort(free, n, answers, i) <==> Left(free, n, i) == 0 && answers[i].None?
    ensures UsedUp(free, n, i) <==> Left(free, n, i) == 0
    ensures Left(free, n, i + 1) == (if Left(free, n, i) == 0 then n else Left(free, n, i)) - 1
  {
    LeftNext(free, n, i);
  }

  lemma NeverFalls(free: nat, n: nat, answers: seq<Option<(Desc, nat)>>)
    requires n > 0 && forall j :: 0 <= j < |answers| ==> !FallsShort(free, n, answers, j)
    ensures !exists i :: FallsShort(free, n, answers, i)
  {
  }

  /** Enough free blocks need no slab, and enough slabs never leave a batch short. */
  lemma EnoughServes(free: nat, n: nat, answers: seq<Option<(Desc, nat)>>)
    requires n > 0 && (free >= |answers| || forall j :: 0 <= j < |answers| ==> answers[j].Some?)
    ensures !exists i :: FallsShort(free, n, answers, i)
  {
  }

  lemma NothingFree(slabs: map<Desc, SlabState>, registry: seq<Desc>, nslabs: nat, n: nat, nbytes: nat)
    requires PailInv(slabs, registry, nslabs, n, nbytes)
    ensures registry == [] <==> |FreeBlocks(slabs)| == 0
    ensures Bounded(slabs, n)
  {
    hide Bounded, AllApart;
    if registry != [] {
      var d := registry[0];
      assert d in registry;
      var i :| i in slabs[d].free;
      assert (d, i) in FreeBlocks(slabs);
    } else {
      assert forall b :: b in FreeBlocks(slabs) ==> b.0 in registry;
    }
  }

  /** A block more is out, and a slab more is there if one was needed. */
  lemma CountsDown(was: map<Desc, SlabState>, now: map<Desc, SlabState>, n: nat, out: set<Block>, b: Block, empty: bool)
    requires Bounded(was, n) && Bounded(now, n) && n > 0 && out == Outstanding(was, n)
    requires Outstanding(now, n) == out + {b} && b !in out
    requires |now| == |was| + if empty then 1 else 0
    requires empty <==> |FreeBlocks(was)| == 0
    ensures |FreeBlocks(now)| == (if |FreeBlocks(was)| == 0 then n else |FreeBlocks(was)|) - 1
  {
    hide Bounded, Outstanding, FreeBlocks;
    Accounting(was, n);
    Accounting(now, n);
    assert (|was| + 1) * n == |was| * n + n;
  }

  lemma NewOne(slabs: map<Desc, SlabState>, answers: seq<Option<(Desc, nat)>>, i: nat, nbytes: nat)
    requires i < |answers| && AllFresh(slabs, answers[i..], nbytes)
    ensures answers[i].Some? ==> answers[i].value.0 !in slabs
  {
    HeadFresh(slabs, answers[i..], nbytes);
  }

  lemma OneKeyMore(was: map<Desc, SlabState>, now: map<Desc, SlabState>, answer: Option<(Desc, nat)>, empty: bool)
    requires empty ==> answer.Some? && answer.value.0 !in was
    requires now.Keys == was.Keys + if empty then {answer.value.0} else {}
    ensures |now| == |was| + if empty then 1 else 0
  {
    assert |now.Keys| == |now| && |was.Keys| == |was|;
  }

  lemma GrownNone(free: nat, was: map<Desc, SlabState>, n: nat)
    requires n > 0
    ensures Grown(free, was, was, n, [])
  {
  }

  lemma GrownMore(free: nat, was: map<Desc, SlabState>, now: map<Desc, SlabState>, next: map<Desc, SlabState>, n: nat,
                  answers: seq<Option<(Desc, nat)>>, i: nat)
    requires n > 0 && i < |answers| && Grown(free, was, now, n, answers[..i]) && SamePlaces(now, next, answers[i])
    requires UsedUp(free, n, i) ==> answers[i].Some? && answers[i].value.0 in next && answers[i].value.0 !in now
    requires !UsedUp(free, n, i) ==> next.Keys == now.Keys
    ensures Grown(free, was, next, n, answers[..i + 1])
  {
    var (before, after) := (answers[..i], answers[..i + 1]);
    assert after == before + [answers[i]];
    forall j | 0 <= j < |after| && UsedUp(free, n, j) && after[j].Some?
      ensures after[j].value.0 in next && next[after[j].value.0].addr == after[j].value.1
    {
      if j < i {
        assert before[j] == after[j];
      }
    }
    forall d | d in next && d !in was
      ensures exists j :: 0 <= j < |after| && UsedUp(free, n, j) && after[j].Some? && after[j].value.0 == d
    {
      if d in now {
        var j :| 0 <= j < |before| && UsedUp(free, n, j) && before[j].Some? && before[j].value.0 == d;
        assert after[j] == before[j];
      } else {
        assert after[i].Some? && after[i].value.0 == d;
      }
    }
  }

  /** With the blocks given back, the old slabs are as they were and the new ones are all free. */
  lemma BackAsBefore(free: nat, was: map<Desc, SlabState>, now: map<Desc, SlabState>, back: map<Desc, SlabState>, n: nat,
                     answers: seq<Option<(Desc, nat)>>)
    requires n > 0 && Grown(free, was, now, n, answers) && SameAddresses(now, back)
    requires Bounded(was, n) && Bounded(back, n) && Outstanding(back, n) == Outstanding(was, n)
    ensures OnlyMinted(free, was, back, n, answers)
  {
    forall d | d in was ensures d in back && back[d] == was[d] {
      forall i ensures i in back[d].free <==> i in was[d].free {
        if 0 <= i < n {
          assert i in was[d].free <==> (d, i) !in Outstanding(was, n);
          assert i in back[d].free <==> (d, i) !in Outstanding(back, n);
        }
      }
    }
    forall d | d in back && d !in was ensures back[d].free == FirstN(n) {
      forall i ensures i in back[d].free <==> i in FirstN(n) {
        if 0 <= i < n {
          assert (d, i) !in Outstanding(was, n);
          assert i in back[d].free <==> (d, i) !in Outstanding(back, n);
        }
      }
    }
  }

  // ----- batches -----

  ghost function ToSet(pairs: seq<Block>): set<Block> {
    set m | 0 <= m < |pairs| :: pairs[m]
  }

  /** The addresses are those of distinct blocks of the slabs. */
  ghost predicate Holds(slabs: map<Desc, SlabState>, n: nat, size: nat, blocks: seq<nat>, pairs: seq<Block>) {
    && |blocks| == |pairs| && (forall i, j :: 0 <= i < j < |pairs| ==> pairs[i] != pairs[j])
    && forall m :: 0 <= m < |pairs| ==>
         pairs[m].0 in slabs && pairs[m].1 < n && blocks[m] == AddressOf(slabs[pairs[m].0], pairs[m].1, size)
  }

  /** All the answers to come are fresh, and differ from one another. */
  ghost predicate AllFresh(slabs: map<Desc, SlabState>, answers: seq<Option<(Desc, nat)>>, nbytes: nat) {
    && (forall j :: 0 <= j < |answers| ==> Fresh(slabs, answers[j], nbytes))
    && forall i, j :: 0 <= i < j < |answers| && answers[i].Some? && answers[j].Some? ==>
         && answers[i].value.0 != answers[j].value.0
         && Apart(SlabState(answers[i].value.1, {}), SlabState(answers[j].value.1, {}), nbytes)
  }

  ghost predicate SameAddresses(was: map<Desc, SlabState>, now: map<Desc, SlabState>) {
    now.Keys == was.Keys && forall d :: d in was ==> now[d].addr == was[d].addr
  }

  lemma AddressesFree(was: map<Desc, SlabState>, now: map<Desc, SlabState>, d: Desc, free: set<nat>)
    requires SameAddresses(was, now) && d in now
    ensures SameAddresses(was, WithFree(now, d, free))
  {
  }

  lemma PairAt(slabs: map<Desc, SlabState>, n: nat, size: nat, blocks: seq<nat>, pairs: seq<Block>, j: nat)
    requires Holds(slabs, n, size, blocks, pairs) && j < |pairs|
    ensures pairs[j].0 in slabs && pairs[j].1 < n
    ensures forall now :: SameAddresses(slabs, now) ==> blocks[j] == AddressOf(now[pairs[j].0], pairs[j].1, size)
  {
  }

  lemma StillOut(out: set<Block>, pairs: seq<Block>, j: nat)
    requires j < |pairs| && ToSet(pairs) <= out && (forall i, j :: 0 <= i < j < |pairs| ==> pairs[i] != pairs[j])
    ensures pairs[j] in out - ToSet(pairs[..j])
  {
    assert pairs[j] in ToSet(pairs);
    assert forall m :: 0 <= m < j ==> pairs[..j][m] == pairs[m];
  }

  lemma NextGone(out: set<Block>, pairs: seq<Block>, j: nat)
    requires j < |pairs|
    ensures out - ToSet(pairs[..j]) - {pairs[j]} == out - ToSet(pairs[..j + 1])
  {
    ToSetMore(pairs[..j], pairs[j]);
    assert pairs[..j + 1] == pairs[..j] + [pairs[j]];
  }

  lemma ToSetMore(pairs: seq<Block>, b: Block)
    ensures ToSet(pairs + [b]) == ToSet(pairs) + {b}
  {
    var more := pairs + [b];
    assert forall m :: 0 <= m < |pairs| ==> more[m] == pairs[m];
    assert more[|pairs|] == b;
    forall x ensures x in ToSet(more) <==> x in ToSet(pairs) + {b} {
      if x in ToSet(pairs) {
        var m :| 0 <= m < |pairs| && pairs[m] == x;
        assert more[m] == x;
      }
    }
  }

  lemma BlockInside(x: SlabState, i: nat, n: nat, size: nat)
    requires i < n && size > 0
    ensures x.addr <= AddressOf(x, i, size) < x.addr + SlabBytes(n, size)
    ensures AddressOf(x, i, size) + size <= x.addr + SlabBytes(n, size)
  {
    MulMono(i + 1, n, size);
    MulMono(Slab.Stride(size), size, i);
    assert (i + 1) * size == i * size + size;
  }

  lemma HeadFresh(slabs: map<Desc, SlabState>, answers: seq<Option<(Desc, nat)>>, nbytes: nat)
    requires AllFresh(slabs, answers, nbytes) && answers != []
    ensures Fresh(slabs, answers[0], nbytes)
  {
  }

  lemma TailFresh(was: map<Desc, SlabState>, now: map<Desc, SlabState>, answers: seq<Option<(Desc, nat)>>, nbytes: nat)
    requires AllFresh(was, answers, nbytes) && answers != [] && SamePlaces(was, now, answers[0])
    ensures AllFresh(now, answers[1..], nbytes)
  {
    var rest := answers[1..];
    forall j | 0 <= j < |rest| ensures Fresh(now, rest[j], nbytes) {
      assert rest[j] == answers[j + 1] && Fresh(was, answers[j + 1], nbytes);
    }
  }

  lemma HoldsMore(was: map<Desc, SlabState>, now: map<Desc, SlabState>, n: nat, size: nat, blocks: seq<nat>, pairs: seq<Block>,
                  answer: Option<(Desc, nat)>, block: nat, b: Block)
    requires Holds(was, n, size, blocks, pairs) && SamePlaces(was, now, answer) && b !in ToSet(pairs)
    requires b.0 in now && b.1 < n && block == AddressOf(now[b.0], b.1, size)
    ensures Holds(now, n, size, blocks + [block], pairs + [b]) && ToSet(pairs + [b]) == ToSet(pairs) + {b}
  {
    ToSetMore(pairs, b);
    var (blocks', pairs') := (blocks + [block], pairs + [b]);
    forall m | 0 <= m < |pairs'|
      ensures pairs'[m].0 in now && pairs'[m].1 < n && blocks'[m] == AddressOf(now[pairs'[m].0], pairs'[m].1, size)
    {
    }
    forall i, j | 0 <= i < j < |pairs'| ensures pairs'[i] != pairs'[j] {
      assert pairs'[i] == pairs[i] && pairs[i] in ToSet(pairs);
    }
  }

  /** The slabs there were are where they were; at most the answer's was added. */
  ghost predicate SamePlaces(was: map<Desc, SlabState>, now: map<Desc, SlabState>, answer: Option<(Desc, nat)>) {
    && (forall d :: d in was ==> d in now && now[d].addr == was[d].addr)
    && (forall d :: d in now && d !in was ==> answer.Some? && d == answer.value.0 && now[d].addr == answer.value.1)
  }

  lemma StaysPut(was: map<Desc, SlabState>, answer: Option<(Desc, nat)>)
    ensures SamePlaces(was, was, answer)
  {
  }

  lemma MintPlaces(was: map<Desc, SlabState>, answer: Option<(Desc, nat)>, free: set<nat>)
    requires answer.Some? && answer.value.0 !in was
    ensures SamePlaces(was, was[answer.value.0 := SlabState(answer.value.1, free)], answer)
  {
  }

  lemma FreePlaces(was: map<Desc, SlabState>, now: map<Desc, SlabState>, answer: Option<(Desc, nat)>, d: Desc, free: set<nat>)
    requires SamePlaces(was, now, answer) && d in now
    ensures SamePlaces(was, WithFree(now, d, free), answer)
  {
  }

  method FirstFree(free: set<nat>) returns (i: nat)
    requires free != {}
    ensures i in free && forall j :: j in free ==> i <= j
  {
    i := 0;
    ghost var some :| some in free;
    while i !in free
      invariant i <= some && forall j :: j in free ==> i <= j
      decreases some - i
    {
      i := i + 1;
    }
  }

  lemma Popped(r: seq<Desc>)
    requires Distinct(r) && r != []
    ensures Distinct(r[1..]) && forall d :: d in r[1..] <==> d in r && d != r[0]
  {
    assert forall i :: 0 <= i < |r| - 1 ==> r[1..][i] == r[i + 1];
    assert r == [r[0]] + r[1..];
  }

  lemma TakenOut(was: map<Desc, SlabState>, n: nat, d: Desc, i: nat)
    requires d in was && i in was[d].free && i < n
    ensures (d, i) !in Outstanding(was, n)
    ensures Outstanding(WithFree(was, d, was[d].free - {i}), n) == Outstanding(was, n) + {(d, i)}
  {
  }

  lemma GivenBack(was: map<Desc, SlabState>, n: nat, d: Desc, i: nat)
    requires d in was
    ensures Outstanding(WithFree(was, d, was[d].free + {i}), n) == Outstanding(was, n) - {(d, i)}
  {
  }

  lemma Flushed(was: map<Desc, SlabState>, n: nat, d: Desc, free: set<nat>)
    requires d in was && forall i: nat :: i < n ==> i in free
    ensures Outstanding(was - {d}, n) == Outstanding(WithFree(was, d, free), n)
  {
  }

  /** As many numbers below `n` as there are, are all of them. */
  lemma AllFree(free: set<nat>, n: nat)
    requires |free| == n && forall i :: i in free ==> i < n
    ensures forall i: nat :: i < n ==> i in free
  {
    assert free <= FirstN(n);
    if free != FirstN(n) {
      Smaller(free, FirstN(n));
    }
  }

  // ----- blocks do not overlap, and none is lost -----

  ghost predicate TwoApart(slabs: map<Desc, SlabState>, size: nat, x: Block, y: Block)
    requires x.0 in slabs && y.0 in slabs
  {
    var (p, q) := (AddressOf(slabs[x.0], x.1, size), AddressOf(slabs[y.0], y.1, size));
    p + size <= q || q + size <= p
  }

  /** Two different blocks of a pail share no byte, if their size fits 16 bits. */
  lemma BlocksApart(slabs: map<Desc, SlabState>, n: nat, size: nat, x: Block, y: Block)
    requires AllApart(slabs, SlabBytes(n, size)) && 0 < size < UINT16_LIMIT && x != y
    requires x.0 in slabs && y.0 in slabs && x.1 < n && y.1 < n
    ensures TwoApart(slabs, size, x, y)
  {
    BlockInside(slabs[x.0], x.1, n, size);
    BlockInside(slabs[y.0], y.1, n, size);
    if x.0 == y.0 {
      var (i, j) := if x.1 < y.1 then (x.1, y.1) else (y.1, x.1);
      MulMono(i + 1, j, size);
      assert (i + 1) * size == i * size + size;
    } else {
      assert Apart(slabs[x.0], slabs[y.0], SlabBytes(n, size));
    }
  }

  /** And only then: of a larger size, the first two blocks of any slab overlap. */
  lemma BlocksApartIff(slabs: map<Desc, SlabState>, n: nat, size: nat)
    requires AllApart(slabs, SlabBytes(n, size)) && size > 0 && n >= 2 && slabs != map[]
    ensures (forall x: Block, y: Block :: x.0 in slabs && y.0 in slabs && x.1 < n && y.1 < n && x != y ==> TwoApart(slabs, size, x, y))
      <==> size < UINT16_LIMIT
  {
    if size < UINT16_LIMIT {
      forall x: Block, y: Block | x.0 in slabs && y.0 in slabs && x.1 < n && y.1 < n && x != y ensures TwoApart(slabs, size, x, y) {
        BlocksApart(slabs, n, size, x, y);
      }
    } else {
      var d :| d in slabs;
      assert 0 * Slab.Stride(size) == 0 && 1 * Slab.Stride(size) < size;
      assert !TwoApart(slabs, size, (d, 0), (d, 1));
    }
  }

  ghost function Column(d: Desc, s: set<nat>): set<Block> {
    set i | i in s :: (d, i)
  }

  lemma {:induction false} ColumnSize(d: Desc, s: set<nat>)
    ensures |Column(d, s)| == |s|
    decreases |s|
  {
    if s != {} {
      var i :| i in s;
      ColumnSize(d, s - {i});
      assert Column(d, s) == Column(d, s - {i}) + {(d, i)};
    }
  }

  lemma ColumnShare(d: Desc, free: set<nat>, n: nat)
    requires forall i :: i in free ==> i < n
    ensures |Column(d, FirstN(n) - free)| + |Column(d, free)| == n
  {
    ColumnSize(d, free);
    ColumnSize(d, FirstN(n) - free);
    assert FirstN(n) == free + (FirstN(n) - free);
  }

  lemma NoSlabs(slabs: map<Desc, SlabState>, n: nat)
    requires slabs == map[]
    ensures Outstanding(slabs, n) == {} && FreeBlocks(slabs) == {} && |slabs| == 0
  {
  }

  lemma OneMore(out: nat, free: nat, count: nat, x: nat, y: nat, n: nat)
    requires out + free == count * n && x + y == n
    ensures (out + x) + (free + y) == (count + 1) * n
  {
  }

  /** Outstanding and free blocks together are all blocks of the slabs that are counted. */
  lemma {:induction false} Accounting(slabs: map<Desc, SlabState>, n: nat)
    requires Bounded(slabs, n)
    ensures |Outstanding(slabs, n)| + |FreeBlocks(slabs)| == |slabs| * n
    decreases slabs.Keys
  {
    if slabs == map[] {
      NoSlabs(slabs, n);
    } else {
      var d :| d in slabs;
      var rest, free := slabs - {d}, slabs[d].free;
      assert Bounded(rest, n) && rest.Keys == slabs.Keys - {d};
      Accounting(rest, n);
      OneSlab(slabs, n, d);
      ColumnShare(d, free, n);
      hide Outstanding, FreeBlocks, Column, Bounded, FirstN;
      var (out, left, count) := (|Outstanding(rest, n)|, |FreeBlocks(rest)|, |rest|);
      var (x, y) := (|Column(d, FirstN(n) - free)|, |Column(d, free)|);
      OneMore(out, left, count, x, y, n);
    }
  }

  lemma OutSplit(slabs: map<Desc, SlabState>, n: nat, d: Desc)
    requires d in slabs
    ensures Outstanding(slabs, n) == Outstanding(slabs - {d}, n) + Column(d, FirstN(n) - slabs[d].free)
    ensures Outstanding(slabs - {d}, n) !! Column(d, FirstN(n) - slabs[d].free)
  {
  }

  lemma FreeSplit(slabs: map<Desc, SlabState>, d: Desc)
    requires d in slabs
    ensures FreeBlocks(slabs) == FreeBlocks(slabs - {d}) + Column(d, slabs[d].free)
    ensures FreeBlocks(slabs - {d}) !! Column(d, slabs[d].free)
  {
  }

  lemma OneSlab(slabs: map<Desc, SlabState>, n: nat, d: Desc)
    requires d in slabs && Bounded(slabs, n)
    ensures |Outstanding(slabs, n)| == |Outstanding(slabs - {d}, n)| + |Column(d, FirstN(n) - slabs[d].free)|
    ensures |FreeBlocks(slabs)| == |FreeBlocks(slabs - {d})| + |Column(d, slabs[d].free)| && |slabs| == |slabs - {d}| + 1
  {
    hide Outstanding, FreeBlocks, Column, FirstN, Bounded;
    OutSplit(slabs, n, d);
    FreeSplit(slabs, d);
    assert (slabs - {d}).Keys == slabs.Keys - {d} && |slabs.Keys| == |slabs| && |(slabs - {d}).Keys| == |slabs - {d}|;
  }
}
