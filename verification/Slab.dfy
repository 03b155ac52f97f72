/** A slab: blocks of one size in a span, and a bitmap of the free ones. */
module Slab {
  import opened Bits

  // ----- bitmaps -----

  ghost predicate Words(ws: seq<set<nat>>) {
    forall w, b :: 0 <= w < |ws| && b in ws[w] ==> b < 64
  }

  predicate IsFree(ws: seq<set<nat>>, i: nat) {
    i / 64 < |ws| && i % 64 in ws[i / 64]
  }

  /** The numbers of the one-bits, as a finite set. */
  ghost function FreeOf(ws: seq<set<nat>>): set<nat> {
    set i: nat | i < 64 * |ws| && IsFree(ws, i)
  }

  lemma FreeIff(ws: seq<set<nat>>, i: nat)
    ensures i in FreeOf(ws) <==> IsFree(ws, i)
  {
    if IsFree(ws, i) {
      assert i == 64 * (i / 64) + i % 64;
      MulMono(i / 64 + 1, |ws|, 64);
    }
  }

  function SetBit(ws: seq<set<nat>>, i: nat): seq<set<nat>>
    requires i / 64 < |ws|
  {
    ws[i / 64 := ws[i / 64] + {i % 64}]
  }

  function ClearBit(ws: seq<set<nat>>, i: nat): seq<set<nat>>
    requires i / 64 < |ws|
  {
    ws[i / 64 := ws[i / 64] - {i % 64}]
  }

  ghost predicate Below(ws: seq<set<nat>>, n: nat) {
    forall i :: i in FreeOf(ws) ==> i < n
  }

  lemma SameBlock(i: nat, j: nat)
    requires i / 64 == j / 64 && i % 64 == j % 64
    ensures i == j
  {
    assert i == 64 * (i / 64) + i % 64 && j == 64 * (j / 64) + j % 64;
  }

  lemma SetFree(ws: seq<set<nat>>, i: nat)
    requires Words(ws) && i / 64 < |ws|
    ensures Words(SetBit(ws, i)) && FreeOf(SetBit(ws, i)) == FreeOf(ws) + {i}
  {
    var ws' := SetBit(ws, i);
    forall j: nat ensures j in FreeOf(ws') <==> j in FreeOf(ws) + {i} {
      FreeIff(ws, j);
      FreeIff(ws', j);
      if j != i && j / 64 == i / 64 && j % 64 == i % 64 {
        SameBlock(i, j);
      }
    }
  }

  lemma ClearFree(ws: seq<set<nat>>, i: nat)
    requires Words(ws) && i / 64 < |ws|
    ensures Words(ClearBit(ws, i)) && FreeOf(ClearBit(ws, i)) == FreeOf(ws) - {i}
  {
    var ws' := ClearBit(ws, i);
    forall j: nat ensures j in FreeOf(ws') <==> j in FreeOf(ws) - {i} {
      FreeIff(ws, j);
      FreeIff(ws', j);
      if j != i && j / 64 == i / 64 && j % 64 == i % 64 {
        SameBlock(i, j);
      }
    }
  }

  /** Putting a block back right after taking it restores the bitmap, word for word. */
  lemma SetUndoesClear(ws: seq<set<nat>>, i: nat)
    requires IsFree(ws, i)
    ensures SetBit(ClearBit(ws, i), i) == ws
  {
    assert ws[i / 64] - {i % 64} + {i % 64} == ws[i / 64];
  }

  /** The words slab_init writes: full ones, the last one up to the remainder, and zeros. */
  function WordFor(n: nat, w: nat): set<nat>
    requires n > 0
  {
    var last := (n + 63) / 64 - 1;
    if w < last then FirstN(64) else if w > last then {} else if n % 64 == 0 then FirstN(64) else FirstN(n % 64)
  }

  lemma LastWord(n: nat, capacity: nat)
    requires 0 < n <= 64 * capacity
    ensures 0 <= (n + 63) / 64 - 1 < capacity
  {
  }

  method FillWords(words: array<set<nat>>, last: nat, tail: set<nat>)
    requires last < words.Length && forall w :: 0 <= w < words.Length ==> words[w] == {}
    modifies words
    ensures forall w :: 0 <= w < words.Length ==> words[w] == if w < last then FirstN(64) else if w == last then tail else {}
  {
    hide FirstN;
    var i := 0;
    while i < last
      invariant 0 <= i <= last
      invariant forall w :: 0 <= w < words.Length ==> words[w] == if w < i then FirstN(64) else {}
    {
      words[i] := FirstN(64);
      i := i + 1;
    }
    words[last] := tail;
  }

  method Fill(words: array<set<nat>>, n: nat)
    requires 0 < n <= 64 * words.Length && forall w :: 0 <= w < words.Length ==> words[w] == {}
    modifies words
    ensures Words(words[..]) && FreeOf(words[..]) == FirstN(n)
  {
    hide FreeOf, FirstN, Words;
    LastWord(n, words.Length);
    var nwords := (n + 63) / 64;
    var remainder := n % 64;
    FillWords(words, nwords - 1, if remainder == 0 then FirstN(64) else FirstN(remainder));
    Filled(words[..], n);
  }

  // ----- the slab -----

  class Slab {
    const addr: nat
    const words: array<set<nat>>
    const nblocks: nat
    const nbytesBlock: nat
    var nblocksFree: nat

    ghost function Free(): set<nat>
      reads words
    {
      FreeOf(words[..])
    }

    /** The counter is the number of one-bits, as far as 16 bits can tell; the stride of the blocks
        is whatever 16 bits hold. */
    ghost predicate Valid()
      reads this, words
    {
      && Words(words[..]) && Below(words[..], nblocks) && nblocks <= 64 * words.Length
      && nblocksFree == |Free()| % UINT16_LIMIT && nbytesBlock < UINT16_LIMIT
    }

    /** slab_init: all words of the blocks are filled, the last one up to the remainder. */
    constructor (start: nat, n: nat, blockSize: nat, capacity: nat)
      requires 0 < n <= 64 * capacity
      ensures Valid() && fresh(words) && words.Length == capacity && addr == start && nblocks == n
      ensures Free() == FirstN(n) && nblocksFree == n % UINT16_LIMIT && nbytesBlock == Stride(blockSize)
    {
      addr, nblocks, nbytesBlock, nblocksFree := start, n, Stride(blockSize), n % UINT16_LIMIT;
      words := new set<nat>[capacity](_ => {});
      new;
      hide FreeOf, FirstN, Words;
      Fill(words, n);
    }

    /** The scan of slab_get_block: it stops inside the bitmap. */
    method FirstBit() returns (w: nat, b: nat)
      requires Words(words[..]) && Free() != {}
      ensures w < words.Length && b in words[w] && b < 64
      ensures forall j :: j in Free() ==> w * 64 + b <= j
    {
      ghost var some :| some in Free();
      FreeIff(words[..], some);
      hide FreeOf;
      w := 0;
      while words[w] == {}
        invariant w <= some / 64 < words.Length
        invariant forall v :: 0 <= v < w ==> words[v] == {}
        decreases some / 64 - w
      {
        w := w + 1;
      }
      b := 0;
      ghost var any :| any in words[w];
      while b !in words[w]
        invariant b <= any && forall x :: x in words[w] ==> b <= x
        decreases any - b
      {
        b := b + 1;
      }
      LeastFree(words[..], w, b);
    }

    /** slab_get_block: the first free block in the bitmap's order. */
    method GetBlock() returns (block: nat, ok: bool, ghost i: nat)
      requires Valid()
      modifies this`nblocksFree, words
      ensures Valid() && ok == (|old(Free())| % UINT16_LIMIT != 0)
      ensures ok ==> i in old(Free()) && (forall j :: j in old(Free()) ==> i <= j)
      ensures ok ==> i / 64 < words.Length && words[..] == ClearBit(old(words[..]), i)
      ensures ok ==> Free() == old(Free()) - {i} && block == addr + i * nbytesBlock
      ensures !ok ==> words[..] == old(words[..]) && nblocksFree == old(nblocksFree)
    {
      hide FreeOf, Words;
      if nblocksFree == 0 {
        return 0, false, 0;
      }
      assert Free() != {};
      var w, b := FirstBit();
      var k := w * 64 + b;
      i := k;
      DivUnique(k, 64, w, b);
      FreeIff(words[..], k);
      ClearFree(words[..], k);
      TakeOne(|Free()|);
      words[w] := words[w] - {b};
      nblocksFree := nblocksFree - 1;
      return addr + k * nbytesBlock, true, k;
    }

    /** slab_put_block: the block's number is its offset divided by the stride. */
    method PutBlock(block: nat, ghost i: nat)
      requires Valid() && nbytesBlock > 0 && i < nblocks && i !in Free() && block == addr + i * nbytesBlock
      modifies this`nblocksFree, words
      ensures Valid() && Free() == old(Free()) + {i}
      ensures i / 64 < words.Length && words[..] == SetBit(old(words[..]), i)
    {
      hide FreeOf, Words;
      var offset := block - addr;
      var k := offset / nbytesBlock;
      MulDivRight(i, nbytesBlock);
      assert k == i;
      SetFree(words[..], i);
      AddOne(|Free()|);
      words[k / 64] := words[k / 64] + {k % 64};
      nblocksFree := (nblocksFree + 1) % UINT16_LIMIT;
    }
  }

  /** Gets until one fails: a slab hands out as many blocks as its counter says, and no more. */
  method Drain(slab: Slab) returns (count: nat)
    requires slab.Valid()
    modifies slab`nblocksFree, slab.words
    ensures slab.Valid() && count == |old(slab.Free())| % UINT16_LIMIT && |slab.Free()| == |old(slab.Free())| - count
  {
    hide FreeOf, Words;
    count := 0;
    ghost var all, left := |slab.Free()|, |slab.Free()|;
    var ok := true;
    while ok
      invariant slab.Valid() && left == |slab.Free()| == all - count
      invariant count + left % UINT16_LIMIT == all % UINT16_LIMIT
      invariant !ok ==> left % UINT16_LIMIT == 0
      decreases left, ok
    {
      var block, got, i := slab.GetBlock();
      ok := got;
      if ok {
        TakeOne(left);
        count, left := count + 1, left - 1;
      }
    }
  }

  lemma FirstCount(n: nat)
    ensures |FirstN(n)| == n && (n % UINT16_LIMIT == n <==> n < UINT16_LIMIT)
  {
  }

  /** A new slab hands out all its blocks exactly if their number fits the counter; otherwise it
      withholds a multiple of 65536, and with such a number of blocks it hands out none. */
  method NewSlabServes(start: nat, n: nat, size: nat, capacity: nat) returns (count: nat)
    requires 0 < n <= 64 * capacity
    ensures count == n % UINT16_LIMIT && (count == n <==> n < UINT16_LIMIT)
  {
    hide FreeOf, FirstN, Words, Stride;
    var slab := new Slab(start, n, size, capacity);
    FirstCount(n);
    count := Drain(slab);
  }

  /** The first get from a new slab, and the test on its counter by which the slab leaves its registry. */
  method FirstGet(start: nat, n: nat, size: nat, capacity: nat) returns (ok: bool, leaves: bool, ghost left: nat)
    requires 0 < n <= 64 * capacity
    ensures ok <==> n % UINT16_LIMIT != 0
    ensures left == if ok then n - 1 else n
    ensures leaves <==> n % UINT16_LIMIT <= 1
  {
    hide FreeOf, FirstN, Words, Stride;
    var slab := new Slab(start, n, size, capacity);
    FirstCount(n);
    var block, got, i := slab.GetBlock();
    ok, leaves, left := got, slab.nblocksFree == 0, |slab.Free()|;
    if n % UINT16_LIMIT != 0 {
      TakeOne(n);
    }
  }

  lemma TakeOne(n: nat)
    requires n % UINT16_LIMIT != 0
    ensures n > 0 && (n - 1) % UINT16_LIMIT == n % UINT16_LIMIT - 1
  {
  }

  lemma AddOne(n: nat)
    ensures (n + 1) % UINT16_LIMIT == (n % UINT16_LIMIT + 1) % UINT16_LIMIT
  {
  }

  /** Block `i` is below `n` when its word is filled, or is the last one and the bit is in it. */
  lemma BelowCount(i: nat, n: nat)
    requires n > 0
    ensures var last := (n + 63) / 64 - 1;
      i < n <==> i / 64 < last || (i / 64 == last && i % 64 < if n % 64 == 0 then 64 else n % 64)
  {
    var (w, b, q, r) := (i / 64, i % 64, n / 64, n % 64);
    assert i == 64 * w + b && n == 64 * q + r;
    assert (n + 63) / 64 == if r == 0 then q else q + 1;
  }

  lemma Filled(ws: seq<set<nat>>, n: nat)
    requires 0 < n <= 64 * |ws| && forall w :: 0 <= w < |ws| ==> ws[w] == WordFor(n, w)
    ensures Words(ws) && FreeOf(ws) == FirstN(n)
  {
    hide FirstN, FreeOf;
    forall i: nat ensures i in FreeOf(ws) <==> i in FirstN(n) {
      FreeIff(ws, i);
      BelowCount(i, n);
      FilledAt(ws, n, i);
    }
  }

  lemma FilledAt(ws: seq<set<nat>>, n: nat, i: nat)
    requires 0 < n <= 64 * |ws| && forall w :: 0 <= w < |ws| ==> ws[w] == WordFor(n, w)
    ensures IsFree(ws, i) <==> i < n
  {
    BelowCount(i, n);
    hide FirstN;
    if i < n {
      assert i / 64 < |ws|;
    }
  }

  lemma LeastFree(ws: seq<set<nat>>, w: nat, b: nat)
    requires Words(ws) && w < |ws| && b in ws[w] && (forall x :: x in ws[w] ==> b <= x)
    requires forall v :: 0 <= v < w ==> ws[v] == {}
    ensures forall j :: j in FreeOf(ws) ==> w * 64 + b <= j
  {
    forall j | j in FreeOf(ws) ensures w * 64 + b <= j {
      FreeIff(ws, j);
      assert j == 64 * (j / 64) + j % 64;
    }
  }

  // ----- what the 16-bit fields do -----

  /** The distance of two blocks planned `size` bytes apart: what the metadata keeps of it. */
  function Stride(size: nat): nat {
    size % UINT16_LIMIT
  }

  ghost predicate Disjoint(size: nat, i: nat, j: nat) {
    i * Stride(size) + size <= j * Stride(size) || j * Stride(size) + size <= i * Stride(size)
  }

  /** Blocks do not overlap exactly when their size fits the 16-bit field. */
  lemma BlocksDisjointIff(size: nat, n: nat)
    requires size > 0 && n >= 2
    ensures (forall i, j :: 0 <= i < j < n ==> Disjoint(size, i, j)) <==> size < UINT16_LIMIT
  {
    if size < UINT16_LIMIT {
      forall i, j | 0 <= i < j < n ensures Disjoint(size, i, j) {
        MulMono(i + 1, j, size);
        assert (i + 1) * size == i * size + size;
      }
    } else {
      assert 1 * Stride(size) < size;
      assert !Disjoint(size, 0, 1);
    }
  }

  /** The addresses that gets hand out tell the blocks of a slab apart exactly when the stride is
      not zero. Where it is zero, every get of the slab gives its first address, and the first put
      divides by zero. */
  lemma AddressesDifferIff(addr: nat, size: nat, n: nat)
    requires n >= 2
    ensures (forall i, j :: 0 <= i < j < n ==> BlockAt(addr, size, i) != BlockAt(addr, size, j)) <==> Stride(size) != 0
    ensures Stride(size) != 0 ==> forall i: nat :: (BlockAt(addr, size, i) - addr) / Stride(size) == i
    ensures Stride(size) == 0 ==> forall i: nat :: BlockAt(addr, size, i) == addr
  {
    if Stride(size) != 0 {
      forall i: nat ensures (BlockAt(addr, size, i) - addr) / Stride(size) == i {
        MulDivRight(i, Stride(size));
      }
    } else {
      assert BlockAt(addr, size, 0) == BlockAt(addr, size, 1);
    }
  }

  function BlockAt(addr: nat, size: nat, i: nat): nat {
    addr + i * Stride(size)
  }

  /** So all blocks of the class of 65536 bytes are handed out at one address. */
  lemma OneAddressAt65536(addr: nat, i: nat, j: nat)
    ensures BlockAt(addr, 65536, i) == BlockAt(addr, 65536, j) == addr
  {
    assert i * Stride(65536) == 0 && j * Stride(65536) == 0;
  }

  /** So two blocks of the shipped profile for 2 MiB pages, of 81920 bytes, lie 16384 apart. */
  lemma OverlapAt81920()
    ensures Stride(81920) == 16384 && !Disjoint(81920, 0, 1)
  {
  }

  /** The counter is exact as long as the number of blocks fits 16 bits. */
  lemma CounterExact(ws: seq<set<nat>>, n: nat, count: nat)
    requires (forall i :: i in FreeOf(ws) ==> i < n) && n < UINT16_LIMIT && count == |FreeOf(ws)| % UINT16_LIMIT
    ensures count == |FreeOf(ws)|
  {
    Subset(FreeOf(ws), FirstN(n));
  }

  /** Blocks of a size below 65536 stay inside `n * size` bytes. */
  lemma BlockInside(addr: nat, size: nat, n: nat, i: nat)
    requires i < n && size < UINT16_LIMIT
    ensures BlockAt(addr, size, i) + size <= addr + n * size
  {
    MulMono(i + 1, n, size);
    assert (i + 1) * size == i * size + size;
  }
}
