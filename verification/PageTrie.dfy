/** The page trie: a three-level radix tree from pages to span descriptors. */
module PageTrie {

  const MIN_PAGE_SHIFT_SIZE: nat := 4096   // 1 << MIN_PAGE_SHIFT
  const NCHILD_NODES: nat := 4096
  const LEVEL2: nat := 0x100_0000          // 1 << (2 * LEVEL_SHIFT)
  const SLOTS: nat := 0x10_0000_0000       // 1 << MAX_NBITS_PAGE_ADRESS
  const ADDR_LIMIT: nat := 0x1_0000_0000_0000_0000

  /** A stored pointer; 0 is null. */
  type Ptr = nat

  datatype Status = Success | InvalidArgs | OutOfMemory

  function Idx1(page: nat): (i: nat) ensures i < NCHILD_NODES { page / LEVEL2 % NCHILD_NODES }

  function Idx2(page: nat): (i: nat) ensures i < NCHILD_NODES { page / NCHILD_NODES % NCHILD_NODES }

  function Idx3(page: nat): (i: nat) ensures i < NCHILD_NODES { page % NCHILD_NODES }

  /** The trie sees 36 bits of a page number. */
  function Slot(page: nat): (s: nat) ensures s < SLOTS { page % SLOTS }

  /** Two pages share their indices exactly when they share their low 36 bits. */
  lemma SameIndices(p: nat, q: nat)
    ensures Slot(p) == Slot(q) <==> Idx1(p) == Idx1(q) && Idx2(p) == Idx2(q) && Idx3(p) == Idx3(q)
  {
    Indices(p);
    Indices(q);
  }

  lemma Indices(p: nat)
    ensures Slot(p) == Idx1(p) * LEVEL2 + Idx2(p) * NCHILD_NODES + Idx3(p)
  {
    var a := p / NCHILD_NODES;
    assert a / NCHILD_NODES == p / LEVEL2;
  }

  // ----- the abstract map -----

  /** The map after `v` was stored for the pages from `start` up to `end`. */
  ghost function Fill(m: map<nat, Ptr>, start: nat, end: nat, v: Ptr): map<nat, Ptr>
    decreases end
  {
    if end <= start then m else Fill(m, start, end - 1, v)[Slot(end - 1) := v]
  }

  function Get(m: map<nat, Ptr>, slot: nat): Ptr {
    if slot in m then m[slot] else 0
  }

  ghost predicate InRange(slot: nat, start: nat, end: nat) {
    exists p :: start <= p < end && Slot(p) == slot
  }

  /** A fill changes exactly the slots of its pages. */
  lemma {:induction false} FillAt(m: map<nat, Ptr>, start: nat, end: nat, v: Ptr, slot: nat)
    ensures Get(Fill(m, start, end, v), slot) == if InRange(slot, start, end) then v else Get(m, slot)
    decreases end
  {
    if start < end {
      FillAt(m, start, end - 1, v, slot);
      if InRange(slot, start, end) && slot != Slot(end - 1) {
        var p :| start <= p < end && Slot(p) == slot;
        assert InRange(slot, start, end - 1);
      }
      if InRange(slot, start, end - 1) {
        var p :| start <= p < end - 1 && Slot(p) == slot;
        assert InRange(slot, start, end);
      }
    }
  }

  class Trie {
    const root: array<array?<array?<Ptr>>>
    ghost var Repr: set<object>
    ghost var entries: map<nat, Ptr>

    /** The nodes form a tree: each has its full width, and no two places share a node. */
    ghost predicate Shape()
      reads this, Repr
    {
      && root in Repr && root.Length == NCHILD_NODES
      && (forall i :: 0 <= i < NCHILD_NODES && root[i] != null ==>
        root[i] in Repr && root[i].Length == NCHILD_NODES)
      && (forall i, k :: 0 <= i < k < NCHILD_NODES && root[i] != null ==> root[i] != root[k])
      && (forall i, j :: 0 <= i < NCHILD_NODES && root[i] != null && 0 <= j < NCHILD_NODES && root[i][j] != null ==>
        root[i][j] in Repr && root[i][j].Length == NCHILD_NODES)
      && (forall i, j, k, l |
            0 <= i < NCHILD_NODES && 0 <= j < NCHILD_NODES && 0 <= k < NCHILD_NODES && 0 <= l < NCHILD_NODES ::
            root[i] != null && root[k] != null && root[i][j] != null && root[i][j] == root[k][l] ==> i == k && j == l)
    }

    ghost predicate HasPath(page: nat)
      requires Shape()
      reads this, Repr
    {
      root[Idx1(page)] != null && root[Idx1(page)][Idx2(page)] != null
    }

    /** What a walk from the root finds for a page. */
    ghost function At(page: nat): Ptr
      requires Shape()
      reads this, Repr
    {
      if HasPath(page) then root[Idx1(page)][Idx2(page)][Idx3(page)] else 0
    }

    ghost predicate Valid()
      reads this, Repr
    {
      && this in Repr && Shape()
      && forall p :: At(p) == Get(entries, Slot(p))
    }

    method Lookup(key: nat) returns (data: Ptr)
      requires Valid()
      ensures data == Get(entries, Slot(key / MIN_PAGE_SHIFT_SIZE))
    {
      var pageAddr := key / MIN_PAGE_SHIFT_SIZE;
      assert At(pageAddr) == Get(entries, Slot(pageAddr));
      var node1 := root[Idx1(pageAddr)];
      if node1 == null {
        return 0;
      }
      var node2 := node1[Idx2(pageAddr)];
      if node2 == null {
        return 0;
      }
      return node2[Idx3(pageAddr)];
    }

    /** Publishes a zeroed middle node where there was none. */
    method AddMid(i: nat)
      requires Valid() && i < NCHILD_NODES && root[i] == null
      modifies this, root
      ensures Valid() && fresh(Repr - old(Repr)) && entries == old(entries)
      ensures root[i] != null && |Repr| == |old(Repr)| + 1
      ensures forall j :: 0 <= j < NCHILD_NODES ==> root[i][j] == null
      ensures forall p :: old(HasPath(p)) ==> HasPath(p)
    {
      hide Slot, Idx3;
      var node := new array?<Ptr>[NCHILD_NODES](_ => null);
      root[i] := node;
      Repr := Repr + {node};
    }

    /** Publishes a zeroed leaf where there was none. */
    method AddLeaf(i: nat, j: nat)
      requires Valid() && i < NCHILD_NODES && j < NCHILD_NODES && root[i] != null && root[i][j] == null
      modifies this, root[i]
      ensures Valid() && fresh(Repr - old(Repr)) && entries == old(entries)
      ensures root[i] != null && root[i][j] != null && |Repr| == |old(Repr)| + 1
      ensures forall p :: old(HasPath(p)) ==> HasPath(p)
    {
      hide Slot, Missing;
      var node := new Ptr[NCHILD_NODES](_ => 0);
      root[i][j] := node;
      Repr := Repr + {node};
    }

    lemma LeafInside(page: nat)
      requires Valid() && HasPath(page)
      ensures root[Idx1(page)][Idx2(page)] in Repr && this in Repr
    {
    }

    method Store(page: nat, data: Ptr)
      requires Valid() && HasPath(page)
      modifies this, root[Idx1(page)][Idx2(page)]
      ensures Valid() && Repr == old(Repr)
      ensures entries == old(entries)[Slot(page) := data]
      ensures forall p :: HasPath(p) <==> old(HasPath(p))
    {
      root[Idx1(page)][Idx2(page)][Idx3(page)] := data;
      entries := entries[Slot(page) := data];
      forall p ensures At(p) == Get(entries, Slot(p)) {
        SameIndices(p, page);
      }
    }

    constructor ()
      ensures Valid() && fresh(Repr) && entries == map[]
    {
      var node := new array?<array?<Ptr>>[NCHILD_NODES](_ => null);
      root := node;
      Repr := {this, node};
      entries := map[];
    }

    /** How many nodes the way to a page lacks. */
    ghost function Missing(page: nat): nat
      requires Shape()
      reads this, Repr
    {
      if root[Idx1(page)] == null then 2 else if root[Idx1(page)][Idx2(page)] == null then 1 else 0
    }

    /** Makes the two nodes on the way to a page exist, from a pool that gives `budget` nodes before it
        fails. It takes no node that is not missing, and fails only when the pool has given them all. */
    method MakePath(page: nat, budget: nat) returns (ok: bool, left: nat)
      requires Valid()
      modifies Repr
      ensures Valid() && fresh(Repr - old(Repr)) && entries == old(entries)
      ensures forall p :: old(HasPath(p)) ==> HasPath(p)
      ensures ok <==> HasPath(page)
      ensures ok <==> budget >= old(Missing(page))
      ensures left == (if ok then budget - old(Missing(page)) else 0) && |Repr| == |old(Repr)| + (budget - left)
    {
      var i, j := Idx1(page), Idx2(page);
      left := budget;
      if root[i] == null {
        if left == 0 {
          return false, left;
        }
        AddMid(i);
        left := left - 1;
      }
      if root[i][j] == null {
        if left == 0 {
          return false, left;
        }
        AddLeaf(i, j);
        left := left - 1;
      }
      ok := true;
    }

    /** Undoes a partial insert by storing null; pages without nodes are skipped. */
    method Rollback(start: nat, end: nat)
      requires Valid() && start <= end
      modifies Repr
      ensures Valid() && Repr == old(Repr)
      ensures entries == Fill(old(entries), start, end, 0)
      ensures forall p :: HasPath(p) <==> old(HasPath(p))
    {
      var pageAddr := start;
      while pageAddr < end
        invariant start <= pageAddr <= end && Valid() && Repr == old(Repr)
        invariant entries == Fill(old(entries), start, pageAddr, 0)
        invariant forall p :: HasPath(p) <==> old(HasPath(p))
      {
        var node1 := root[Idx1(pageAddr)];
        if node1 != null && node1[Idx2(pageAddr)] != null {
          Store(pageAddr, 0);
        } else {
          NoteNull(pageAddr);
        }
        pageAddr := pageAddr + 1;
      }
    }

    /** A page without nodes has no entry already. */
    ghost method NoteNull(page: nat)
      requires Valid() && !HasPath(page)
      modifies this`entries
      ensures Valid() && entries == old(entries)[Slot(page) := 0]
      ensures forall p :: old(HasPath(p)) ==> HasPath(p)
    {
      entries := entries[Slot(page) := 0];
      forall p ensures At(p) == Get(entries, Slot(p)) {
        SameIndices(p, page);
      }
    }

    /** Stores `data` for every page of a range of bytes. It is out of memory only when the pool has given
        all its nodes and the page it stops at still lacks one. */
    method Insert(key: nat, data: Ptr, nbytes: nat, budget: nat) returns (status: Status, ghost stop: nat, left: nat)
      requires Valid() && key < ADDR_LIMIT && nbytes < ADDR_LIMIT
      modifies Repr
      ensures Valid() && fresh(Repr - old(Repr))
      ensures forall p :: old(HasPath(p)) ==> HasPath(p)
      ensures status == InvalidArgs <==> nbytes > 0 && key + nbytes > ADDR_LIMIT
      ensures nbytes == 0 || status == InvalidArgs ==> entries == old(entries)
      ensures nbytes == 0 ==> status == Success
      ensures nbytes > 0 && status == Success ==>
        && entries == Fill(old(entries), FirstPage(key), EndPage(key, nbytes), data)
        && forall p :: FirstPage(key) <= p < EndPage(key, nbytes) ==> HasPath(p)
      ensures status == OutOfMemory ==>
        && FirstPage(key) <= stop < EndPage(key, nbytes) && !old(HasPath(stop))
        && entries == Fill(Fill(old(entries), FirstPage(key), stop, data), FirstPage(key), stop, 0)
        && forall p :: FirstPage(key) <= p < stop ==> HasPath(p)
      ensures (forall p :: FirstPage(key) <= p < EndPage(key, nbytes) ==> old(HasPath(p))) ==> status != OutOfMemory
      ensures left <= budget && |Repr| == |old(Repr)| + (budget - left)
      ensures status == OutOfMemory ==> left == 0 && !HasPath(stop)
    {
      hide At, Idx2, Slot, HasPath, Missing;
      stop, left := 0, budget;
      if nbytes == 0 {
        return Success, 0, left;
      }
      if nbytes - 1 > ADDR_LIMIT - 1 - key {
        return InvalidArgs, 0, left;
      }
      var startPage := key / MIN_PAGE_SHIFT_SIZE;
      var lastPage := (key + nbytes - 1) / MIN_PAGE_SHIFT_SIZE;
      var pageAddr := startPage;
      while pageAddr <= lastPage
        invariant startPage <= pageAddr <= lastPage + 1
        invariant Valid() && fresh(Repr - old(Repr))
        invariant entries == Fill(old(entries), startPage, pageAddr, data)
        invariant forall p :: old(HasPath(p)) ==> HasPath(p)
        invariant forall p :: startPage <= p < pageAddr ==> HasPath(p)
        invariant left <= budget && |Repr| == |old(Repr)| + (budget - left)
      {
        var ok;
        ok, left := MakePath(pageAddr, left);
        if !ok {
          Rollback(startPage, pageAddr);
          return OutOfMemory, pageAddr, left;
        }
        LeafInside(pageAddr);
        Store(pageAddr, data);
        pageAddr := pageAddr + 1;
      }
      status := Success;
    }
  }

  function FirstPage(key: nat): nat { key / MIN_PAGE_SHIFT_SIZE }

  /** One past the last page of a nonempty range. */
  function EndPage(key: nat, nbytes: nat): nat {
    if nbytes == 0 then FirstPage(key) else (key + nbytes - 1) / MIN_PAGE_SHIFT_SIZE + 1
  }

  // ----- what the callers rely on -----

  ghost predicate SameMap(m: map<nat, Ptr>, m': map<nat, Ptr>) {
    forall slot :: Get(m, slot) == Get(m', slot)
  }

  /** Rolling back `stop - start` stores leaves the map as it was exactly when those pages had no
      entry before: null is stored, not the old value. */
  lemma RollbackRestoresIff(m: map<nat, Ptr>, start: nat, stop: nat, data: Ptr)
    ensures SameMap(Fill(Fill(m, start, stop, data), start, stop, 0), m) <==>
      forall p :: start <= p < stop ==> Get(m, Slot(p)) == 0
  {
    var m' := Fill(Fill(m, start, stop, data), start, stop, 0);
    forall slot ensures Get(m', slot) == if InRange(slot, start, stop) then 0 else Get(m, slot) {
      FillAt(Fill(m, start, stop, data), start, stop, 0, slot);
      FillAt(m, start, stop, data, slot);
    }
    forall p | start <= p < stop ensures InRange(Slot(p), start, stop) {
    }
    if SameMap(m', m) {
      forall p | start <= p < stop ensures Get(m, Slot(p)) == 0 {
        assert InRange(Slot(p), start, stop) && Get(m', Slot(p)) == Get(m, Slot(p));
      }
    }
  }
}
