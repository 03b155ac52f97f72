/** The intrusive pairing heap behind every bin bucket.

    A descriptor carries three links: `child` (its first child), `next` (its right
    sibling) and `prev`, which is the parent for a first child and the left sibling
    otherwise. Read as a binary tree with `child` on the left and `next` on the right,
    `prev` is simply the binary parent, and that is how the ghost `Tree` describes it.

    The methods write the links in place. The lemmas speak about snapshots of the links,
    so that each says what a few writes do to a tree. */
module PairingHeap {

  class Span {
    var age: nat
    var addr: nat
    var next: Span?
    var prev: Span?
    var child: Span?

    constructor (age: nat, addr: nat)
      ensures this.age == age && this.addr == addr
      ensures next == null && prev == null && child == null
    {
      this.age, this.addr := age, addr;
      next, prev, child := null, null, null;
    }
  }

  // ----- snapshots -----

  datatype Cell = Cell(age: nat, addr: nat, next: Span?, prev: Span?, child: Span?)

  type Links = map<Span, Cell>

  ghost function Snap(all: set<Span>): (m: Links)
    reads all
    ensures m.Keys == all
  {
    map s | s in all :: Cell(s.age, s.addr, s.next, s.prev, s.child)
  }

  /** The order of the buckets: by age, then by address. */
  predicate Before(a: Cell, b: Cell) {
    if a.age < b.age then true
    else if a.age > b.age then false
    else a.addr < b.addr
  }

  // ----- trees -----

  /** A list of siblings: the first one, its children, and its right siblings. */
  datatype Tree = Nil | Node(span: Span, kids: Tree, sibs: Tree)

  function Top(t: Tree): Span? {
    if t.Nil? then null else t.span
  }

  ghost function Spans(t: Tree): set<Span> {
    if t.Nil? then {} else {t.span} + Spans(t.kids) + Spans(t.sibs)
  }

  /** No descriptor occurs twice, so the links form no cycle. */
  ghost predicate Distinct(t: Tree) {
    t.Node? ==>
      && t.span !in Spans(t.kids) && t.span !in Spans(t.sibs)
      && Spans(t.kids) !! Spans(t.sibs)
      && Distinct(t.kids) && Distinct(t.sibs)
  }

  /** The links spell out `t`, whose first node hangs from `up`. */
  ghost predicate Linked(m: Links, t: Tree, up: Span?) {
    t.Node? ==>
      && t.span in m && m[t.span].prev == up
      && m[t.span].child == Top(t.kids) && m[t.span].next == Top(t.sibs)
      && Linked(m, t.kids, t.span) && Linked(m, t.sibs, t.span)
  }

  /** No descendant precedes its ancestor. */
  ghost predicate Ordered(m: Links, t: Tree)
    requires Spans(t) <= m.Keys
  {
    t.Node? ==>
      && (forall s :: s in Spans(t.kids) ==> !Before(m[s], m[t.span]))
      && Ordered(m, t.kids) && Ordered(m, t.sibs)
  }

  /** A list of siblings whose first `prev` does not matter. */
  ghost predicate Siblings(m: Links, t: Tree) {
    && Spans(t) <= m.Keys && Distinct(t) && Ordered(m, t)
    && (t.Node? ==>
      && m[t.span].child == Top(t.kids) && m[t.span].next == Top(t.sibs)
      && Linked(m, t.kids, t.span) && Linked(m, t.sibs, t.span))
  }

  /** A single tree; the `prev` and `next` of its root do not matter. */
  ghost predicate Rooted(m: Links, t: Tree) {
    && t.Node? && t.sibs == Nil
    && Spans(t) <= m.Keys && Distinct(t) && Ordered(m, t)
    && m[t.span].child == Top(t.kids) && Linked(m, t.kids, t.span)
  }

  lemma {:induction false} LinkedFrame(m: Links, m': Links, t: Tree, up: Span?)
    requires Linked(m, t, up)
    requires forall s :: s in Spans(t) ==> s in m && s in m' && m'[s] == m[s]
    ensures Linked(m', t, up)
  {
    if t.Node? {
      LinkedFrame(m, m', t.kids, t.span);
      LinkedFrame(m, m', t.sibs, t.span);
    }
  }

  /** Order depends on ages and addresses alone, and no link write touches those. */
  lemma {:induction false} OrderedFrame(m: Links, m': Links, t: Tree)
    requires Spans(t) <= m.Keys && Spans(t) <= m'.Keys && Ordered(m, t)
    requires forall s :: s in Spans(t) ==> m'[s].age == m[s].age && m'[s].addr == m[s].addr
    ensures Ordered(m', t)
  {
    if t.Node? {
      OrderedFrame(m, m', t.kids);
      OrderedFrame(m, m', t.sibs);
    }
  }

  /** Hanging a sibling list elsewhere takes one write, to its first `prev`. */
  lemma Rehung(m: Links, m': Links, t: Tree, up: Span?, now: Span?)
    requires t.Node? && Distinct(t) && Linked(m, t, up)
    requires forall s :: s in Spans(t) ==> s in m && s in m'
    requires forall s :: s in Spans(t) && s != t.span ==> m'[s] == m[s]
    requires m'[t.span] == m[t.span].(prev := now)
    ensures Linked(m', t, now)
  {
    LinkedFrame(m, m', t.kids, t.span);
    LinkedFrame(m, m', t.sibs, t.span);
  }

  /** Any snapshot that covers a tree and agrees on it serves as well. */
  lemma Regrown(m: Links, m': Links, t: Tree)
    requires Rooted(m, t) && Spans(t) <= m'.Keys
    requires forall s :: s in Spans(t) ==> m'[s] == m[s]
    ensures Rooted(m', t)
  {
    LinkedFrame(m, m', t.kids, t.span);
    OrderedFrame(m, m', t);
  }

  // ----- merge -----

  /** The links after `kid` became the first child of `root`. */
  ghost function Adopt(m: Links, root: Span, kid: Span): Links
    requires root in m && kid in m && (m[root].child != null ==> m[root].child in m)
  {
    var head := m[root].child;
    var m1 := if head == null then m else m[head := m[head].(prev := kid)];
    m1[kid := m1[kid].(prev := root, next := head)]
      [root := m[root].(child := kid, prev := null, next := null)]
  }

  ghost function AdoptTree(troot: Tree, tkid: Tree): Tree
    requires troot.Node? && tkid.Node?
  {
    Node(troot.span, Node(tkid.span, tkid.kids, troot.kids), Nil)
  }

  lemma AdoptLinked(m: Links, troot: Tree, tkid: Tree)
    requires Rooted(m, troot) && Rooted(m, tkid) && Spans(troot) !! Spans(tkid)
    ensures m[troot.span].child != null ==> m[troot.span].child in m
    ensures var m' := Adopt(m, troot.span, tkid.span);
      && m'.Keys == m.Keys
      && (forall s :: s in m && s !in Spans(troot) + Spans(tkid) ==> m'[s] == m[s])
      && (forall s :: s in m ==> m'[s].age == m[s].age && m'[s].addr == m[s].addr)
      && m'[troot.span].next == null && m'[troot.span].prev == null
      && m'[troot.span].child == tkid.span
      && Linked(m', AdoptTree(troot, tkid).kids, troot.span)
  {
    var m' := Adopt(m, troot.span, tkid.span);
    LinkedFrame(m, m', tkid.kids, tkid.span);
    if troot.kids.Node? {
      assert troot.kids.span in Spans(troot.kids);
      Rehung(m, m', troot.kids, troot.span, tkid.span);
    }
  }

  lemma AdoptSpans(troot: Tree, tkid: Tree)
    requires troot.Node? && tkid.Node? && troot.sibs == Nil && tkid.sibs == Nil
    requires Distinct(troot) && Distinct(tkid) && Spans(troot) !! Spans(tkid)
    ensures var t := AdoptTree(troot, tkid); Spans(t) == Spans(troot) + Spans(tkid) && Distinct(t)
  {
    var below := Node(tkid.span, tkid.kids, troot.kids);
    assert Spans(below) == {tkid.span} + Spans(tkid.kids) + Spans(troot.kids);
  }

  /** The kid's tree, with the root's children as its siblings, hangs below the root in order. */
  lemma AdoptedBelow(m: Links, root: Span, tkid: Tree, kids: Tree)
    requires tkid.Node? && tkid.sibs == Nil && root in m && Spans(tkid) + Spans(kids) <= m.Keys
    requires !Before(m[tkid.span], m[root]) && Ordered(m, tkid) && Ordered(m, kids)
    requires forall s :: s in Spans(kids) ==> !Before(m[s], m[root])
    ensures var below := Node(tkid.span, tkid.kids, kids);
      Spans(below) <= m.Keys && Ordered(m, below) && forall s :: s in Spans(below) ==> !Before(m[s], m[root])
  {
  }

  lemma AdoptOrdered(m: Links, m': Links, troot: Tree, tkid: Tree)
    requires Rooted(m, troot) && Rooted(m, tkid) && Spans(troot) !! Spans(tkid)
    requires !Before(m[tkid.span], m[troot.span])
    requires m'.Keys == m.Keys
    requires forall s :: s in m ==> m'[s].age == m[s].age && m'[s].addr == m[s].addr
    ensures var t := AdoptTree(troot, tkid);
      Spans(t) == Spans(troot) + Spans(tkid) && Distinct(t) && Ordered(m', t)
  {
    hide Linked, Distinct;
    AdoptSpans(troot, tkid);
    OrderedFrame(m, m', troot.kids);
    OrderedFrame(m, m', tkid);
    AdoptedBelow(m', troot.span, tkid, troot.kids);
  }

  lemma AdoptRooted(m: Links, troot: Tree, tkid: Tree)
    requires Rooted(m, troot) && Rooted(m, tkid) && Spans(troot) !! Spans(tkid)
    requires !Before(m[tkid.span], m[troot.span])
    ensures m[troot.span].child != null ==> m[troot.span].child in m
    ensures var m' := Adopt(m, troot.span, tkid.span);
      && Rooted(m', AdoptTree(troot, tkid))
      && Spans(AdoptTree(troot, tkid)) == Spans(troot) + Spans(tkid)
      && m'.Keys == m.Keys
      && (forall s :: s in m && s !in Spans(troot) + Spans(tkid) ==> m'[s] == m[s])
      && m'[troot.span].next == null && m'[troot.span].prev == null
  {
    AdoptLinked(m, troot, tkid);
    AdoptOrdered(m, Adopt(m, troot.span, tkid.span), troot, tkid);
  }

  /** What a merge makes of two trees: one of them adopts the other, in order. */
  ghost predicate Melded(m: Links, m': Links, ta: Tree, tb: Tree, tr: Tree) {
    if ta.Nil? then tr == tb && m' == m
    else if tb.Nil? then tr == ta && m' == m
    else
      && (tr == AdoptTree(ta, tb) || tr == AdoptTree(tb, ta))
      && Rooted(m', tr) && Spans(tr) == Spans(ta) + Spans(tb)
      && m'.Keys == m.Keys
      && (forall s :: s in m && s !in Spans(tr) ==> m'[s] == m[s])
      && m'[tr.span].next == null && m'[tr.span].prev == null
  }

  /** The comparison the buckets are generated with. */
  predicate SpanCmp(a: Span, b: Span)
    reads a`age, a`addr, b`age, b`addr
  {
    Before(Cell(a.age, a.addr, null, null, null), Cell(b.age, b.addr, null, null, null))
  }

  /** The five writes of a merge, in the order of the source. */
  method AdoptKid(root: Span, kid: Span, ghost all: set<Span>)
    requires root in all && kid in all && (root.child != null ==> root.child in all)
    requires root != kid && root.child != kid && root.child != root
    modifies all`next, all`prev, all`child
    ensures Snap(all) == Adopt(old(Snap(all)), root, kid)
  {
    if root.child != null {
      root.child.prev := kid;
    }
    kid.prev := root;
    kid.next := root.child;
    root.child := kid;
    root.prev := null;
    root.next := null;
  }

  /** Makes the later of two roots the first child of the earlier one. */
  method Merge(a: Span?, b: Span?, ghost all: set<Span>, ghost ta: Tree, ghost tb: Tree)
    returns (r: Span?, ghost tr: Tree)
    requires a == Top(ta) && b == Top(tb) && Spans(ta) !! Spans(tb)
    requires ta.Node? ==> Rooted(Snap(all), ta)
    requires tb.Node? ==> Rooted(Snap(all), tb)
    modifies all`next, all`prev, all`child
    ensures r == Top(tr) && Melded(old(Snap(all)), Snap(all), ta, tb, tr)
  {
    if a == null {
      return b, tb;
    }
    if b == null {
      return a, ta;
    }
    if SpanCmp(a, b) {
      AdoptRooted(Snap(all), ta, tb);
      AdoptKid(a, b, all);
      r, tr := a, AdoptTree(ta, tb);
    } else {
      AdoptRooted(Snap(all), tb, ta);
      AdoptKid(b, a, all);
      r, tr := b, AdoptTree(tb, ta);
    }
  }

  // ----- the two passes of a pop -----

  /** The roots the first pass leaves behind, last one first. */
  datatype Chain = Empty | Link(tree: Tree, below: Chain)

  ghost function ChainSpans(c: Chain): set<Span> {
    if c.Empty? then {} else Spans(c.tree) + ChainSpans(c.below)
  }

  function Tail(c: Chain): Span? {
    if c.Empty? then null else Top(c.tree)
  }

  /** Each root's `prev` names the root before it. */
  ghost predicate Chained(m: Links, c: Chain) {
    && ChainSpans(c) <= m.Keys
    && (c.Link? ==>
      && Rooted(m, c.tree) && m[c.tree.span].prev == Tail(c.below)
      && Spans(c.tree) !! ChainSpans(c.below)
      && Chained(m, c.below))
  }

  lemma RootedFrame(m: Links, m': Links, t: Tree)
    requires Rooted(m, t) && m'.Keys == m.Keys
    requires forall s :: s in Spans(t) && s != t.span ==> m'[s] == m[s]
    requires m'[t.span] == m[t.span].(prev := m'[t.span].prev, next := m'[t.span].next)
    ensures Rooted(m', t)
  {
    LinkedFrame(m, m', t.kids, t.span);
    OrderedFrame(m, m', t);
  }

  lemma SiblingsFrame(m: Links, m': Links, t: Tree)
    requires Siblings(m, t) && m'.Keys == m.Keys
    requires forall s :: s in Spans(t) ==> m'[s] == m[s]
    ensures Siblings(m', t)
  {
    if t.Node? {
      LinkedFrame(m, m', t.kids, t.span);
      LinkedFrame(m, m', t.sibs, t.span);
    }
    OrderedFrame(m, m', t);
  }

  /** Only the last root's `next` may differ. */
  lemma {:induction false} ChainedFrame(m: Links, m': Links, c: Chain)
    requires Chained(m, c) && m'.Keys == m.Keys
    requires forall s :: s in ChainSpans(c) && s != Tail(c) ==> m'[s] == m[s]
    requires c.Link? ==> m'[c.tree.span] == m[c.tree.span].(next := m'[c.tree.span].next)
    ensures Chained(m', c)
  {
    if c.Link? {
      RootedFrame(m, m', c.tree);
      ChainedFrame(m, m', c.below);
    }
  }

  /** The first two siblings stand alone as trees, apart from the rest. */
  lemma SplitPair(m: Links, t: Tree)
    requires Siblings(m, t) && t.Node? && t.sibs.Node?
    ensures Rooted(m, Node(t.span, t.kids, Nil)) && Rooted(m, Node(t.sibs.span, t.sibs.kids, Nil))
    ensures Siblings(m, t.sibs.sibs) && m[t.span].next == t.sibs.span && m[t.sibs.span].next == Top(t.sibs.sibs)
    ensures Spans(Node(t.span, t.kids, Nil)) !! Spans(Node(t.sibs.span, t.sibs.kids, Nil)) !! Spans(t.sibs.sibs)
    ensures Spans(t) == Spans(Node(t.span, t.kids, Nil)) + Spans(Node(t.sibs.span, t.sibs.kids, Nil)) + Spans(t.sibs.sibs)
  {
  }

  /** The links after `root` was put behind `last`. */
  ghost function Behind(m: Links, root: Span, last: Span?): Links
    requires root in m && (last != null ==> last in m)
  {
    var m1 := m[root := m[root].(prev := last)];
    if last == null then m1 else m1[last := m1[last].(next := root)]
  }

  lemma PushRoot(m: Links, t: Tree, c: Chain)
    requires Rooted(m, t) && Chained(m, c) && Spans(t) !! ChainSpans(c)
    ensures c.Link? ==> c.tree.span in m
    ensures Chained(Behind(m, t.span, Tail(c)), Link(t, c))
  {
    var m' := Behind(m, t.span, Tail(c));
    assert t.span in Spans(t);
    assert c.Link? ==> c.tree.span in Spans(c.tree) && c.tree.span in ChainSpans(c);
    RootedFrame(m, m', t);
    ChainedFrame(m, m', c);
  }

  method PutBehind(root: Span, last: Span?, ghost all: set<Span>)
    requires root in all && (last != null ==> last in all) && root != last
    modifies all`next, all`prev
    ensures Snap(all) == Behind(old(Snap(all)), root, last)
  {
    root.prev := last;
    if last != null {
      last.next := root;
    }
  }

  /** The state between rounds of the first pass: some siblings to go, some roots done. */
  ghost predicate FirstPass(m: Links, rest: Tree, c: Chain, total: set<Span>) {
    && Siblings(m, rest) && Chained(m, c)
    && Spans(rest) !! ChainSpans(c) && Spans(rest) + ChainSpans(c) == total
    && (c.Link? ==> c.tree.span in m && m[c.tree.span].next == null)
  }

  ghost predicate SameOutside(m: Links, m': Links, inside: set<Span>) {
    m'.Keys == m.Keys && forall s :: s in m && s !in inside ==> m'[s] == m[s]
  }

  lemma RoundKeeps(m0: Links, m1: Links, rest: Tree, c: Chain, total: set<Span>, tm: Tree)
    requires FirstPass(m0, rest, c, total) && rest.Node? && rest.sibs.Node?
    requires Melded(m0, m1, Node(rest.span, rest.kids, Nil), Node(rest.sibs.span, rest.sibs.kids, Nil), tm)
    ensures tm.Node? && tm.span in m1 && tm.span != Tail(c) && (c.Link? ==> c.tree.span in m1)
    ensures var m2 := Behind(m1, tm.span, Tail(c));
      FirstPass(m2, rest.sibs.sibs, Link(tm, c), total) && SameOutside(m0, m2, total)
  {
    hide Ordered, Linked;
    SplitPair(m0, rest);
    var later := rest.sibs.sibs;
    assert Spans(tm) !! Spans(later) && Spans(tm) !! ChainSpans(c) && Spans(later) !! ChainSpans(c);
    assert tm.span in Spans(tm);
    ChainedFrame(m0, m1, c);
    SiblingsFrame(m0, m1, later);
    PushRoot(m1, tm, c);
    var m2 := Behind(m1, tm.span, Tail(c));
    assert c.Link? ==> c.tree.span in Spans(c.tree) && c.tree.span in ChainSpans(c);
    SiblingsFrame(m1, m2, later);
  }

  /** An odd sibling out is chained as it is. */
  lemma LastRound(m: Links, rest: Tree, c: Chain, total: set<Span>)
    requires FirstPass(m, rest, c, total) && rest.Node? && rest.sibs.Nil?
    ensures rest.span in m && rest.span != Tail(c)
    ensures var m' := Behind(m, rest.span, Tail(c));
      FirstPass(m', Nil, Link(rest, c), total) && SameOutside(m, m', total)
  {
    assert rest.span in Spans(rest);
    assert c.Link? ==> c.tree.span in Spans(c.tree) && c.tree.span in ChainSpans(c);
    PushRoot(m, rest, c);
  }

  /** First pass: merge neighbouring siblings two by two, chaining the winners by `prev`. */
  method MergePairs(first: Span, ghost all: set<Span>, ghost t: Tree) returns (tail: Span, ghost c: Chain)
    requires first == Top(t) && Siblings(Snap(all), t)
    modifies all`next, all`prev, all`child
    ensures tail == Tail(c) && FirstPass(Snap(all), Nil, c, Spans(t))
    ensures SameOutside(old(Snap(all)), Snap(all), Spans(t))
  {
    var curr: Span? := first;
    var last: Span? := null;
    ghost var rest := t;
    c := Empty;
    while curr != null && curr.next != null
      invariant curr == Top(rest) && last == Tail(c)
      invariant FirstPass(Snap(all), rest, c, Spans(t))
      invariant curr == null ==> last != null
      invariant SameOutside(old(Snap(all)), Snap(all), Spans(t))
      decreases rest
    {
      ghost var m0 := Snap(all);
      SplitPair(m0, rest);
      var pairL := curr;
      var pairR := pairL.next;
      var nextPair := pairR.next;
      var merged;
      ghost var tm;
      merged, tm := Merge(pairL, pairR, all, Node(rest.span, rest.kids, Nil), Node(rest.sibs.span, rest.sibs.kids, Nil));
      RoundKeeps(m0, Snap(all), rest, c, Spans(t), tm);
      PutBehind(merged, last, all);
      last, curr := merged, nextPair;
      c, rest := Link(tm, c), rest.sibs.sibs;
    }
    if curr != null {
      LastRound(Snap(all), rest, c, Spans(t));
      PutBehind(curr, last, all);
      last, c := curr, Link(rest, c);
    }
    tail := last;
  }

  /** The state between rounds of the second pass: one tree, and the roots still below it. */
  ghost predicate SecondPass(m: Links, t: Tree, below: Chain, total: set<Span>) {
    && Rooted(m, t) && Chained(m, below)
    && m[t.span].prev == Tail(below) && m[t.span].next == null
    && Spans(t) !! ChainSpans(below) && Spans(t) + ChainSpans(below) == total
  }

  /** The links after the two roots to merge were let go. */
  ghost function Released(m: Links, tail: Span, prev: Span): Links
    requires tail in m && prev in m && tail != prev
  {
    m[tail := m[tail].(prev := null)][prev := m[prev].(next := null)]
  }

  method Release(tail: Span, prev: Span, ghost all: set<Span>)
    requires tail in all && prev in all && tail != prev
    modifies all`next, all`prev
    ensures Snap(all) == Released(old(Snap(all)), tail, prev)
  {
    tail.prev := null;
    prev.next := null;
  }

  lemma ReleaseKeeps(m: Links, t: Tree, below: Chain, total: set<Span>)
    requires SecondPass(m, t, below, total) && below.Link?
    ensures below.tree.span in m && t.span in m && t.span != below.tree.span
    ensures var m' := Released(m, t.span, below.tree.span);
      && Rooted(m', t) && Rooted(m', below.tree) && Chained(m', below.below)
      && Spans(below.tree) !! Spans(t) && SameOutside(m, m', total)
      && m[below.tree.span].prev == Tail(below.below)
  {
    var m' := Released(m, t.span, below.tree.span);
    assert t.span in Spans(t) && below.tree.span in Spans(below.tree);
    RootedFrame(m, m', t);
    RootedFrame(m, m', below.tree);
    ChainedFrame(m, m', below.below);
  }

  lemma MergeBackKeeps(m1: Links, m2: Links, t: Tree, below: Chain, total: set<Span>, tr: Tree)
    requires below.Link? && Rooted(m1, t) && Rooted(m1, below.tree) && Chained(m1, below.below)
    requires Spans(below.tree) !! Spans(t) !! ChainSpans(below.below)
    requires Spans(t) + ChainSpans(below) == total
    requires Melded(m1, m2, below.tree, t, tr)
    ensures tr.Node? && tr.span in m2 && tr.span != Tail(below.below)
    ensures below.below.Link? ==> below.below.tree.span in m2
    ensures var m3 := Behind(m2, tr.span, Tail(below.below));
      SecondPass(m3, tr, below.below, total) && SameOutside(m1, m3, total)
  {
    hide Ordered, Linked;
    var rest := below.below;
    assert tr.span in Spans(tr) && Spans(tr) !! ChainSpans(rest);
    assert rest.Link? ==> rest.tree.span in Spans(rest.tree) && rest.tree.span in ChainSpans(rest);
    ChainedFrame(m1, m2, rest);
    PushRoot(m2, tr, rest);
  }

  /** Second pass: merge the chained roots, last one first, into a single tree. */
  method MergeChain(last: Span, ghost all: set<Span>, ghost c: Chain) returns (tail: Span, ghost t: Tree)
    requires last == Tail(c) && Chained(Snap(all), c) && last in all && last.next == null
    modifies all`next, all`prev, all`child
    ensures tail == Top(t) && SecondPass(Snap(all), t, Empty, ChainSpans(c))
    ensures SameOutside(old(Snap(all)), Snap(all), ChainSpans(c))
  {
    tail := last;
    t := c.tree;
    ghost var below := c.below;
    while tail.prev != null
      invariant tail == Top(t) && SecondPass(Snap(all), t, below, ChainSpans(c))
      invariant SameOutside(old(Snap(all)), Snap(all), ChainSpans(c))
      decreases below
    {
      ghost var m0 := Snap(all);
      var prev := tail.prev;
      var prevPrev := prev.prev;
      ReleaseKeeps(m0, t, below, ChainSpans(c));
      Release(tail, prev, all);
      ghost var m1, right := Snap(all), t;
      tail, t := Merge(prev, tail, all, below.tree, right);
      MergeBackKeeps(m1, Snap(all), right, below, ChainSpans(c), t);
      PutBehind(tail, prevPrev, all);
      below := below.below;
    }
  }

  // ----- removal of an arbitrary node -----

  /** `t` without the subtree hanging below `n`; the siblings of `n` move up. */
  ghost function Cut(t: Tree, n: Span): Tree {
    if t.Nil? then Nil
    else if t.span == n then t.sibs
    else Node(t.span, Cut(t.kids, n), Cut(t.sibs, n))
  }

  /** The subtree of `n` as a tree of its own. */
  ghost function Sub(t: Tree, n: Span): Tree {
    if t.Nil? then Nil
    else if t.span == n then Node(n, t.kids, Nil)
    else if n in Spans(t.kids) then Sub(t.kids, n)
    else Sub(t.sibs, n)
  }

  ghost predicate Hooked(m: Links, n: Span) {
    && n in m && m[n].prev != null && m[n].prev in m
    && (m[n].next != null ==> m[n].next in m)
  }

  /** The links after `n` was unhooked from its parent or left sibling, and from its right sibling. */
  ghost function Unhooked(m: Links, n: Span): Links
    requires Hooked(m, n)
  {
    var (p, x) := (m[n].prev, m[n].next);
    var m1 := if m[p].child == n then m[p := m[p].(child := x)] else m[p := m[p].(next := x)];
    if x == null then m1 else m1[x := m1[x].(prev := p)]
  }

  lemma {:induction false} CutAbsent(t: Tree, n: Span)
    requires n !in Spans(t)
    ensures Cut(t, n) == t
  {
    if t.Node? {
      CutAbsent(t.kids, n);
      CutAbsent(t.sibs, n);
    }
  }

  lemma {:induction false} CutSpans(m: Links, t: Tree, n: Span)
    requires Distinct(t) && n in Spans(t)
    ensures Sub(t, n).Node? && Sub(t, n).span == n && Sub(t, n).sibs == Nil
    ensures Spans(Cut(t, n)) !! Spans(Sub(t, n)) && Spans(t) == Spans(Cut(t, n)) + Spans(Sub(t, n))
    ensures Distinct(Cut(t, n)) && Distinct(Sub(t, n))
  {
    if t.span == n {
    } else if n in Spans(t.kids) {
      CutSpans(m, t.kids, n);
      CutAbsent(t.sibs, n);
    } else {
      CutSpans(m, t.sibs, n);
      CutAbsent(t.kids, n);
    }
  }

  lemma {:induction false} CutOrdered(m: Links, t: Tree, n: Span)
    requires Distinct(t) && n in Spans(t) && Spans(t) <= m.Keys && Ordered(m, t)
    ensures Spans(Cut(t, n)) <= m.Keys && Ordered(m, Cut(t, n))
    ensures Spans(Sub(t, n)) <= m.Keys && Ordered(m, Sub(t, n))
  {
    CutSpans(m, t, n);
    if t.span == n {
    } else if n in Spans(t.kids) {
      CutOrdered(m, t.kids, n);
      CutSpans(m, t.kids, n);
      CutAbsent(t.sibs, n);
    } else {
      CutOrdered(m, t.sibs, n);
      CutSpans(m, t.sibs, n);
      CutAbsent(t.kids, n);
    }
  }

  /** Every node but the first hangs from a node of the same list, and its links stay inside. */
  lemma {:induction false} LinksInside(m: Links, t: Tree, up: Span?, n: Span)
    requires Linked(m, t, up) && n in Spans(t)
    ensures n in m && (m[n].next != null ==> m[n].next in Spans(t) && m[n].next in m)
    ensures if n == t.span then m[n].prev == up else m[n].prev in Spans(t) && m[n].prev in m
  {
    if n == t.span {
      assert t.sibs.Node? ==> t.sibs.span in Spans(t.sibs);
    } else if n in Spans(t.kids) {
      LinksInside(m, t.kids, t.span, n);
    } else {
      LinksInside(m, t.sibs, t.span, n);
    }
  }

  lemma {:induction false} CutLinked(m: Links, m': Links, t: Tree, up: Span, n: Span)
    requires Distinct(t) && Linked(m, t, up) && n in Spans(t) && up !in Spans(t)
    requires Hooked(m, n) && m' == Unhooked(m, n)
    requires Spans(t) <= m.Keys
    ensures Linked(m', Cut(t, n), up)
  {
    if t.span == n {
      if t.sibs.Node? {
        assert t.sibs.span in Spans(t.sibs);
        Rehung(m, m', t.sibs, n, up);
      }
    } else if n in Spans(t.kids) {
      LinksInside(m, t.kids, t.span, n);
      CutLinked(m, m', t.kids, t.span, n);
      LinkedFrame(m, m', t.sibs, t.span);
      CutAbsent(t.sibs, n);
    } else {
      LinksInside(m, t.sibs, t.span, n);
      assert t.kids.Node? ==> t.kids.span in Spans(t.kids);
      CutLinked(m, m', t.sibs, t.span, n);
      LinkedFrame(m, m', t.kids, t.span);
      CutAbsent(t.kids, n);
    }
  }

  lemma {:induction false} SubPlace(m: Links, t: Tree, up: Span, n: Span)
    requires Distinct(t) && Linked(m, t, up) && n in Spans(t) && up !in Spans(t)
    ensures n in m && Sub(t, n).Node? && m[n].child == Top(Sub(t, n).kids) && Linked(m, Sub(t, n).kids, n)
    ensures m[n].prev !in Spans(Sub(t, n)) && m[n].next !in Spans(Sub(t, n)) && m[n].prev != m[n].next
  {
    if t.span == n {
      assert t.sibs.Node? ==> t.sibs.span in Spans(t.sibs);
    } else if n in Spans(t.kids) {
      SubPlace(m, t.kids, t.span, n);
    } else {
      SubPlace(m, t.sibs, t.span, n);
    }
  }

  /** Unhooking leaves two trees: the heap without the subtree, and the subtree. */
  lemma CutRooted(m: Links, t: Tree, n: Span)
    requires Rooted(m, t) && n in Spans(t.kids)
    ensures Hooked(m, n)
    ensures var m' := Unhooked(m, n);
      && Rooted(m', Cut(t, n)) && Cut(t, n).span == t.span
      && m'[t.span].prev == m[t.span].prev && m'[t.span].next == m[t.span].next
  {
    hide Ordered;
    LinksInside(m, t.kids, t.span, n);
    var m' := Unhooked(m, n);
    CutSpans(m, t, n);
    CutOrdered(m, t, n);
    CutLinked(m, m', t.kids, t.span, n);
    OrderedFrame(m, m', Cut(t, n));
    assert Cut(t, n) == Node(t.span, Cut(t.kids, n), Nil);
    CutTop(m, m', t.kids, t.span, n);
  }

  lemma SubRooted(m: Links, t: Tree, n: Span)
    requires Rooted(m, t) && n in Spans(t.kids)
    ensures Hooked(m, n) && m[n].prev != n && m[n].next != n && m[n].prev != m[n].next
    ensures Rooted(Unhooked(m, n), Sub(t, n)) && Sub(t, n).span == n
  {
    hide Ordered;
    LinksInside(m, t.kids, t.span, n);
    var m' := Unhooked(m, n);
    CutSpans(m, t, n);
    CutOrdered(m, t, n);
    SubPlace(m, t.kids, t.span, n);
    LinkedFrame(m, m', Sub(t.kids, n).kids, n);
    OrderedFrame(m, m', Sub(t, n));
  }

  lemma CutTop(m: Links, m': Links, kids: Tree, root: Span, n: Span)
    requires root in m && m[root].child == Top(kids) && Linked(m, kids, root) && n in Spans(kids)
    requires root !in Spans(kids) && Distinct(kids)
    requires Hooked(m, n) && m' == Unhooked(m, n)
    ensures m'[root].child == Top(Cut(kids, n))
    ensures m'[root].prev == m[root].prev && m'[root].next == m[root].next
  {
    LinksInside(m, kids, root, n);
  }

  ghost function Only(node: Span?): set<Span> {
    if node == null then {} else {node}
  }

  /** Both passes over the children of `r`: what is left is one tree of everything below `r`. */
  method Passes(r: Span, ghost all: set<Span>, ghost t: Tree) returns (rest: Span?, ghost t': Tree)
    requires r == Top(t) && Rooted(Snap(all), t)
    modifies all`next, all`prev, all`child
    ensures rest == Top(t') && Spans(t') == Spans(t) - {r}
    ensures rest != null ==> Rooted(Snap(Spans(t')), t') && rest.prev == null && rest.next == null
    ensures SameOutside(old(Snap(all)), Snap(all), Spans(t))
  {
    hide Before;
    ghost var kids := t.kids;
    var curr := r.child;
    if curr == null {
      return null, Nil;
    }
    var tail;
    ghost var c;
    tail, c := MergePairs(curr, all, kids);
    rest, t' := MergeChain(tail, all, c);
    Regrown(Snap(all), Snap(Spans(t')), t');
  }

  /** No descendant of a root precedes it. */
  lemma RootIsFirst(m: Links, t: Tree)
    requires Rooted(m, t)
    ensures forall s :: s in Spans(t) ==> !Before(m[s], m[t.span])
  {
  }

  method Drain(r: Span, ghost t: Tree) returns (rest: Span?, ghost t': Tree)
    requires r == Top(t) && Rooted(Snap(Spans(t)), t)
    modifies Spans(t)`next, Spans(t)`prev, Spans(t)`child
    ensures rest == Top(t') && Spans(t') == Spans(t) - {r}
    ensures rest != null ==> Rooted(Snap(Spans(t')), t') && rest.prev == null && rest.next == null
    ensures r.next == null && r.prev == null && r.child == null
    ensures FirstAmong(Spans(t), r)
  {
    hide Rooted, FirstAmong;
    ghost var keys := Keys(Spans(t));
    NoneBefore(t, r);
    KeysFirst(Spans(t), keys, r);
    assert r in Spans(t);
    rest, t' := Passes(r, Spans(t), t);
    Unlink(r, rest, t');
    assert Keys(Spans(t)) == keys;
    KeysFirst(Spans(t), keys, r);
  }

  /** What the order looks at. */
  ghost function Keys(all: set<Span>): (m: Links)
    reads all`age, all`addr
    ensures m.Keys == all
  {
    map s | s in all :: Cell(s.age, s.addr, null, null, null)
  }

  lemma KeysFirst(all: set<Span>, m: Links, r: Span)
    requires m == Keys(all) && r in all
    ensures FirstAmong(all, r) <==> forall s :: s in m ==> !Before(m[s], m[r])
  {
  }

  /** The popped root forgets its links; what is left does not notice. */
  method Unlink(r: Span, rest: Span?, ghost u: Tree)
    requires r !in Spans(u) && rest == Top(u)
    requires rest != null ==> Rooted(Snap(Spans(u)), u) && rest.prev == null && rest.next == null
    modifies r`next, r`prev, r`child
    ensures r.next == null && r.prev == null && r.child == null
    ensures rest != null ==> Rooted(Snap(Spans(u)), u) && rest.prev == null && rest.next == null
  {
    hide Rooted;
    ghost var m := Snap(Spans(u));
    r.next, r.prev, r.child := null, null, null;
    assert Snap(Spans(u)) == m;
  }

  /** No member of the set comes before `r`. */
  ghost predicate FirstAmong(all: set<Span>, r: Span)
    reads all`age, all`addr, r`age, r`addr
  {
    forall s :: s in all ==> !SpanCmp(s, r)
  }

  /** What the comparison comes to: the oldest, and of the oldest the one at the lowest address. */
  lemma OldestFirst(all: set<Span>, r: Span)
    requires FirstAmong(all, r)
    ensures forall x :: x in all ==> r.age < x.age || (r.age == x.age && r.addr <= x.addr)
  {
  }

  lemma NoneBefore(t: Tree, r: Span)
    requires r == Top(t) && Rooted(Snap(Spans(t)), t)
    ensures FirstAmong(Spans(t), r)
  {
    RootIsFirst(Snap(Spans(t)), t);
    var m := Snap(Spans(t));
    hide Rooted;
    forall s | s in Spans(t) ensures !SpanCmp(s, r) {
      assert m[s].age == s.age && m[s].addr == s.addr && m[r].age == r.age && m[r].addr == r.addr;
    }
  }

  /** Merges a lone descriptor with a heap. */
  method Plant(root: Span?, node: Span, ghost t: Tree) returns (r: Span, ghost t': Tree)
    requires root == Top(t) && node !in Spans(t)
    requires root != null ==> Rooted(Snap(Spans(t)), t)
    modifies (Spans(t) + {node})`next, (Spans(t) + {node})`prev, (Spans(t) + {node})`child
    ensures r == Top(t') && Spans(t') == Spans(t) + {node}
    ensures Rooted(Snap(Spans(t')), t') && r.prev == null && r.next == null
  {
    hide Before;
    node.next, node.prev, node.child := null, null, null;
    ghost var all := Spans(t) + {node};
    if root != null {
      Regrown(Snap(Spans(t)), Snap(all), t);
    }
    r, t' := Merge(root, node, all, t, Node(node, Nil, Nil));
    assert Spans(t') == all;
  }

  /** The writes that unhook a node, in the order of the source. */
  method Unhook(node: Span, ghost all: set<Span>)
    requires Hooked(Snap(all), node) && node.prev != node && node.next != node && node.prev != node.next
    modifies all`next, all`prev, all`child
    ensures Snap(all) == Unhooked(old(Snap(all)), node)
  {
    if node.prev.child == node {
      node.prev.child := node.next;
    } else {
      node.prev.next := node.next;
    }
    if node.next != null {
      node.next.prev := node.prev;
    }
  }

  class Bucket {
    var root: Span?
    ghost var tree: Tree

    ghost function Contents(): set<Span>
      reads this
    {
      Spans(tree)
    }

    /** `root` heads one tree, but its own `prev` and `next` may still be those of an older place. */
    ghost predicate Loose()
      reads this, Contents()
    {
      root == Top(tree) && (root != null ==> Rooted(Snap(Contents()), tree))
    }

    ghost predicate Valid()
      reads this, Contents()
    {
      Loose() && (root != null ==> root in Contents() && root.prev == null && root.next == null)
    }

    constructor ()
      ensures Valid() && Contents() == {}
    {
      root, tree := null, Nil;
    }

    constructor At(node: Span, ghost t: Tree)
      requires node == Top(t) && Rooted(Snap(Spans(t)), t)
      ensures Loose() && root == node && tree == t
    {
      root, tree := node, t;
    }

    /** Takes out a first descriptor in the order of the bucket; an empty bucket gives null. */
    method Pop() returns (r: Span?)
      requires Loose()
      modifies this, Contents()`next, Contents()`prev, Contents()`child
      ensures Valid() && r == old(root)
      ensures r == null <==> old(Contents()) == {}
      ensures r == null ==> Contents() == {}
      ensures r != null ==>
        && r in old(Contents()) && Contents() == old(Contents()) - {r}
        && FirstAmong(old(Contents()), r)
        && (forall x :: x in old(Contents()) ==> r.age < x.age || (r.age == x.age && r.addr <= x.addr))
        && r.next == null && r.prev == null && r.child == null
    {
      hide Rooted, FirstAmong, Snap;
      r := root;
      if r == null {
        return;
      }
      var rest;
      ghost var t;
      ghost var all := Contents();
      rest, t := Drain(r, tree);
      OldestFirst(all, r);
      root, tree := rest, t;
    }

    /** Adds a descriptor that is in no bucket; a null descriptor is ignored. */
    method Insert(node: Span?)
      requires Valid() && node !in Contents()
      modifies this, Contents()`next, Contents()`prev, Contents()`child, Only(node)`next, Only(node)`prev, Only(node)`child
      ensures Valid()
      ensures Contents() == old(Contents()) + Only(node)
    {
      hide Ordered, Linked;
      if node == null {
        return;
      }
      root, tree := Plant(root, node, tree);
    }

    /** Only the root of a heap has a null `prev`. */
    lemma InnerHasPrev(node: Span)
      requires Valid() && node in Contents() && node != root
      ensures node in Spans(tree.kids) && node.prev != null
    {
      LinksInside(Snap(Contents()), tree.kids, root, node);
    }

    /** Takes out a given descriptor, wherever it sits. A descriptor that is in no heap has a
        null `prev`, and removing it changes nothing. */
    method Remove(node: Span?)
      requires Valid()
      requires node != null && node !in Contents() ==> node.prev == null
      modifies this, Contents()`next, Contents()`prev, Contents()`child
      ensures Valid()
      ensures Contents() == old(Contents()) - Only(node)
      ensures node in old(Contents()) ==> node.next == null && node.prev == null && node.child == null
    {
      hide Rooted;
      if node == null {
        return;
      }
      if root == node {
        var _ := Pop();
        return;
      }
      if node in Contents() {
        InnerHasPrev(node);
      }
      if node.prev == null {
        return;
      }
      RemoveBelow(node);
    }

    /** A descriptor other than the root. */
    method RemoveBelow(node: Span)
      requires Valid() && node in Contents() && node != root
      modifies this, Contents()`next, Contents()`prev, Contents()`child
      ensures Valid() && Contents() == old(Contents()) - {node}
      ensures node.next == null && node.prev == null && node.child == null
    {
      hide Rooted;
      InnerHasPrev(node);
      var r;
      ghost var t;
      r, t := Extract(root, node, tree);
      ghost var m := Snap(Spans(t));
      root, tree := r, t;
      assert Snap(Contents()) == m;
      assert r in Spans(t);
    }
  }

  /** Unhooks `node`; the heap falls into the part without it and the subtree it heads. */
  method Detach(node: Span, ghost t: Tree) returns (ghost cut: Tree, ghost sub: Tree)
    requires Rooted(Snap(Spans(t)), t) && node in Spans(t.kids)
    modifies Spans(t)`next, Spans(t)`prev, Spans(t)`child
    ensures cut.Node? && cut.span == t.span && Rooted(Snap(Spans(cut)), cut)
    ensures Top(sub) == node && Rooted(Snap(Spans(sub)), sub)
    ensures Spans(cut) !! Spans(sub) && Spans(t) == Spans(cut) + Spans(sub)
    ensures t.span.prev == old(t.span.prev) && t.span.next == old(t.span.next)
  {
    ghost var all := Spans(t);
    ghost var m := Snap(all);
    CutRooted(m, t, node);
    SubRooted(m, t, node);
    CutSpans(m, t, node);
    Unhook(node, all);
    cut, sub := Cut(t, node), Sub(t, node);
    Regrown(Snap(all), Snap(Spans(cut)), cut);
    Regrown(Snap(all), Snap(Spans(sub)), sub);
  }

  /** Merges what is left of the two parts. */
  method Rejoin(root: Span, other: Span?, ghost t: Tree, ghost u: Tree) returns (r: Span, ghost t': Tree)
    requires root == Top(t) && other == Top(u) && Spans(t) !! Spans(u)
    requires Rooted(Snap(Spans(t)), t) && root.prev == null && root.next == null
    requires other != null ==> Rooted(Snap(Spans(u)), u)
    modifies (Spans(t) + Spans(u))`next, (Spans(t) + Spans(u))`prev, (Spans(t) + Spans(u))`child
    ensures r == Top(t') && Spans(t') == Spans(t) + Spans(u)
    ensures Rooted(Snap(Spans(t')), t') && r.prev == null && r.next == null
  {
    ghost var all := Spans(t) + Spans(u);
    Regrown(Snap(Spans(t)), Snap(all), t);
    if other != null {
      Regrown(Snap(Spans(u)), Snap(all), u);
    }
    r, t' := Merge(root, other, all, t, u);
    assert Spans(t') == all;
  }

  /** Removal below the root: the children of `node` go through a pop of their own. */
  method Extract(root: Span, node: Span, ghost t: Tree) returns (r: Span, ghost t': Tree)
    requires root == Top(t) && Rooted(Snap(Spans(t)), t) && node in Spans(t.kids)
    requires root.prev == null && root.next == null
    modifies Spans(t)`next, Spans(t)`prev, Spans(t)`child
    ensures r == Top(t') && Spans(t') == Spans(t) - {node}
    ensures Rooted(Snap(Spans(t')), t') && r.prev == null && r.next == null
    ensures node.next == null && node.prev == null && node.child == null
  {
    var rest;
    ghost var cut, u;
    rest, cut, u := TakeOut(node, t);
    r, t' := Rejoin(root, rest, cut, u);
    Let(node, Spans(t'));
  }

  /** Unhooks `node` and pops it from the temporary heap it then heads. */
  method TakeOut(node: Span, ghost t: Tree) returns (rest: Span?, ghost cut: Tree, ghost u: Tree)
    requires Rooted(Snap(Spans(t)), t) && node in Spans(t.kids)
    modifies Spans(t)`next, Spans(t)`prev, Spans(t)`child
    ensures cut.Node? && cut.span == t.span && Rooted(Snap(Spans(cut)), cut)
    ensures rest == Top(u) && (rest != null ==> Rooted(Snap(Spans(u)), u))
    ensures Spans(cut) !! Spans(u) && Spans(cut) + Spans(u) == Spans(t) - {node}
    ensures t.span.prev == old(t.span.prev) && t.span.next == old(t.span.next)
  {
    hide Rooted, Distinct;
    ghost var sub;
    cut, sub := Detach(node, t);
    rest, u := PopAlone(node, sub, Spans(cut));
  }

  /** A pop of the temporary heap that holds just `node` and its children. */
  method PopAlone(node: Span, ghost sub: Tree, ghost others: set<Span>) returns (rest: Span?, ghost u: Tree)
    requires node == Top(sub) && Rooted(Snap(Spans(sub)), sub) && others !! Spans(sub)
    modifies Spans(sub)`next, Spans(sub)`prev, Spans(sub)`child
    ensures rest == Top(u) && Spans(u) == Spans(sub) - {node}
    ensures rest != null ==> Rooted(Snap(Spans(u)), u)
    ensures Snap(others) == old(Snap(others))
  {
    var temp := new Bucket.At(node, sub);
    var _ := temp.Pop();
    rest, u := temp.root, temp.tree;
  }

  method Let(node: Span, ghost rest: set<Span>)
    requires node !in rest
    modifies node`next, node`prev, node`child
    ensures node.next == null && node.prev == null && node.child == null
    ensures Snap(rest) == old(Snap(rest))
  {
    node.next, node.prev, node.child := null, null, null;
  }
}
