/** Any number of arenas on one page trie. What an arena does on the shared structures leaves the
    invariants of all the others alone, even when it loses a span of its own. */
module SpanSystem {
  import opened SpanState
  import opened SpanInvariants
  import opened SpanSteps
  import opened SpanOps
  import opened SpanAligned
  import opened SpanRuns
  import opened SpanLedger

  /** The arenas with their lookup tables; an arena's descriptors are told by its number. */
  datatype Fleet = Fleet(arenas: seq<Arena>, lookups: seq<seq<nat>>)

  ghost predicate ValidFleet(f: Fleet) {
    && |f.lookups| == |f.arenas|
    && (forall k :: 0 <= k < |f.arenas| ==> Configured(f.arenas[k], f.lookups[k]))
    && forall j, k :: 0 <= j < k < |f.arenas| ==> f.arenas[j].uid != f.arenas[k].uid
  }

  /** Each arena's cache; descriptors, trie and trie nodes are the same for all. */
  ghost predicate Joint(f: Fleet, caches: seq<Cache>) {
    |caches| == |f.arenas| && forall j, k :: 0 <= j < |caches| && 0 <= k < |caches| ==> Shares(caches[j], caches[k])
  }

  ghost predicate Intact(f: Fleet, caches: seq<Cache>, k: nat)
    requires ValidFleet(f) && |caches| == |f.arenas| && k < |caches|
  {
    CoreInv(caches[k], f.arenas[k], {})
  }

  /** Arena `k` may do the step; it is intact, and its writes to its list of origins find records. */
  ghost predicate MayMove(f: Fleet, caches: seq<Cache>, k: nat, t: Step)
    requires ValidFleet(f) && |caches| == |f.arenas|
  {
    && k < |caches| && Intact(f, caches, k) && !t.Others?
    && MayStep(caches[k], f.arenas[k], f.lookups[k], t) && StepSafe(caches[k], f.arenas[k], f.lookups[k], t)
  }

  /** The others see what became of the shared structures. */
  function Seen(s: Cache, t: Cache): Cache {
    s.(spans := t.spans, trie := t.trie, paths := t.paths)
  }

  ghost function Moved(f: Fleet, caches: seq<Cache>, k: nat, t: Step): (caches': seq<Cache>)
    requires ValidFleet(f) && |caches| == |f.arenas| && MayMove(f, caches, k, t)
    ensures |caches'| == |caches|
    ensures forall j :: 0 <= j < |caches| ==> caches'[j] == SeenAt(f, caches, k, t, j)
  {
    seq(|caches|, j requires 0 <= j < |caches| => SeenAt(f, caches, k, t, j))
  }

  ghost function SeenAt(f: Fleet, caches: seq<Cache>, k: nat, t: Step, j: nat): Cache
    requires ValidFleet(f) && |caches| == |f.arenas| && MayMove(f, caches, k, t) && j < |caches|
  {
    var now := Apply(caches[k], f.arenas[k], f.lookups[k], t);
    if j == k then now else Seen(caches[j], now)
  }

  /** The step loses a span of arena `k`. */
  ghost predicate Loses(f: Fleet, caches: seq<Cache>, k: nat, t: Step)
    requires ValidFleet(f)
  {
    |caches| == |f.arenas| && MayMove(f, caches, k, t) && LeakStep(caches[k], f.arenas[k], f.lookups[k], t)
  }

  lemma MovedJoint(f: Fleet, caches: seq<Cache>, k: nat, t: Step)
    requires ValidFleet(f) && Joint(f, caches) && MayMove(f, caches, k, t)
    ensures Joint(f, Moved(f, caches, k, t))
  {
    hide Apply, CoreInv, ValidArena, MayStep, StepSafe;
    var now := Apply(caches[k], f.arenas[k], f.lookups[k], t);
    forall j | 0 <= j < |caches| ensures Shares(Moved(f, caches, k, t)[j], now) {
    }
  }

  /** An arena that is intact stays so, whichever arena moves, unless it loses a span itself. */
  lemma MovedIntact(f: Fleet, caches: seq<Cache>, k: nat, t: Step, j: nat)
    requires ValidFleet(f) && Joint(f, caches) && MayMove(f, caches, k, t) && j < |caches| && Intact(f, caches, j)
    ensures Intact(f, Moved(f, caches, k, t), j) <==> !(j == k && Loses(f, caches, k, t))
  {
    hide CoreInv, Apply, LeakStep, StepSafe, MayStep, Foreign, ValidArena;
    var (a, b) := (f.arenas[j], f.arenas[k]);
    assert Configured(a, f.lookups[j]) && Configured(b, f.lookups[k]);
    if j == k {
      StepCore(caches[k], b, f.lookups[k], t);
    } else {
      assert Shares(caches[j], caches[k]) && a.uid != b.uid;
      StepIsForeign(caches[j], caches[k], a, b, f.lookups[k], t);
      ForeignKeeps(caches[j], Seen(caches[j], Apply(caches[k], b, f.lookups[k], t)), a);
    }
  }

  // ----- runs -----

  ghost predicate IsMove(f: Fleet, caches: seq<Cache>, caches': seq<Cache>, k: nat, t: Step)
    requires ValidFleet(f)
  {
    |caches| == |f.arenas| && MayMove(f, caches, k, t) && caches' == Moved(f, caches, k, t)
  }

  /** Any arena that is intact may move next. */
  ghost predicate IsRun(f: Fleet, states: seq<seq<Cache>>, moves: seq<(nat, Step)>)
    requires ValidFleet(f)
  {
    && |states| == |moves| + 1 && Joint(f, states[0])
    && (forall k :: 0 <= k < |f.arenas| ==> Intact(f, states[0], k))
    && forall i :: 0 <= i < |moves| ==> IsMove(f, states[i], states[i + 1], moves[i].0, moves[i].1)
  }

  /** No move of arena `k` among the first `i` loses a span. */
  ghost predicate Careful(f: Fleet, states: seq<seq<Cache>>, moves: seq<(nat, Step)>, k: nat, i: nat)
    requires ValidFleet(f) && IsRun(f, states, moves) && i < |states|
  {
    forall m :: 0 <= m < i && moves[m].0 == k ==> !Loses(f, states[m], k, moves[m].1)
  }

  /** In every state of every run of all the arenas, each arena that has lost no span itself is
      intact, whatever the others have lost. */
  lemma {:induction false} RunIntact(f: Fleet, states: seq<seq<Cache>>, moves: seq<(nat, Step)>, i: nat, k: nat)
    requires ValidFleet(f) && IsRun(f, states, moves) && i < |states| && k < |f.arenas| && Careful(f, states, moves, k, i)
    ensures Joint(f, states[i]) && Intact(f, states[i], k)
  {
    hide ValidFleet, Joint, Intact, MayMove, Loses, Moved;
    if i > 0 {
      RunIntact(f, states, moves, i - 1, k);
      var (m, t) := moves[i - 1];
      assert IsMove(f, states[i - 1], states[i - 1 + 1], m, t);
      assert m == k ==> !Loses(f, states[i - 1], k, t);
      MovedJoint(f, states[i - 1], m, t);
      MovedIntact(f, states[i - 1], m, t, k);
    }
  }

  /** So the live spans of two such arenas never share a byte. */
  lemma RunArenasApart(f: Fleet, states: seq<seq<Cache>>, moves: seq<(nat, Step)>, i: nat, j: nat, k: nat, d: Desc, e: Desc)
    requires ValidFleet(f) && IsRun(f, states, moves) && i < |states| && j < k < |f.arenas|
    requires Careful(f, states, moves, j, i) && Careful(f, states, moves, k, i)
    requires Joint(f, states[i]) && Mine(states[i][j], f.arenas[j], d) && Mine(states[i][k], f.arenas[k], e)
    ensures var x := states[i][j].spans[d]; var y := states[i][k].spans[e]; x.addr + x.nbytes <= y.addr || y.addr + y.nbytes <= x.addr
  {
    hide IsRun, Careful, CoreInv;
    RunIntact(f, states, moves, i, j);
    RunIntact(f, states, moves, i, k);
    assert Configured(f.arenas[j], f.lookups[j]) && Configured(f.arenas[k], f.lookups[k]);
    assert Shares(states[i][j], states[i][k]);
    SpansApart(states[i][j], states[i][k], f.arenas[j], f.arenas[k], d, e);
  }

  /** A page looks up to one span only. */
  lemma SpansApart(s: Cache, t: Cache, a: Arena, b: Arena, d: Desc, e: Desc)
    requires ValidArena(a) && ValidArena(b) && CoreInv(s, a, {}) && CoreInv(t, b, {}) && Shares(s, t) && a.uid != b.uid
    requires Mine(s, a, d) && Mine(t, b, e)
    ensures var x := s.spans[d]; var y := t.spans[e]; x.addr + x.nbytes <= y.addr || y.addr + y.nbytes <= x.addr
  {
    assert GoodSpan(a, s.spans[d]) && GoodSpan(b, t.spans[e]);
    hide WellConfigured, ClassOf, InSpan, TrieInv, SpansInv, BinsInv, GoodSpan;
    var p, q := EndPages(a, s.spans[d]);
    var p', q' := EndPages(b, t.spans[e]);
    PagesNamed(s, a, d);
    PagesNamed(t, b, e);
    EndsOutside(s.spans[d], t.spans[e], p', q', p, q);
    EndsOutside(t.spans[e], s.spans[d], p, q, p', q');
  }

  /** All arenas from their creation, on a trie with no entries. */
  lemma FreshFleet(f: Fleet, caches: seq<Cache>)
    requires ValidFleet(f) && |caches| == |f.arenas|
    requires forall k :: 0 <= k < |caches| ==> caches[k] == Init(f.arenas[k], map[], map[], {})
    ensures Joint(f, caches) && forall k :: 0 <= k < |caches| ==> Intact(f, caches, k)
  {
    hide CoreInv, ValidArena;
    forall k | 0 <= k < |caches| ensures Intact(f, caches, k) {
      assert Configured(f.arenas[k], f.lookups[k]);
      InitHolds(f.arenas[k], map[], map[], {});
    }
  }
}
