/** The page trie under concurrency: one writer at a time, behind the lock, and any number of
    readers that take no lock. Every load and store of a node word is a step of its own; loads
    by the writer are merged with the store that follows, since nobody else stores. */
module TrieReaders {
  import opened PageTrie

  type NodeId = nat
  type Words = w: seq<nat> | |w| == NCHILD_NODES witness seq(NCHILD_NODES, _ => 0)

  const NULL: nat := 0
  const ROOT: NodeId := 1

  /** What memset leaves. */
  function Zeroed(): (words: Words)
    ensures forall k :: 0 <= k < NCHILD_NODES ==> words[k] == NULL
  {
    seq(NCHILD_NODES, _ => NULL)
  }

  /** Where a node was published; kept for the argument, the code does not store it. */
  datatype Place = Root | Mid(i: nat) | Leaf(i: nat, j: nat) | Private

  datatype Stage =
    | Walk                   // looks for the first missing node of the page
    | FreshMid(n: NodeId)    // has a node of unknown contents
    | ZeroedMid(n: NodeId)   // has cleared it
    | FreshLeaf(n: NodeId)
    | ZeroedLeaf(n: NodeId)

  datatype Writer =
    | Idle
    | Inserting(start: nat, end: nat, page: nat, data: Ptr, stage: Stage)
    | RollingBack(end: nat, page: nat)

  datatype Reader =
    | Asking(page: nat)                  // about to load from the root
    | AtMid(page: nat, n: NodeId)        // about to load from a middle node
    | AtLeaf(page: nat, n: NodeId)       // about to load the data
    | Done(page: nat, result: Ptr)

  /** `entries` is the abstract map: it changes with every store of data, and only then. */
  datatype State = State(
    nodes: map<NodeId, Words>,
    places: map<NodeId, Place>,
    entries: map<nat, Ptr>,
    writer: Writer,
    readers: map<nat, Reader>)

  predicate Init(s: State) {
    && s.nodes == map[ROOT := Zeroed()] && s.places == map[ROOT := Root]
    && s.entries == map[] && s.writer == Idle && s.readers == map[]
  }

  function Poke(s: State, n: NodeId, k: nat, w: nat): State
    requires n in s.nodes && k < NCHILD_NODES
  {
    s.(nodes := s.nodes[n := s.nodes[n][k := w]])
  }

  function MidOf(s: State, page: nat): NodeId
    requires ROOT in s.nodes
  {
    s.nodes[ROOT][Idx1(page)]
  }

  function LeafOf(s: State, page: nat): NodeId
    requires ROOT in s.nodes
  {
    var n := MidOf(s, page);
    if n == NULL || n !in s.nodes then NULL else s.nodes[n][Idx2(page)]
  }

  /** What a walk of the whole trie finds at this instant. */
  function Found(s: State, page: nat): Ptr
    requires ROOT in s.nodes
  {
    var n := LeafOf(s, page);
    if n == NULL || n !in s.nodes then NULL else s.nodes[n][Idx3(page)]
  }

  function NextPage(w: Writer): Writer
    requires w.Inserting?
  {
    if w.page + 1 < w.end then w.(page := w.page + 1, stage := Walk) else Idle
  }

  /** The state after data was stored for a page whose nodes exist. */
  function Stored(s: State, page: nat, data: Ptr): State
    requires ROOT in s.nodes && LeafOf(s, page) in s.nodes
  {
    Poke(s, LeafOf(s, page), Idx3(page), data).(entries := s.entries[Slot(page) := data])
  }

  /** A node from the pool: never one in use, its contents arbitrary. */
  ghost predicate Takes(s: State, s': State, n: NodeId, words: Words, stage: Stage)
    requires s.writer.Inserting?
  {
    && n != NULL && n !in s.nodes
    && s' == s.(nodes := s.nodes[n := words], places := s.places[n := Private], writer := s.writer.(stage := stage))
  }

  ghost predicate TakesMid(s: State, s': State)
    requires s.writer.Inserting?
  {
    exists n: nat, words: Words :: Takes(s, s', n, words, FreshMid(n))
  }

  ghost predicate TakesLeaf(s: State, s': State)
    requires s.writer.Inserting?
  {
    exists n: nat, words: Words :: Takes(s, s', n, words, FreshLeaf(n))
  }

  /** The pool has no node: the pages stored so far are to be taken back. */
  predicate GivesUp(s: State, s': State)
    requires s.writer.Inserting?
  {
    s' == s.(writer := RollingBack(s.writer.page, s.writer.start))
  }

  /** Clears the node in hand. */
  predicate Clears(s: State, s': State, n: NodeId, stage: Stage)
    requires s.writer.Inserting?
  {
    s' == s.(nodes := s.nodes[n := Zeroed()], writer := s.writer.(stage := stage))
  }

  /** Stores the pointer to a cleared node in word `k` of `parent`. */
  predicate Publishes(s: State, s': State, parent: NodeId, k: nat, n: NodeId, place: Place)
    requires s.writer.Inserting? && k < NCHILD_NODES
  {
    && parent in s.nodes
    && s' == Poke(s, parent, k, n).(places := s.places[n := place], writer := s.writer.(stage := Walk))
  }

  predicate StoresData(s: State, s': State)
    requires s.writer.Inserting? && ROOT in s.nodes
  {
    && LeafOf(s, s.writer.page) in s.nodes
    && s' == Stored(s, s.writer.page, s.writer.data).(writer := NextPage(s.writer))
  }

  /** The stores of an insert, in the order of the source. */
  ghost predicate InsertStep(s: State, s': State)
    requires s.writer.Inserting? && ROOT in s.nodes
  {
    match s.writer.stage
    case Walk =>
      if MidOf(s, s.writer.page) == NULL then TakesMid(s, s') || GivesUp(s, s')
      else if LeafOf(s, s.writer.page) == NULL then TakesLeaf(s, s') || GivesUp(s, s')
      else StoresData(s, s')
    case FreshMid(n) => Clears(s, s', n, ZeroedMid(n))
    case ZeroedMid(n) => Publishes(s, s', ROOT, Idx1(s.writer.page), n, Mid(Idx1(s.writer.page)))
    case FreshLeaf(n) => Clears(s, s', n, ZeroedLeaf(n))
    case ZeroedLeaf(n) =>
      Publishes(s, s', MidOf(s, s.writer.page), Idx2(s.writer.page), n, Leaf(Idx1(s.writer.page), Idx2(s.writer.page)))
  }

  ghost predicate BeginsInsert(s: State, s': State) {
    exists start: nat, end: nat, data: Ptr ::
      start < end && s' == s.(writer := Inserting(start, end, start, data, Walk))
  }

  /** Stores null for the next page to take back; a page without nodes is skipped. */
  predicate RollbackStep(s: State, s': State)
    requires s.writer.RollingBack? && ROOT in s.nodes
  {
    var page := s.writer.page;
    if page >= s.writer.end then s' == s.(writer := Idle)
    else if LeafOf(s, page) == NULL then s' == s.(writer := RollingBack(s.writer.end, page + 1))
    else LeafOf(s, page) in s.nodes && s' == Stored(s, page, NULL).(writer := RollingBack(s.writer.end, page + 1))
  }

  ghost predicate WriterStep(s: State, s': State)
    requires ROOT in s.nodes
  {
    if s.writer.Idle? then BeginsInsert(s, s')
    else if s.writer.Inserting? then InsertStep(s, s')
    else RollbackStep(s, s')
  }

  /** The next load of a reader. */
  function Load(s: State, r: Reader): Reader
    requires ROOT in s.nodes
    requires r.AtMid? || r.AtLeaf? ==> r.n in s.nodes
  {
    match r
    case Asking(page) =>
      var n := s.nodes[ROOT][Idx1(page)];
      if n == NULL then Done(page, NULL) else AtMid(page, n)
    case AtMid(page, m) =>
      var n := s.nodes[m][Idx2(page)];
      if n == NULL then Done(page, NULL) else AtLeaf(page, n)
    case AtLeaf(page, n) => Done(page, s.nodes[n][Idx3(page)])
    case Done(_, _) => r
  }

  ghost predicate ReaderStep(s: State, s': State, id: nat)
    requires ROOT in s.nodes
  {
    if id !in s.readers || s.readers[id].Done? then
      exists page: nat :: s' == s.(readers := s.readers[id := Asking(page)])
    else
      && (s.readers[id].AtMid? || s.readers[id].AtLeaf? ==> s.readers[id].n in s.nodes)
      && s' == s.(readers := s.readers[id := Load(s, s.readers[id])])
  }

  // ----- the invariant -----

  /** Every published pointer leads to the node of its own place, so no two lead to one node. */
  ghost predicate Shape(s: State) {
    && ROOT in s.nodes && s.places.Keys == s.nodes.Keys && s.places[ROOT] == Root && NULL !in s.nodes
    && (forall i :: 0 <= i < NCHILD_NODES && s.nodes[ROOT][i] != NULL ==>
      s.nodes[ROOT][i] in s.nodes && s.places[s.nodes[ROOT][i]] == Mid(i))
    && (forall n, j :: n in s.nodes && s.places[n].Mid? && 0 <= j < NCHILD_NODES && s.nodes[n][j] != NULL ==>
      s.nodes[n][j] in s.nodes && s.places[s.nodes[n][j]] == Leaf(s.places[n].i, j))
  }

  /** The node the writer has in hand is in no place yet, and cleared when it says so. */
  ghost predicate InHand(s: State)
    requires Shape(s)
  {
    s.writer.Inserting? ==>
      match s.writer.stage
      case Walk => true
      case FreshMid(n) => n in s.places && s.places[n] == Private && MidOf(s, s.writer.page) == NULL
      case ZeroedMid(n) => n in s.places && s.places[n] == Private && s.nodes[n] == Zeroed() && MidOf(s, s.writer.page) == NULL
      case FreshLeaf(n) =>
        && n in s.places && s.places[n] == Private
        && MidOf(s, s.writer.page) != NULL && LeafOf(s, s.writer.page) == NULL
      case ZeroedLeaf(n) =>
        && n in s.places && s.places[n] == Private && s.nodes[n] == Zeroed()
        && MidOf(s, s.writer.page) != NULL && LeafOf(s, s.writer.page) == NULL
  }

  ghost predicate Agrees(s: State)
    requires ROOT in s.nodes
  {
    forall page :: Found(s, page) == Get(s.entries, Slot(page))
  }

  /** A reader part way down still stands on the path of its page. */
  ghost predicate OnPath(s: State, r: Reader)
    requires ROOT in s.nodes
  {
    match r
    case AtMid(page, n) => n != NULL && n in s.nodes && n == MidOf(s, page)
    case AtLeaf(page, n) => n != NULL && n in s.nodes && n == LeafOf(s, page)
    case _ => true
  }

  ghost predicate Inv(s: State) {
    && Shape(s) && InHand(s) && Agrees(s)
    && forall id :: id in s.readers ==> OnPath(s, s.readers[id])
  }

  lemma InitInv(s: State)
    requires Init(s)
    ensures Inv(s)
  {
  }

  // ----- steps of the writer -----

  /** Published pointers are written once: what was on the path of a page stays there. */
  ghost predicate PathsKept(s: State, s': State)
    requires ROOT in s.nodes && ROOT in s'.nodes
  {
    && s.nodes.Keys <= s'.nodes.Keys
    && (forall page :: MidOf(s, page) != NULL ==> MidOf(s', page) == MidOf(s, page))
    && (forall page :: LeafOf(s, page) != NULL ==> LeafOf(s', page) == LeafOf(s, page))
  }

  lemma ReadersKept(s: State, s': State)
    requires ROOT in s.nodes && ROOT in s'.nodes && PathsKept(s, s') && s'.readers == s.readers
    requires forall id :: id in s.readers ==> OnPath(s, s.readers[id])
    ensures forall id :: id in s'.readers ==> OnPath(s', s'.readers[id])
  {
  }

  /** What must hold after a step of the writer. */
  ghost predicate WriterKeeps(s: State, s': State) {
    Shape(s) && Shape(s') && InHand(s') && Agrees(s') && PathsKept(s, s') && s'.readers == s.readers
  }

  lemma PathInside(s: State, page: nat)
    requires Shape(s)
    ensures MidOf(s, page) != NULL ==>
      MidOf(s, page) in s.nodes && s.places[MidOf(s, page)] == Mid(Idx1(page))
    ensures LeafOf(s, page) != NULL ==>
      MidOf(s, page) != NULL && LeafOf(s, page) in s.nodes && s.places[LeafOf(s, page)] == Leaf(Idx1(page), Idx2(page))
  {
  }

  lemma TakesKeeps(s: State, s': State, n: NodeId, words: Words, stage: Stage)
    requires Inv(s) && s.writer.Inserting? && Takes(s, s', n, words, stage)
    requires stage == if MidOf(s, s.writer.page) == NULL then FreshMid(n) else FreshLeaf(n)
    requires LeafOf(s, s.writer.page) == NULL
    ensures WriterKeeps(s, s')
  {
    forall page ensures MidOf(s', page) == MidOf(s, page) && LeafOf(s', page) == LeafOf(s, page) && Found(s', page) == Found(s, page) {
      PathInside(s, page);
    }
  }

  lemma ClearsKeeps(s: State, s': State, n: NodeId, stage: Stage)
    requires Inv(s) && s.writer.Inserting? && Clears(s, s', n, stage)
    requires s.writer.stage in {FreshMid(n), FreshLeaf(n)}
    requires stage == if s.writer.stage.FreshMid? then ZeroedMid(n) else ZeroedLeaf(n)
    ensures WriterKeeps(s, s')
  {
    forall page ensures MidOf(s', page) == MidOf(s, page) && LeafOf(s', page) == LeafOf(s, page) && Found(s', page) == Found(s, page) {
      PathInside(s, page);
    }
  }

  /** A cleared middle node changes nothing a walk can find. */
  lemma PublishesMidKeeps(s: State, s': State, n: NodeId)
    requires Inv(s) && s.writer.Inserting? && s.writer.stage == ZeroedMid(n)
    requires Publishes(s, s', ROOT, Idx1(s.writer.page), n, Mid(Idx1(s.writer.page)))
    ensures WriterKeeps(s, s')
  {
    forall page ensures
      && (MidOf(s, page) != NULL ==> MidOf(s', page) == MidOf(s, page))
      && LeafOf(s', page) == LeafOf(s, page) && Found(s', page) == Found(s, page)
    {
      PathInside(s, page);
    }
  }

  lemma PublishesLeafKeeps(s: State, s': State, n: NodeId)
    requires Inv(s) && s.writer.Inserting? && s.writer.stage == ZeroedLeaf(n)
    requires Publishes(s, s', MidOf(s, s.writer.page), Idx2(s.writer.page), n, Leaf(Idx1(s.writer.page), Idx2(s.writer.page)))
    ensures WriterKeeps(s, s')
  {
    PathInside(s, s.writer.page);
    forall page ensures
      && MidOf(s', page) == MidOf(s, page)
      && (LeafOf(s, page) != NULL ==> LeafOf(s', page) == LeafOf(s, page)) && Found(s', page) == Found(s, page)
    {
      PathInside(s, page);
    }
  }

  /** A store of data changes what is found for the pages of its slot, as it changes the map. */
  lemma StoredKeeps(s: State, page: nat, data: Ptr, w: Writer)
    requires Inv(s) && LeafOf(s, page) != NULL && LeafOf(s, page) in s.nodes
    requires w.Inserting? ==> w.stage == Walk
    ensures WriterKeeps(s, Stored(s, page, data).(writer := w))
  {
    var s' := Stored(s, page, data).(writer := w);
    PathInside(s, page);
    forall q ensures MidOf(s', q) == MidOf(s, q) && LeafOf(s', q) == LeafOf(s, q) {
      PathInside(s, q);
    }
    forall q ensures Found(s', q) == Get(s'.entries, Slot(q)) {
      PathInside(s, q);
      SameIndices(q, page);
      assert Found(s, q) == Get(s.entries, Slot(q));
    }
  }

  lemma InsertStepKeeps(s: State, s': State)
    requires Inv(s) && s.writer.Inserting? && InsertStep(s, s')
    ensures WriterKeeps(s, s')
  {
    match s.writer.stage
    case FreshMid(n) => ClearsKeeps(s, s', n, ZeroedMid(n));
    case ZeroedMid(n) => PublishesMidKeeps(s, s', n);
    case FreshLeaf(n) => ClearsKeeps(s, s', n, ZeroedLeaf(n));
    case ZeroedLeaf(n) => PublishesLeafKeeps(s, s', n);
    case Walk =>
      if GivesUp(s, s') {
        OnlyWriter(s, s', s'.writer);
      } else if MidOf(s, s.writer.page) == NULL {
        var n: nat, words: Words :| Takes(s, s', n, words, FreshMid(n));
        TakesKeeps(s, s', n, words, FreshMid(n));
      } else if LeafOf(s, s.writer.page) == NULL {
        var n: nat, words: Words :| Takes(s, s', n, words, FreshLeaf(n));
        TakesKeeps(s, s', n, words, FreshLeaf(n));
      } else {
        StoredKeeps(s, s.writer.page, s.writer.data, NextPage(s.writer));
      }
  }

  lemma OnlyWriter(s: State, s': State, w: Writer)
    requires Inv(s) && s' == s.(writer := w) && (w.Inserting? ==> w.stage == Walk)
    ensures WriterKeeps(s, s')
  {
    assert forall page :: MidOf(s', page) == MidOf(s, page) && LeafOf(s', page) == LeafOf(s, page);
    forall page ensures Found(s', page) == Get(s'.entries, Slot(page)) {
      assert Found(s, page) == Get(s.entries, Slot(page));
    }
  }

  lemma WriterStepInv(s: State, s': State)
    requires Inv(s) && WriterStep(s, s')
    ensures Inv(s')
  {
    if s.writer.Inserting? {
      InsertStepKeeps(s, s');
    } else if s.writer.RollingBack? && s.writer.page < s.writer.end && LeafOf(s, s.writer.page) != NULL {
      StoredKeeps(s, s.writer.page, NULL, RollingBack(s.writer.end, s.writer.page + 1));
    } else {
      OnlyWriter(s, s', s'.writer);
    }
    ReadersKept(s, s');
  }

  // ----- readers -----

  /** A load moves a reader along the path of its page, or ends the lookup with what the map
      holds for the page at this very instant. */
  lemma LoadOnPath(s: State, r: Reader)
    requires Inv(s) && OnPath(s, r) && !r.Done?
    ensures OnPath(s, Load(s, r)) && Load(s, r).page == r.page
    ensures Load(s, r).Done? ==> Load(s, r).result == Get(s.entries, Slot(r.page))
  {
    PathInside(s, r.page);
    assert Found(s, r.page) == Get(s.entries, Slot(r.page));
  }

  lemma ReaderStepInv(s: State, s': State, id: nat)
    requires Inv(s) && ReaderStep(s, s', id)
    ensures Inv(s')
  {
    if id in s.readers && !s.readers[id].Done? {
      LoadOnPath(s, s.readers[id]);
    }
    assert s'.readers == s.readers[id := s'.readers[id]];
    var r := s'.readers[id];
    assert s' == s.(readers := s.readers[id := r]);
    OnlyReader(s, id, r);
  }

  lemma OnlyReader(s: State, id: nat, r: Reader)
    requires Inv(s) && OnPath(s, r)
    ensures Inv(s.(readers := s.readers[id := r]))
  {
    var s' := s.(readers := s.readers[id := r]);
    assert forall page :: MidOf(s', page) == MidOf(s, page) && LeafOf(s', page) == LeafOf(s, page);
    forall page ensures Found(s', page) == Get(s'.entries, Slot(page)) {
      assert Found(s, page) == Get(s.entries, Slot(page));
    }
  }

  // ----- runs -----

  ghost predicate Next(s: State, s': State) {
    ROOT in s.nodes && (WriterStep(s, s') || exists id: nat :: ReaderStep(s, s', id))
  }

  ghost predicate Run(r: seq<State>) {
    && |r| > 0 && Init(r[0])
    && forall i :: 0 <= i < |r| - 1 ==> Next(r[i], r[i + 1])
  }

  lemma {:induction false} RunInv(r: seq<State>, k: nat)
    requires Run(r) && k < |r|
    ensures Inv(r[k])
  {
    if k == 0 {
      InitInv(r[0]);
    } else {
      RunInv(r, k - 1);
      var s, s' := r[k - 1], r[k];
      assert Next(s, s');
      if WriterStep(s, s') {
        WriterStepInv(s, s');
      } else {
        var id: nat :| ReaderStep(s, s', id);
        ReaderStepInv(s, s', id);
      }
    }
  }

  ghost predicate Under(s: State, id: nat, page: nat) {
    id in s.readers && !s.readers[id].Done? && s.readers[id].page == page
  }

  /** One step from a lookup under way: still under way for the same page, or done with the
      value the map holds for the page before the step. */
  lemma LookupStep(r: seq<State>, k: nat, id: nat, page: nat)
    requires Run(r) && k + 1 < |r| && Under(r[k], id, page)
    ensures Under(r[k + 1], id, page) ||
      (id in r[k + 1].readers && r[k + 1].readers[id] == Done(page, Get(r[k].entries, Slot(page))))
  {
    RunInv(r, k);
    var s, s' := r[k], r[k + 1];
    assert Next(s, s');
    if WriterStep(s, s') {
      if s.writer.Inserting? {
        InsertStepKeeps(s, s');
      }
    } else {
      var other: nat :| ReaderStep(s, s', other);
      LoadOnPath(s, s.readers[id]);
    }
  }

  /** Every lookup returns the value the map held for its page at some instant between its first
      load and its last. */
  lemma {:induction false} LookupLinearizes(r: seq<State>, i: nat, j: nat, id: nat, page: nat)
    requires Run(r) && i < j < |r| && Under(r[i], id, page)
    requires id in r[j].readers && r[j].readers[id].Done?
    requires forall k :: i <= k < j ==> id in r[k].readers && !r[k].readers[id].Done?
    ensures exists k :: i <= k < j && r[j].readers[id] == Done(page, Get(r[k].entries, Slot(page)))
    decreases j - i
  {
    LookupStep(r, i, id, page);
    if i + 1 < j {
      LookupLinearizes(r, i + 1, j, id, page);
    }
  }

  // ----- an insert from beginning to end -----

  ghost predicate HasLeaves(s: State, start: nat, end: nat)
    requires ROOT in s.nodes
  {
    forall q: nat :: start <= q < end ==> LeafOf(s, q) != NULL
  }

  /** How far the writer has come with an insert it began when the map was `was`. */
  ghost predicate Progress(was: map<nat, Ptr>, start: nat, end: nat, data: Ptr, s: State)
    requires ROOT in s.nodes
  {
    match s.writer
    case Idle => Completed(was, start, end, data, s) || TakenBack(was, start, end, s)
    case Inserting(start', end', page, data', _) =>
      && start' == start && end' == end && data' == data && start <= page < end
      && s.entries == Fill(was, start, page, data) && HasLeaves(s, start, page)
    case RollingBack(missing, page) =>
      && start <= page <= missing < end && LeafOf(s, missing) == NULL && HasLeaves(s, start, missing)
      && s.entries == Fill(Fill(was, start, missing, data), start, page, NULL)
  }

  /** Every page of the range holds the data, and the other slots what they held. */
  ghost predicate Completed(was: map<nat, Ptr>, start: nat, end: nat, data: Ptr, s: State) {
    forall slot: nat :: Get(s.entries, slot) == if InRange(slot, start, end) then data else Get(was, slot)
  }

  /** Every page before one that lacks a node holds null, and the other slots what they held. */
  ghost predicate TakenBack(was: map<nat, Ptr>, start: nat, end: nat, s: State)
    requires ROOT in s.nodes
  {
    exists missing: nat :: start <= missing < end && LeafOf(s, missing) == NULL &&
      forall slot: nat :: Get(s.entries, slot) == if InRange(slot, start, missing) then NULL else Get(was, slot)
  }

  lemma StoredPaths(s: State, page: nat, data: Ptr)
    requires Shape(s) && LeafOf(s, page) != NULL && LeafOf(s, page) in s.nodes
    ensures ROOT in Stored(s, page, data).nodes
    ensures forall q :: LeafOf(Stored(s, page, data), q) == LeafOf(s, q)
  {
    var s' := Stored(s, page, data);
    PathInside(s, page);
    forall q ensures LeafOf(s', q) == LeafOf(s, q) {
      PathInside(s, q);
    }
  }

  lemma SameNodes(s: State, s': State)
    requires ROOT in s.nodes && s'.nodes == s.nodes
    ensures forall q :: LeafOf(s', q) == LeafOf(s, q)
  {
  }

  /** What a completed fill comes to, slot by slot. */
  lemma FilledAll(was: map<nat, Ptr>, start: nat, end: nat, data: Ptr, s: State)
    requires s.entries == Fill(was, start, end, data)
    ensures Completed(was, start, end, data, s)
  {
    forall slot: nat ensures Get(s.entries, slot) == if InRange(slot, start, end) then data else Get(was, slot) {
      FillAt(was, start, end, data, slot);
    }
  }

  lemma FilledBack(was: map<nat, Ptr>, start: nat, end: nat, missing: nat, data: Ptr, s: State)
    requires ROOT in s.nodes && start <= missing < end && LeafOf(s, missing) == NULL
    requires s.entries == Fill(Fill(was, start, missing, data), start, missing, NULL)
    ensures TakenBack(was, start, end, s)
  {
    forall slot: nat ensures Get(s.entries, slot) == if InRange(slot, start, missing) then NULL else Get(was, slot) {
      FillAt(Fill(was, start, missing, data), start, missing, NULL, slot);
      FillAt(was, start, missing, data, slot);
    }
  }

  lemma RollbackProgress(was: map<nat, Ptr>, start: nat, end: nat, data: Ptr, s: State, s': State)
    requires Shape(s) && s.writer.RollingBack? && Progress(was, start, end, data, s) && RollbackStep(s, s')
    ensures ROOT in s'.nodes && Progress(was, start, end, data, s')
  {
    var (missing, page) := (s.writer.end, s.writer.page);
    if page >= missing {
      SameNodes(s, s');
      FilledBack(was, start, end, missing, data, s');
    } else {
      assert LeafOf(s, page) != NULL;
      StoredPaths(s, page, NULL);
      SameNodes(Stored(s, page, NULL), s');
    }
  }

  lemma ShapeOf(s: State)
    requires Inv(s)
    ensures Shape(s)
  {
  }

  lemma InsertProgress(was: map<nat, Ptr>, start: nat, end: nat, data: Ptr, s: State, s': State)
    requires WriterKeeps(s, s') && s.writer.Inserting? && Progress(was, start, end, data, s) && InsertStep(s, s')
    ensures ROOT in s'.nodes && Progress(was, start, end, data, s')
  {
    hide InHand, Agrees, Completed, TakenBack;
    var page := s.writer.page;
    if s.writer.stage.Walk? && MidOf(s, page) != NULL && LeafOf(s, page) != NULL {
      StoredPaths(s, page, data);
      StoresPage(was, start, end, data, s, s');
    } else if s.writer.stage.Walk? && GivesUp(s, s') {
      SameNodes(s, s');
    }
  }

  lemma StoresPage(was: map<nat, Ptr>, start: nat, end: nat, data: Ptr, s: State, s': State)
    requires ROOT in s.nodes && s.writer.Inserting? && Progress(was, start, end, data, s) && StoresData(s, s')
    requires ROOT in s'.nodes && LeafOf(s, s.writer.page) != NULL && forall q :: LeafOf(Stored(s, s.writer.page, data), q) == LeafOf(s, q)
    ensures Progress(was, start, end, data, s')
  {
    hide Completed, TakenBack, LeafOf;
    var page := s.writer.page;
    SameNodes(Stored(s, page, data), s');
    assert s'.entries == Fill(was, start, page + 1, data);
    if page + 1 >= end {
      FilledAll(was, start, end, data, s');
    }
  }

  lemma StepProgress(was: map<nat, Ptr>, start: nat, end: nat, data: Ptr, s: State, s': State)
    requires Inv(s) && !s.writer.Idle? && Progress(was, start, end, data, s) && Next(s, s')
    ensures ROOT in s'.nodes && Progress(was, start, end, data, s')
  {
    ShapeOf(s);
    hide InHand, Agrees;
    if WriterStep(s, s') {
      if s.writer.Inserting? {
        InsertStepKeeps(s, s');
        InsertProgress(was, start, end, data, s, s');
      } else {
        RollbackProgress(was, start, end, data, s, s');
      }
    } else {
      var id: nat :| ReaderStep(s, s', id);
      assert s'.nodes == s.nodes && s'.entries == s.entries && s'.writer == s.writer;
      SameNodes(s, s');
    }
  }

  lemma {:induction false} RunProgress(r: seq<State>, i: nat, j: nat, start: nat, end: nat, data: Ptr)
    requires Run(r) && i < j < |r| && r[i].writer.Idle? && r[i + 1].writer == Inserting(start, end, start, data, Walk)
    requires forall k :: i < k < j ==> !r[k].writer.Idle?
    ensures ROOT in r[j].nodes && Progress(r[i].entries, start, end, data, r[j])
    decreases j - i
  {
    hide Inv, Progress, WriterStep;
    RunInv(r, j - 1);
    assert Next(r[j - 1], r[j]);
    if j == i + 1 {
      Begins(r[i], r[j], start, end, data);
    } else {
      RunProgress(r, i, j - 1, start, end, data);
      StepProgress(r[i].entries, start, end, data, r[j - 1], r[j]);
    }
  }

  lemma Begins(s: State, s': State, start: nat, end: nat, data: Ptr)
    requires Next(s, s') && s.writer.Idle? && s'.writer == Inserting(start, end, start, data, Walk)
    ensures ROOT in s'.nodes && Progress(s.entries, start, end, data, s')
  {
  }

  /** An insert that has come to its end, whatever readers did meanwhile, has either given every page
      of its range the data, or found a page that lacks a node, which it still does, and left null in
      every page before that one. Nothing else has changed. */
  lemma InsertEnds(r: seq<State>, i: nat, j: nat, start: nat, end: nat, data: Ptr)
    requires Run(r) && i < j < |r| && r[i].writer.Idle? && r[i + 1].writer == Inserting(start, end, start, data, Walk)
    requires (forall k :: i < k < j ==> !r[k].writer.Idle?) && r[j].writer.Idle?
    ensures ROOT in r[j].nodes
    ensures Completed(r[i].entries, start, end, data, r[j]) || TakenBack(r[i].entries, start, end, r[j])
  {
    RunProgress(r, i, j, start, end, data);
  }

  // ----- inserts and lookups come to an end, and an insert fails only for want of a node -----

  /** Stores up to the one of the data, for the page the writer is at. */
  function StoresLeft(s: State): nat
    requires ROOT in s.nodes && s.writer.Inserting?
  {
    match s.writer.stage
    case Walk => if MidOf(s, s.writer.page) == NULL then 6 else if LeafOf(s, s.writer.page) == NULL then 3 else 0
    case FreshMid(_) => 5
    case ZeroedMid(_) => 4
    case FreshLeaf(_) => 2
    case ZeroedLeaf(_) => 1
  }

  /** A bound on the steps left to the writer. */
  function WorkLeft(s: State): nat
    requires ROOT in s.nodes
  {
    match s.writer
    case Idle => 0
    case Inserting(start, end, page, _, _) =>
      8 * (if page < end then end - page else 0) + (if start < page then page - start else 0) + StoresLeft(s) + 2
    case RollingBack(end, page) => 1 + if page < end then end - page else 0
  }

  lemma PublishedMid(s: State, s': State, n: NodeId)
    requires Inv(s) && s.writer.Inserting? && s.writer.stage == ZeroedMid(n)
    requires Publishes(s, s', ROOT, Idx1(s.writer.page), n, Mid(Idx1(s.writer.page)))
    ensures ROOT in s'.nodes && MidOf(s', s.writer.page) == n != NULL
    ensures forall q :: LeafOf(s', q) == LeafOf(s, q)
  {
    forall q ensures LeafOf(s', q) == LeafOf(s, q) {
      PathInside(s, q);
    }
  }

  lemma PublishedLeaf(s: State, s': State, n: NodeId)
    requires Inv(s) && s.writer.Inserting? && s.writer.stage == ZeroedLeaf(n)
    requires Publishes(s, s', MidOf(s, s.writer.page), Idx2(s.writer.page), n, Leaf(Idx1(s.writer.page), Idx2(s.writer.page)))
    ensures ROOT in s'.nodes && MidOf(s', s.writer.page) != NULL && LeafOf(s', s.writer.page) == n != NULL
    ensures forall q :: LeafOf(s', q) == if SameLeaf(q, s.writer.page) then n else LeafOf(s, q)
  {
    PathInside(s, s.writer.page);
    forall q ensures LeafOf(s', q) == if SameLeaf(q, s.writer.page) then n else LeafOf(s, q) {
      PathInside(s, q);
    }
  }

  /** Two pages whose entries are words of one node. */
  predicate SameLeaf(p: nat, q: nat) {
    Idx1(p) == Idx1(q) && Idx2(p) == Idx2(q)
  }

  /** A step of the writer leaves it less to do. */
  lemma WorkGoesDown(s: State, s': State)
    requires Inv(s) && !s.writer.Idle? && WriterStep(s, s')
    ensures ROOT in s'.nodes && WorkLeft(s') < WorkLeft(s)
  {
    ShapeOf(s);
    if s.writer.Inserting? {
      InsertDown(s, s');
    }
  }

  lemma InsertDown(s: State, s': State)
    requires Inv(s) && s.writer.Inserting? && InsertStep(s, s')
    ensures ROOT in s'.nodes && WorkLeft(s') < WorkLeft(s)
  {
    match s.writer.stage
    case ZeroedMid(n) => PublishedMid(s, s', n);
    case ZeroedLeaf(n) => PublishedLeaf(s, s', n);
    case FreshMid(_) =>
    case FreshLeaf(_) =>
    case Walk =>
      if StoresData(s, s') && LeafOf(s, s.writer.page) != NULL {
        StoredPaths(s, s.writer.page, s.writer.data);
      }
  }

  /** A node the pool has not given yet. */
  lemma {:induction false} FreshNode(used: set<NodeId>) returns (n: NodeId)
    ensures n != NULL && forall m :: m in used ==> m < n
  {
    if used == {} {
      n := 1;
    } else {
      var m :| m in used;
      var below := FreshNode(used - {m});
      n := if below <= m then m + 1 else below;
      forall k | k in used ensures k < n {
        assert k == m || k in used - {m};
      }
    }
  }

  /** One step on in the same insert: at the same page, or past it with its data stored. */
  predicate Moves(s: State, s': State)
    requires s.writer.Inserting?
  {
    var w := s.writer;
    match s'.writer
    case Idle => w.page + 1 >= w.end && s'.entries == s.entries[Slot(w.page) := w.data]
    case RollingBack(_, _) => false
    case Inserting(start, end, page, data, stage) =>
      && start == w.start && end == w.end && data == w.data
      && if page == w.page then s'.entries == s.entries
         else page == w.page + 1 < end && stage.Walk? && s'.entries == s.entries[Slot(w.page) := data]
  }

  /** The writer is never held up, and where a node is missing the pool may have one or not. */
  lemma CanGoOn(s: State) returns (s': State)
    requires Inv(s) && s.writer.Inserting? && s.writer.start <= s.writer.page < s.writer.end
    ensures WriterStep(s, s') && !s'.writer.RollingBack?
    ensures ROOT in s'.nodes && WorkLeft(s') < WorkLeft(s)
    ensures forall q :: LeafOf(s', q) != LeafOf(s, q) ==> SameLeaf(q, s.writer.page)
    ensures Moves(s, s')
  {
    PathInside(s, s.writer.page);
    var page := s.writer.page;
    match s.writer.stage {
      case Walk =>
        if LeafOf(s, page) != NULL {
          StoredPaths(s, page, s.writer.data);
          s' := Stored(s, page, s.writer.data).(writer := NextPage(s.writer));
          SameNodes(Stored(s, page, s.writer.data), s');
        } else {
          var n := FreshNode(s.nodes.Keys);
          s' := TakeNode(s, n, if MidOf(s, page) == NULL then FreshMid(n) else FreshLeaf(n));
        }
      case FreshMid(n) => s' := ClearNode(s, n, ZeroedMid(n));
      case FreshLeaf(n) => s' := ClearNode(s, n, ZeroedLeaf(n));
      case ZeroedMid(n) =>
        s' := Poke(s, ROOT, Idx1(page), n).(places := s.places[n := Mid(Idx1(page))], writer := s.writer.(stage := Walk));
        PublishedMid(s, s', n);
      case ZeroedLeaf(n) =>
        s' := Poke(s, MidOf(s, page), Idx2(page), n)
          .(places := s.places[n := Leaf(Idx1(page), Idx2(page))], writer := s.writer.(stage := Walk));
        PublishedLeaf(s, s', n);
    }
    WorkGoesDown(s, s');
  }

  lemma TakeNode(s: State, n: NodeId, stage: Stage) returns (s': State)
    requires Inv(s) && s.writer.Inserting? && n != NULL && n !in s.nodes
    ensures Takes(s, s', n, Zeroed(), stage)
    ensures ROOT in s'.nodes && forall q :: LeafOf(s', q) == LeafOf(s, q)
  {
    s' := s.(nodes := s.nodes[n := Zeroed()], places := s.places[n := Private], writer := s.writer.(stage := stage));
    forall q ensures LeafOf(s', q) == LeafOf(s, q) {
      PathInside(s, q);
    }
  }

  lemma ClearNode(s: State, n: NodeId, stage: Stage) returns (s': State)
    requires Inv(s) && s.writer.Inserting? && s.writer.stage in {FreshMid(n), FreshLeaf(n)}
    ensures Clears(s, s', n, stage)
    ensures ROOT in s'.nodes && forall q :: LeafOf(s', q) == LeafOf(s, q)
  {
    s' := s.(nodes := s.nodes[n := Zeroed()], writer := s.writer.(stage := stage));
    forall q ensures LeafOf(s', q) == LeafOf(s, q) {
      PathInside(s, q);
    }
  }

  ghost predicate WriterRun(r: seq<State>) {
    |r| > 0 && forall i :: 0 <= i < |r| - 1 ==> ROOT in r[i].nodes && WriterStep(r[i], r[i + 1])
  }

  lemma Prepend(s: State, r: seq<State>)
    requires WriterRun(r) && ROOT in s.nodes && WriterStep(s, r[0])
    ensures WriterRun([s] + r)
  {
  }

  /** An insert under way, as its run has left things. */
  ghost predicate Midway(was: map<nat, Ptr>, s: State) {
    && Inv(s) && ROOT in s.nodes && s.writer.Inserting? && s.writer.start <= s.writer.page < s.writer.end
    && s.entries == Fill(was, s.writer.start, s.writer.page, s.writer.data)
    && HasLeaves(s, s.writer.start, s.writer.page)
  }

  lemma MidwayOn(was: map<nat, Ptr>, s: State, s': State)
    requires Midway(was, s) && WriterStep(s, s') && Moves(s, s')
    ensures Inv(s') && ROOT in s'.nodes
    ensures s'.writer.Inserting? ==> Midway(was, s')
    ensures s'.writer.Idle? ==> s'.entries == Fill(was, s.writer.start, s.writer.end, s.writer.data)
  {
    hide Shape, InHand, Agrees, OnPath, Completed, TakenBack, InsertStep;
    WriterStepInv(s, s');
    InsertStepKeeps(s, s');
    if s'.writer.Inserting? {
      InsertProgress(was, s.writer.start, s.writer.end, s.writer.data, s, s');
    }
  }

  /** Given nodes, the writer comes to any later page of its range, or to the end of it, and touches
      no leaf that none of the pages before has a word in. */
  lemma {:induction false} Reaches(was: map<nat, Ptr>, s: State, stop: nat) returns (r: seq<State>)
    requires Midway(was, s) && s.writer.page <= stop <= s.writer.end
    requires s.writer.page == stop ==> s.writer.stage.Walk?
    requires stop < s.writer.end ==> forall q: nat :: s.writer.page <= q < stop ==> !SameLeaf(stop, q)
    ensures WriterRun(r) && r[0] == s
    ensures var t := r[|r| - 1];
      if stop < s.writer.end then
        Midway(was, t) && t.writer == s.writer.(page := stop, stage := Walk) && LeafOf(t, stop) == LeafOf(s, stop)
      else
        Inv(t) && t.writer.Idle? && t.entries == Fill(was, s.writer.start, s.writer.end, s.writer.data)
    decreases WorkLeft(s)
  {
    hide Inv, WriterStep, LeafOf, WorkLeft, SameLeaf, HasLeaves, Fill;
    if s.writer.page == stop {
      r := [s];
    } else {
      var s' := CanGoOn(s);
      MidwayOn(was, s, s');
      if s'.writer.Idle? {
        r := [s, s'];
      } else {
        r := Reaches(was, s', stop);
        Prepend(s, r);
        r := [s] + r;
      }
    }
  }

  /** A rollback under way. */
  lemma {:induction false} RollsBack(was: map<nat, Ptr>, s: State, start: nat) returns (r: seq<State>)
    requires Inv(s) && s.writer.RollingBack? && start <= s.writer.page <= s.writer.end
    requires s.entries == Fill(was, start, s.writer.page, NULL) && HasLeaves(s, start, s.writer.end)
    ensures WriterRun(r) && r[0] == s && r[|r| - 1].writer.Idle?
    ensures r[|r| - 1].entries == Fill(was, start, s.writer.end, NULL)
    decreases s.writer.end - s.writer.page
  {
    hide InHand, Agrees, OnPath, Poke;
    var page, end := s.writer.page, s.writer.end;
    if page == end {
      r := [s, s.(writer := Idle)];
    } else {
      PathInside(s, page);
      StoredPaths(s, page, NULL);
      var s' := Stored(s, page, NULL).(writer := RollingBack(end, page + 1));
      SameNodes(Stored(s, page, NULL), s');
      WriterStepInv(s, s');
      r := RollsBack(was, s', start);
      Prepend(s, r);
      r := [s] + r;
    }
  }

  lemma Starts(s: State, start: nat, end: nat, data: Ptr) returns (b: State)
    requires Inv(s) && s.writer.Idle? && start < end
    ensures b == s.(writer := Inserting(start, end, start, data, Walk)) && ROOT in s.nodes
    ensures WriterStep(s, b) && Midway(s.entries, b)
  {
    b := s.(writer := Inserting(start, end, start, data, Walk));
    WriterStepInv(s, b);
  }

  /** With nodes to be had, an insert succeeds: there is a run of the writer alone at the end of which
      every page of the range holds the data. */
  lemma InsertCanSucceed(s: State, start: nat, end: nat, data: Ptr) returns (r: seq<State>)
    requires Inv(s) && s.writer.Idle? && start < end
    ensures WriterRun(r) && |r| > 2 && r[0] == s && r[1] == s.(writer := Inserting(start, end, start, data, Walk))
    ensures r[|r| - 1].writer.Idle? && Completed(s.entries, start, end, data, r[|r| - 1])
  {
    var b := Starts(s, start, end, data);
    hide Inv, WriterStep, Completed;
    r := Reaches(s.entries, b, end);
    Prepend(s, r);
    r := [s] + r;
    FilledAll(s.entries, start, end, data, r[|r| - 1]);
  }

  /** And it can fail at any page that lacks a node before it begins and has none in common with the
      pages before: then null is left in those. */
  lemma InsertCanFail(s: State, start: nat, end: nat, data: Ptr, missing: nat) returns (r: seq<State>)
    requires Inv(s) && s.writer.Idle? && start <= missing < end && LeafOf(s, missing) == NULL
    requires forall q: nat :: start <= q < missing ==> !SameLeaf(missing, q)
    ensures WriterRun(r) && |r| > 2 && r[0] == s && r[1] == s.(writer := Inserting(start, end, start, data, Walk))
    ensures r[|r| - 1].writer.Idle?
    ensures forall slot: nat ::
      Get(r[|r| - 1].entries, slot) == if InRange(slot, start, missing) then NULL else Get(s.entries, slot)
  {
    var b := Starts(s, start, end, data);
    SameNodes(s, b);
    var up := Reaches(s.entries, b, missing);
    var t := up[|up| - 1];
    var g := t.(writer := RollingBack(missing, start));
    GivesUpAt(s.entries, t, g);
    var back := RollsBack(t.entries, g, start);
    Joined(s, up, back);
    r := [s] + (up + back);
    forall slot: nat ensures
      Get(r[|r| - 1].entries, slot) == if InRange(slot, start, missing) then NULL else Get(s.entries, slot)
    {
      FillAt(t.entries, start, missing, NULL, slot);
      FillAt(s.entries, start, missing, data, slot);
    }
  }

  lemma GivesUpAt(was: map<nat, Ptr>, t: State, g: State)
    requires Midway(was, t) && t.writer.stage.Walk? && LeafOf(t, t.writer.page) == NULL
    requires g == t.(writer := RollingBack(t.writer.page, t.writer.start))
    ensures WriterStep(t, g) && Inv(g) && HasLeaves(g, t.writer.start, t.writer.page)
  {
    SameNodes(t, g);
    WriterStepInv(t, g);
  }

  lemma Joined(s: State, up: seq<State>, back: seq<State>)
    requires WriterRun(up) && WriterRun(back) && ROOT in s.nodes && WriterStep(s, up[0])
    requires ROOT in up[|up| - 1].nodes && WriterStep(up[|up| - 1], back[0])
    ensures WriterRun([s] + (up + back))
  {
    var r := up + back;
    forall i | 0 <= i < |r| - 1 ensures ROOT in r[i].nodes && WriterStep(r[i], r[i + 1]) {
      if i < |up| - 1 {
        assert r[i] == up[i] && r[i + 1] == up[i + 1];
      } else if i == |up| - 1 {
        assert r[i] == up[i] && r[i + 1] == back[0];
      } else {
        assert r[i] == back[i - |up|] && r[i + 1] == back[i - |up| + 1];
      }
    }
    Prepend(s, r);
  }

  /** Loads left to a lookup. */
  function LoadsLeft(r: Reader): nat {
    match r
    case Asking(_) => 3
    case AtMid(_, _) => 2
    case AtLeaf(_, _) => 1
    case Done(_, _) => 0
  }

  /** A lookup waits for nobody and takes three loads at most: it can always go on, and each step of its
      own leaves it fewer loads. */
  lemma LookupWaitFree(s: State, id: nat, page: nat) returns (next: State)
    requires Inv(s) && Under(s, id, page)
    ensures 0 < LoadsLeft(s.readers[id]) <= 3
    ensures ROOT in s.nodes && ReaderStep(s, next, id)
    ensures forall s': State :: ReaderStep(s, s', id) ==>
      id in s'.readers && LoadsLeft(s'.readers[id]) < LoadsLeft(s.readers[id])
  {
    next := s.(readers := s.readers[id := Load(s, s.readers[id])]);
  }

  ghost predicate InBounds(s: State) {
    s.writer.Inserting? ==> s.writer.start <= s.writer.page < s.writer.end
  }

  lemma {:induction false} RunInBounds(r: seq<State>, k: nat)
    requires Run(r) && k < |r|
    ensures InBounds(r[k])
  {
    if k > 0 {
      RunInBounds(r, k - 1);
      assert Next(r[k - 1], r[k]);
      StepInBounds(r[k - 1], r[k]);
    }
  }

  lemma StepInBounds(s: State, s': State)
    requires InBounds(s) && Next(s, s')
    ensures InBounds(s')
  {
  }

  /** An insert is never held up either: in every state of every run where one has not ended, the
      writer can go on, and every step of it leaves it less to do. */
  lemma WriterWaitFree(r: seq<State>, k: nat) returns (next: State)
    requires Run(r) && k < |r| && !r[k].writer.Idle?
    ensures ROOT in r[k].nodes && WriterStep(r[k], next)
    ensures forall s': State :: WriterStep(r[k], s') ==> ROOT in s'.nodes && WorkLeft(s') < WorkLeft(r[k])
  {
    RunInv(r, k);
    RunInBounds(r, k);
    next := CanStep(r[k]);
  }

  lemma CanStep(s: State) returns (next: State)
    requires Inv(s) && !s.writer.Idle? && InBounds(s)
    ensures ROOT in s.nodes && WriterStep(s, next)
    ensures forall s': State :: WriterStep(s, s') ==> ROOT in s'.nodes && WorkLeft(s') < WorkLeft(s)
  {
    if s.writer.Inserting? {
      next := CanGoOn(s);
    } else {
      PathInside(s, s.writer.page);
      next := if s.writer.page >= s.writer.end then s.(writer := Idle)
        else if LeafOf(s, s.writer.page) == NULL then s.(writer := RollingBack(s.writer.end, s.writer.page + 1))
        else Stored(s, s.writer.page, NULL).(writer := RollingBack(s.writer.end, s.writer.page + 1));
    }
    forall s': State | WriterStep(s, s') ensures ROOT in s'.nodes && WorkLeft(s') < WorkLeft(s) {
      WorkGoesDown(s, s');
    }
  }
}
