/** The fixed-size object pool: chunks carved from the top, and an intrusive free list. */
module ObjectPool {
  import opened Bits
  import opened Lists
  import opened SizeClasses

  const DEFAULT_ALIGN: nat := 8
  const DEFAULT_NOBJS_CHUNK: nat := 256
  /** A chunk starts with a pointer and a counter; a free object holds a pointer. */
  const CHUNK_HEADER: nat := 16
  const LINK_SIZE: nat := 8

  datatype Geometry = Geometry(align: nat, header: nat, slab: nat, chunk: nat)

  /** What carving relies on. */
  ghost predicate Sound(g: Geometry) {
    && g.align > 0 && g.slab >= LINK_SIZE && g.slab % g.align == 0
    && g.header >= CHUNK_HEADER && g.header % g.align == 0
    && g.chunk % g.align == 0 && g.chunk >= g.header + g.slab
  }

  // ----- objpool_init -----

  /** The chunk's size before and after rounding; the rounding wraps around at 2^64. */
  function ObjpoolInit(align0: nat, nbytesObj: nat, nobjs0: nat, page: nat): Option<Geometry>
    requires page > 0
  {
    var align := if align0 == 0 then DEFAULT_ALIGN else align0;
    var nobjs := if nobjs0 == 0 then DEFAULT_NOBJS_CHUNK else nobjs0;
    if !PowerOfTwo(align) then None
    else
      var slab := AlignUp(if nbytesObj > LINK_SIZE then nbytesObj else LINK_SIZE, align);
      var header := AlignUp(CHUNK_HEADER, align);
      if header >= SIZE_LIMIT || nobjs > (SIZE_LIMIT - 1 - header) / slab then None
      else Some(Geometry(align, header, slab, RoundWord(header + slab * nobjs, if align <= page then page else align)))
  }

  function RoundWord(n: nat, unit: nat): nat
    requires unit > 0
  {
    FloorTo((n + unit - 1) % SIZE_LIMIT, unit)
  }

  lemma TimesBelow(x: nat, n: nat, limit: nat)
    requires x > 0 && n <= limit / x
    ensures x * n <= limit
  {
    MulMono(n, limit / x, x);
  }

  function Objects(nobjs: nat): nat {
    if nobjs == 0 then DEFAULT_NOBJS_CHUNK else nobjs
  }

  function Unit(g: Geometry, page: nat): nat {
    if g.align <= page then page else g.align
  }

  lemma InitFacts(align: nat, nbytesObj: nat, nobjs: nat, page: nat)
    requires page > 0 && ObjpoolInit(align, nbytesObj, nobjs, page).Some?
    ensures var g := ObjpoolInit(align, nbytesObj, nobjs, page).value;
      && g.slab > 0 && 0 < g.header < SIZE_LIMIT && Objects(nobjs) <= (SIZE_LIMIT - 1 - g.header) / g.slab
      && 0 < Unit(g, page) && g.chunk == RoundWord(g.header + g.slab * Objects(nobjs), Unit(g, page))
      && (g.align == align || g.align == DEFAULT_ALIGN)
  {
    hide RoundWord, IsPow2;
  }

  lemma UnitBelow(align: nat, page: nat, g: Geometry)
    requires page < SIZE_LIMIT && align < SIZE_LIMIT && (g.align == align || g.align == DEFAULT_ALIGN)
    ensures Unit(g, page) < SIZE_LIMIT
  {
  }

  /** The check on the number of objects keeps the chunk below 2^64, but not its rounding: a chunk
      holds what was asked for exactly when the rounding does not wrap. */
  lemma ChunkHoldsIff(align: nat, nbytesObj: nat, nobjs: nat, page: nat)
    requires IsPow2(page) && 0 < page < SIZE_LIMIT && align < SIZE_LIMIT && ObjpoolInit(align, nbytesObj, nobjs, page).Some?
    ensures var g := ObjpoolInit(align, nbytesObj, nobjs, page).value; var total := g.header + g.slab * Objects(nobjs);
      && total < SIZE_LIMIT && (g.chunk >= total <==> total + Unit(g, page) <= SIZE_LIMIT)
  {
    hide ObjpoolInit, IsPow2, AlignUp, RoundWord, Objects, Unit;
    InitFacts(align, nbytesObj, nobjs, page);
    UnitBelow(align, page, ObjpoolInit(align, nbytesObj, nobjs, page).value);
    var g := ObjpoolInit(align, nbytesObj, nobjs, page).value;
    TimesBelow(g.slab, Objects(nobjs), SIZE_LIMIT - 1 - g.header);
    RoundHolds(g.header + g.slab * Objects(nobjs), Unit(g, page));
  }

  lemma RoundHolds(n: nat, unit: nat)
    requires 0 < unit < SIZE_LIMIT && 0 < n < SIZE_LIMIT
    ensures RoundWord(n, unit) >= n <==> n + unit <= SIZE_LIMIT
  {
    var x := n + unit - 1;
    if x < SIZE_LIMIT {
      DivUnique(x, SIZE_LIMIT, 0, x);
    } else {
      DivUnique(x, SIZE_LIMIT, 1, x - SIZE_LIMIT);
    }
  }

  /** A pool is refused exactly if the alignment is no power of two or a chunk of that many objects does
      not fit 64 bits. */
  lemma InitAcceptsIff(align: nat, nbytesObj: nat, nobjs: nat, page: nat)
    requires page > 0 && align < SIZE_LIMIT
    ensures var al := if align == 0 then DEFAULT_ALIGN else align;
      ObjpoolInit(align, nbytesObj, nobjs, page).Some? <==>
        IsPow2(al) && AlignUp(CHUNK_HEADER, al) + Objects(nobjs) * AlignUp(if nbytesObj > LINK_SIZE then nbytesObj else LINK_SIZE, al) < SIZE_LIMIT
  {
    var al := if align == 0 then DEFAULT_ALIGN else align;
    if PowerOfTwo(al) {
      var (slab, header) := (AlignUp(if nbytesObj > LINK_SIZE then nbytesObj else LINK_SIZE, al), AlignUp(CHUNK_HEADER, al));
      FitsIff(slab, Objects(nobjs), header);
    }
  }

  lemma FitsIff(slab: nat, n: nat, header: nat)
    requires slab > 0 && n > 0
    ensures header >= SIZE_LIMIT || n > (SIZE_LIMIT - 1 - header) / slab <==> header + n * slab >= SIZE_LIMIT
  {
    if header < SIZE_LIMIT {
      var room := SIZE_LIMIT - 1 - header;
      if n <= room / slab {
        TimesBelow(slab, n, room);
      } else {
        MulMono(room / slab + 1, n, slab);
        assert (room / slab + 1) * slab == room / slab * slab + slab;
      }
    } else {
      MulMono(1, n, slab);
    }
  }

  /** An object gets the bytes asked for, and less than one alignment more. */
  lemma InitSizes(align: nat, nbytesObj: nat, nobjs: nat, page: nat)
    requires page > 0 && ObjpoolInit(align, nbytesObj, nobjs, page).Some?
    ensures var g := ObjpoolInit(align, nbytesObj, nobjs, page).value; var need := if nbytesObj > LINK_SIZE then nbytesObj else LINK_SIZE;
      && need <= g.slab < need + g.align && CHUNK_HEADER <= g.header < CHUNK_HEADER + g.align
      && g.align == if align == 0 then DEFAULT_ALIGN else align
  {
  }

  /** Short of wrapping, the geometry is sound. */
  lemma InitSound(align: nat, nbytesObj: nat, nobjs: nat, page: nat)
    requires IsPow2(page) && 0 < page < SIZE_LIMIT && align < SIZE_LIMIT && ObjpoolInit(align, nbytesObj, nobjs, page).Some?
    requires var g := ObjpoolInit(align, nbytesObj, nobjs, page).value;
      g.header + g.slab * Objects(nobjs) + Unit(g, page) <= SIZE_LIMIT
    ensures Sound(ObjpoolInit(align, nbytesObj, nobjs, page).value)
  {
    var g := ObjpoolInit(align, nbytesObj, nobjs, page).value;
    ChunkHoldsIff(align, nbytesObj, nobjs, page);
    assert IsPow2(g.align);
    assert g.slab % g.align == 0 && g.header % g.align == 0 && g.chunk % Unit(g, page) == 0;
    MulMono(1, Objects(nobjs), g.slab);
    if g.align <= page {
      SmallerDivides(g.align, page);
      ModTrans(g.chunk, g.align, page);
    }
  }

  // ----- the pool -----

  type Addr = int

  datatype Chunk = Chunk(prev: Option<Addr>, free: nat)

  function Nth(s: seq<Addr>, i: nat): Option<Addr> {
    if i < |s| then Some(s[i]) else None
  }

  /** `s` is the list that starts at its first element and follows the links. */
  ghost predicate Chain(links: map<Addr, Option<Addr>>, s: seq<Addr>) {
    Distinct(s) && forall i :: 0 <= i < |s| ==> s[i] in links && links[s[i]] == Nth(s, i + 1)
  }

  ghost function Elems(s: seq<Addr>): set<Addr> {
    set x | x in s
  }

  ghost predicate ChunkChain(chunks: map<Addr, Chunk>, s: seq<Addr>) {
    && Distinct(s) && Elems(s) == chunks.Keys
    && forall i :: 0 <= i < |s| ==> s[i] in chunks && chunks[s[i]].prev == Nth(s, i + 1)
  }

  /** The object numbered `k` from the top of chunk `c`. */
  function ObjectAt(g: Geometry, c: Addr, k: nat): Addr {
    c + g.chunk - k * g.slab
  }

  /** What has been carved off a chunk: objects 1 to `k` from the top. */
  ghost predicate Carved(g: Geometry, chunks: map<Addr, Chunk>, c: Addr, k: nat) {
    c in chunks && 1 <= k && g.header + chunks[c].free + k * g.slab <= g.chunk
  }

  ghost predicate ChunksOk(g: Geometry, chunks: map<Addr, Chunk>)
    requires g.align > 0
  {
    && (forall c :: c in chunks ==> c > 0 && c % g.align == 0 && exists k: nat :: g.header + chunks[c].free + k * g.slab == g.chunk)
    && (forall c, d :: c in chunks && d in chunks && c != d ==> c + g.chunk <= d || d + g.chunk <= c)
  }

  /** `home` tells which chunk each object was carved from, and as the how manieth. */
  ghost predicate HomesOk(g: Geometry, chunks: map<Addr, Chunk>, home: map<Addr, (Addr, nat)>) {
    && (forall x :: x in home ==> Carved(g, chunks, home[x].0, home[x].1) && x == ObjectAt(g, home[x].0, home[x].1))
    && (forall c: Addr, k: nat :: Carved(g, chunks, c, k) ==> ObjectAt(g, c, k) in home && home[ObjectAt(g, c, k)] == (c, k))
  }

  /** An object lies past its chunk's header, inside the chunk, and is aligned. */
  lemma ObjectPlace(g: Geometry, chunks: map<Addr, Chunk>, c: Addr, k: nat)
    requires Sound(g) && ChunksOk(g, chunks) && Carved(g, chunks, c, k)
    ensures c + g.header <= ObjectAt(g, c, k) && ObjectAt(g, c, k) + g.slab <= c + g.chunk
    ensures ObjectAt(g, c, k) % g.align == 0
  {
    MulMono(1, k, g.slab);
    Multiple(g.slab, k, g.align);
    ModAdd(c, g.chunk, g.align);
    ModSub(c + g.chunk, k * g.slab, g.align);
  }

  lemma Multiple(x: nat, k: nat, d: Addr)
    requires d > 0 && x % d == 0
    ensures (k * x) % d == 0
  {
    assert k * x == d * (k * (x / d)) by {
      assert x == d * (x / d);
      assert k * (d * (x / d)) == d * (k * (x / d));
    }
    MulDiv(d, k * (x / d));
  }

  /** Two objects never overlap. */
  lemma ObjectsApart(g: Geometry, chunks: map<Addr, Chunk>, c: Addr, k: nat, d: Addr, l: nat)
    requires Sound(g) && ChunksOk(g, chunks) && Carved(g, chunks, c, k) && Carved(g, chunks, d, l) && (c, k) != (d, l)
    ensures ObjectAt(g, c, k) + g.slab <= ObjectAt(g, d, l) || ObjectAt(g, d, l) + g.slab <= ObjectAt(g, c, k)
  {
    if c == d {
      var (i, j) := if k < l then (k, l) else (l, k);
      MulMono(i + 1, j, g.slab);
      assert (i + 1) * g.slab == i * g.slab + g.slab;
    } else {
      ObjectPlace(g, chunks, c, k);
      ObjectPlace(g, chunks, d, l);
    }
  }

  // ----- carving one more object -----

  /** The chunk's counter went down by one object, the `k`th. */
  ghost predicate CarvedNext(g: Geometry, chunks: map<Addr, Chunk>, c: Addr, k: nat) {
    c in chunks && 1 <= k && g.header + chunks[c].free + (k - 1) * g.slab == g.chunk && chunks[c].free >= g.slab
  }

  function TakeFrom(g: Geometry, chunks: map<Addr, Chunk>, c: Addr): map<Addr, Chunk>
    requires c in chunks && chunks[c].free >= g.slab
  {
    chunks[c := chunks[c].(free := chunks[c].free - g.slab)]
  }

  lemma OneLess(slab: nat, k: nat)
    requires k >= 1
    ensures k * slab == (k - 1) * slab + slab
  {
  }

  /** Exactly one more object counts as carved. */
  lemma TakeCarves(g: Geometry, chunks: map<Addr, Chunk>, c: Addr, k: nat)
    requires Sound(g) && CarvedNext(g, chunks, c, k)
    ensures forall d: Addr, l: nat :: Carved(g, TakeFrom(g, chunks, c), d, l) <==> Carved(g, chunks, d, l) || (d, l) == (c, k)
  {
    OneLess(g.slab, k);
    forall d: Addr, l: nat
      ensures Carved(g, TakeFrom(g, chunks, c), d, l) <==> Carved(g, chunks, d, l) || (d, l) == (c, k)
    {
      if d == c {
        TakeCarvesAt(g.slab, k, l, g.chunk - g.header - chunks[c].free);
      }
    }
  }

  /** Of the multiples, only the next one is newly covered. */
  lemma TakeCarvesAt(slab: nat, k: nat, l: nat, used: int)
    requires slab > 0 && k >= 1 && used == (k - 1) * slab
    ensures l * slab <= used + slab <==> l * slab <= used || l == k
  {
    OneLess(slab, k);
    if l <= k - 1 {
      MulMono(l, k - 1, slab);
    } else if l > k {
      MulMono(k + 1, l, slab);
      assert (k + 1) * slab == k * slab + slab;
    }
  }

  lemma TakeChunks(g: Geometry, chunks: map<Addr, Chunk>, c: Addr, k: nat)
    requires Sound(g) && ChunksOk(g, chunks) && CarvedNext(g, chunks, c, k)
    ensures ChunksOk(g, TakeFrom(g, chunks, c))
  {
    OneLess(g.slab, k);
    var now := TakeFrom(g, chunks, c);
    assert g.header + now[c].free + k * g.slab == g.chunk;
    forall d | d in now ensures d > 0 && d % g.align == 0 && exists l: nat :: g.header + now[d].free + l * g.slab == g.chunk {
      if d != c {
        assert now[d] == chunks[d];
      }
    }
  }

  lemma TakeHomes(g: Geometry, chunks: map<Addr, Chunk>, home: map<Addr, (Addr, nat)>, c: Addr, k: nat)
    requires Sound(g) && ChunksOk(g, chunks) && HomesOk(g, chunks, home) && CarvedNext(g, chunks, c, k)
    ensures ObjectAt(g, c, k) !in home
    ensures HomesOk(g, TakeFrom(g, chunks, c), home[ObjectAt(g, c, k) := (c, k)])
  {
    var now := TakeFrom(g, chunks, c);
    var x := ObjectAt(g, c, k);
    TakeCarves(g, chunks, c, k);
    TakeChunks(g, chunks, c, k);
    assert Carved(g, now, c, k);
    NotYet(g, chunks, c, k);
    hide Carved, ObjectAt, TakeFrom, ChunksOk;
    forall d: Addr, l: nat | Carved(g, now, d, l) && (d, l) != (c, k) ensures ObjectAt(g, d, l) != x {
      ObjectsApart(g, now, c, k, d, l);
      assert g.slab > 0;
    }
    assert x in home ==> Carved(g, chunks, home[x].0, home[x].1);
  }

  lemma NotYet(g: Geometry, chunks: map<Addr, Chunk>, c: Addr, k: nat)
    requires Sound(g) && CarvedNext(g, chunks, c, k)
    ensures !Carved(g, chunks, c, k)
  {
    OneLess(g.slab, k);
  }

  // ----- a new chunk -----

  /** What the system answers with: aligned memory of its own. */
  ghost predicate FreshChunk(g: Geometry, chunks: map<Addr, Chunk>, c: Addr)
    requires g.align > 0
  {
    c !in chunks && c > 0 && c % g.align == 0 && forall d :: d in chunks ==> c + g.chunk <= d || d + g.chunk <= c
  }

  lemma ChunkKeeps(g: Geometry, chunks: map<Addr, Chunk>, home: map<Addr, (Addr, nat)>, c: Addr, prev: Option<Addr>)
    requires Sound(g) && ChunksOk(g, chunks) && HomesOk(g, chunks, home) && FreshChunk(g, chunks, c)
    ensures var now := chunks[c := Chunk(prev, g.chunk - g.header)];
      ChunksOk(g, now) && HomesOk(g, now, home) && CarvedNext(g, now, c, 1)
  {
    var now := chunks[c := Chunk(prev, g.chunk - g.header)];
    assert g.header + now[c].free + 0 * g.slab == g.chunk;
    assert ChunksOk(g, now) by {
      forall d | d in now ensures d > 0 && d % g.align == 0 && exists l: nat :: g.header + now[d].free + l * g.slab == g.chunk {
        if d != c {
          assert now[d] == chunks[d];
        }
      }
    }
    forall d: Addr, l: nat ensures Carved(g, now, d, l) <==> Carved(g, chunks, d, l) {
      if d == c && l >= 1 {
        MulMono(1, l, g.slab);
      }
    }
    hide Carved, ObjectAt, ChunksOk;
  }

  lemma Pushes(s: seq<Addr>, x: Addr)
    requires Distinct(s) && x !in Elems(s)
    ensures Distinct([x] + s) && Elems([x] + s) == Elems(s) + {x}
  {
  }

  lemma NthAfter(s: seq<Addr>, x: Addr, i: nat)
    ensures Nth([x] + s, i + 1) == Nth(s, i)
  {
  }

  lemma ChunkChained(chunks: map<Addr, Chunk>, s: seq<Addr>, c: Addr, free: nat)
    requires ChunkChain(chunks, s) && c !in chunks
    ensures ChunkChain(chunks[c := Chunk(Nth(s, 0), free)], [c] + s)
  {
    hide Nth, Distinct;
    var (now, t) := (chunks[c := Chunk(Nth(s, 0), free)], [c] + s);
    Pushes(s, c);
    forall i | 0 <= i < |t| ensures t[i] in now && now[t[i]].prev == Nth(t, i + 1) {
      NthAfter(s, c, i);
      if i > 0 {
        assert t[i] == s[i - 1] && s[i - 1] in Elems(s);
      }
    }
  }

  lemma SameChain(g: Geometry, chunks: map<Addr, Chunk>, s: seq<Addr>, c: Addr)
    requires ChunkChain(chunks, s) && c in chunks && chunks[c].free >= g.slab
    ensures ChunkChain(TakeFrom(g, chunks, c), s)
  {
  }

  // ----- the free list -----

  lemma Pushed(links: map<Addr, Option<Addr>>, s: seq<Addr>, x: Addr)
    requires Chain(links, s) && x !in Elems(s)
    ensures Chain(links[x := Nth(s, 0)], [x] + s)
  {
    var (now, t) := (links[x := Nth(s, 0)], [x] + s);
    Pushes(s, x);
    hide Nth, Distinct;
    forall i | 0 <= i < |t| ensures t[i] in now && now[t[i]] == Nth(t, i + 1) {
      NthAfter(s, x, i);
      if i > 0 {
        assert t[i] == s[i - 1] && s[i - 1] in Elems(s);
      }
    }
  }

  lemma Popped(links: map<Addr, Option<Addr>>, s: seq<Addr>)
    requires Chain(links, s) && s != []
    ensures Chain(links, s[1..]) && s[0] in links && links[s[0]] == Nth(s[1..], 0)
    ensures Elems(s[1..]) == Elems(s) - {s[0]} && s[0] in Elems(s)
  {
    var rest := s[1..];
    assert s == [s[0]] + rest;
    assert s[0] in links && links[s[0]] == Nth(s, 1);
    forall i | 0 <= i < |rest| ensures rest[i] in links && links[rest[i]] == Nth(rest, i + 1) {
      assert rest[i] == s[i + 1];
    }
  }

  // ----- the whole state -----

  ghost predicate PoolInv(g: Geometry, chunks: map<Addr, Chunk>, order: seq<Addr>, home: map<Addr, (Addr, nat)>) {
    Sound(g) && ChunksOk(g, chunks) && HomesOk(g, chunks, home) && ChunkChain(chunks, order)
  }

  /** What has been carved is either live or on the free list, never both. */
  ghost predicate Accounted(home: map<Addr, (Addr, nat)>, live: set<Addr>, listed: set<Addr>) {
    home.Keys == live + listed && live !! listed
  }

  lemma TopOf(g: Geometry, chunks: map<Addr, Chunk>, order: seq<Addr>, home: map<Addr, (Addr, nat)>)
    requires PoolInv(g, chunks, order, home) && order != []
    ensures order[0] in chunks
  {
  }

  lemma NewFacts(g: Geometry, chunks: map<Addr, Chunk>, c: Addr)
    requires Sound(g) && FreshChunk(g, chunks, c)
    ensures g.header + g.slab <= g.chunk && c !in chunks
  {
  }

  lemma NewChunkKeeps(g: Geometry, chunks: map<Addr, Chunk>, order: seq<Addr>, home: map<Addr, (Addr, nat)>, c: Addr)
    requires PoolInv(g, chunks, order, home) && FreshChunk(g, chunks, c)
    ensures g.header + g.slab <= g.chunk && Nth([c] + order, 0) == Some(c)
    ensures PoolInv(g, chunks[c := Chunk(Nth(order, 0), g.chunk - g.header)], [c] + order, home)
  {
    hide ChunksOk, HomesOk, ChunkChain, CarvedNext;
    NewFacts(g, chunks, c);
    ChunkKeeps(g, chunks, home, c, Nth(order, 0));
    ChunkChained(chunks, order, c, g.chunk - g.header);
  }

  /** The next object to be carved from a chunk. */
  lemma NextObject(g: Geometry, chunks: map<Addr, Chunk>, c: Addr) returns (k: nat)
    requires Sound(g) && ChunksOk(g, chunks) && c in chunks && chunks[c].free >= g.slab
    ensures CarvedNext(g, chunks, c, k) && c + g.header + chunks[c].free - g.slab == ObjectAt(g, c, k)
  {
    var j: nat :| g.header + chunks[c].free + j * g.slab == g.chunk;
    k := j + 1;
    OneLess(g.slab, k);
  }

  lemma AlignPositive(g: Geometry)
    requires Sound(g)
    ensures g.align > 0
  {
  }

  lemma NextIn(g: Geometry, chunks: map<Addr, Chunk>, c: Addr, k: nat)
    requires CarvedNext(g, chunks, c, k)
    ensures c in chunks && chunks[c].free >= g.slab
  {
  }

  lemma CarveKeeps(g: Geometry, chunks: map<Addr, Chunk>, order: seq<Addr>, home: map<Addr, (Addr, nat)>, live: set<Addr>, listed: set<Addr>, c: Addr)
    returns (k: nat, now: map<Addr, (Addr, nat)>)
    requires PoolInv(g, chunks, order, home) && Accounted(home, live, listed) && c in chunks && chunks[c].free >= g.slab
    ensures var x := c + g.header + chunks[c].free - g.slab;
      && PoolInv(g, TakeFrom(g, chunks, c), order, now) && Accounted(now, live + {x}, listed)
      && x !in home && x !in live && Carved(g, TakeFrom(g, chunks, c), c, k) && x == ObjectAt(g, c, k)
      && now == home[x := (c, k)]
  {
    hide Sound, ChunksOk, HomesOk, ChunkChain, Carved, CarvedNext, ObjectAt, TakeFrom;
    AlignPositive(g);
    k := NextObject(g, chunks, c);
    NextIn(g, chunks, c, k);
    var x := ObjectAt(g, c, k);
    now := home[x := (c, k)];
    TakeCarves(g, chunks, c, k);
    TakeChunks(g, chunks, c, k);
    TakeHomes(g, chunks, home, c, k);
    SameChain(g, chunks, order, c);
    assert now.Keys == home.Keys + {x};
  }

  class ObjPool {
    const g: Geometry
    var chunkStack: Option<Addr>
    var slabStack: Option<Addr>
    var chunks: map<Addr, Chunk>
    var links: map<Addr, Option<Addr>>
    ghost var order: seq<Addr>
    ghost var freeList: seq<Addr>
    ghost var live: set<Addr>
    ghost var home: map<Addr, (Addr, nat)>

    /** The stacks are the lists they start, and all objects are accounted for. */
    ghost predicate Valid()
      reads this
    {
      && PoolInv(g, chunks, order, home) && chunkStack == Nth(order, 0)
      && Chain(links, freeList) && slabStack == Nth(freeList, 0)
      && Accounted(home, live, Elems(freeList))
    }

    constructor (geometry: Geometry)
      requires Sound(geometry)
      ensures Valid() && g == geometry && live == {} && freeList == [] && chunks == map[]
    {
      g, chunkStack, slabStack, chunks, links := geometry, None, None, map[], map[];
      order, freeList, live, home := [], [], {}, map[];
    }

    /** chunk_create and the push on the stack of chunks. */
    method NewChunk(answer: Option<Addr>) returns (c: Addr, ok: bool)
      requires Valid() && (answer.Some? ==> FreshChunk(g, chunks, answer.value))
      modifies this`chunks, this`chunkStack, this`order
      ensures Valid() && ok == answer.Some?
      ensures !ok ==> chunks == old(chunks) && order == old(order)
      ensures ok ==> c == answer.value && order == [c] + old(order) && g.header + g.slab <= g.chunk
      ensures ok ==> chunks == old(chunks)[c := Chunk(Nth(old(order), 0), g.chunk - g.header)]
    {
      hide PoolInv, Chain, Accounted, Nth, Elems, FreshChunk, CarvedNext;
      if answer.None? {
        return 0, false;
      }
      c := answer.value;
      NewChunkKeeps(g, chunks, order, home, c);
      chunks := chunks[c := Chunk(chunkStack, g.chunk - g.header)];
      chunkStack := Some(c);
      order := [c] + order;
      return c, true;
    }

    /** The end of objpool_alloc: the top of what is left in the chunk. */
    method Carve(c: Addr) returns (mem: Addr, ghost k: nat)
      requires Valid() && c in chunks && chunks[c].free >= g.slab
      modifies this`chunks, this`live, this`home
      ensures Valid() && mem !in old(home) && mem !in old(live) && live == old(live) + {mem}
      ensures Carved(g, chunks, c, k) && mem == ObjectAt(g, c, k) && home == old(home)[mem := (c, k)]
      ensures chunks == TakeFrom(g, old(chunks), c)
    {
      hide PoolInv, Chain, Accounted, Nth, Elems, Carved, ObjectAt, TakeFrom;
      ghost var now;
      k, now := CarveKeeps(g, chunks, order, home, live, Elems(freeList), c);
      mem := c + g.header + chunks[c].free - g.slab;
      chunks := TakeFrom(g, chunks, c);
      live := live + {mem};
      home := now;
    }

    /** What is left of the chunk on top of the stack is enough for an object. */
    ghost predicate TopHasRoom()
      reads this
    {
      order != [] && order[0] in chunks && chunks[order[0]].free >= g.slab
    }

    /** objpool_alloc: the free list first, then the top chunk, then a new one, which is asked for, and
        may be refused, only when both are used up. */
    method Alloc(answer: Option<Addr>) returns (r: Option<Addr>)
      requires Valid() && (answer.Some? ==> FreshChunk(g, chunks, answer.value))
      modifies this
      ensures Valid()
      ensures r.None? ==> live == old(live) && freeList == old(freeList) && answer.None?
      ensures r.Some? ==> r.value !in old(live) && live == old(live) + {r.value}
      ensures old(freeList) != [] ==> r == Some(old(freeList)[0]) && freeList == old(freeList)[1..] && chunks == old(chunks)
      ensures old(freeList) == [] ==> freeList == [] && (r.Some? ==> r.value !in old(home))
      ensures r.None? <==> old(freeList) == [] && !old(TopHasRoom()) && answer.None?
      ensures r.None? || old(freeList) != [] || old(TopHasRoom()) ==> order == old(order) && chunks.Keys == old(chunks).Keys
      ensures old(freeList) == [] && !old(TopHasRoom()) && answer.Some? ==> order == [answer.value] + old(order)
      ensures old(freeList) == [] && r.Some? ==> order != [] && r.value in home && home[r.value].0 == order[0]
    {
      hide PoolInv, Chain, Accounted, Elems, FreshChunk, Carved, ObjectAt;
      if slabStack.Some? {
        Popped(links, freeList);
        PopAccounts(home, live, Elems(freeList), freeList[0]);
        var d := slabStack.value;
        slabStack := links[d];
        freeList := freeList[1..];
        live := live + {d};
        return Some(d);
      }
      if order != [] {
        TopOf(g, chunks, order, home);
      }
      var c;
      if chunkStack.None? || chunks[chunkStack.value].free < g.slab {
        var ok;
        c, ok := NewChunk(answer);
        if !ok {
          return None;
        }
      } else {
        c := chunkStack.value;
      }
      var mem, k := Carve(c);
      return Some(mem);
    }

    /** objpool_free: a null pointer is ignored. */
    method Free(ptr: Option<Addr>)
      requires Valid() && (ptr.Some? ==> ptr.value in live)
      modifies this
      ensures Valid() && chunks == old(chunks) && home == old(home)
      ensures ptr.None? ==> live == old(live) && freeList == old(freeList)
      ensures ptr.Some? ==> live == old(live) - {ptr.value} && freeList == [ptr.value] + old(freeList)
    {
      hide PoolInv, Chain, Accounted, Nth, Elems;
      if ptr.None? {
        return;
      }
      var p := ptr.value;
      PushAccounts(links, freeList, home, live, p);
      links := links[p := slabStack];
      slabStack := Some(p);
      freeList := [p] + freeList;
      live := live - {p};
    }

    /** The loop of objpool_deinit, as the list of chunks it gives back. */
    method Deinit() returns (gone: seq<Addr>)
      requires Valid()
      ensures gone == order && Elems(gone) == chunks.Keys && Distinct(gone)
    {
      hide Chain, Accounted, Elems, Distinct, Sound, ChunksOk, HomesOk;
      gone := [];
      var curr := chunkStack;
      assert ChunkChain(chunks, order);
      while curr.Some?
        invariant |gone| <= |order| && gone == order[..|gone|]
        invariant curr == Nth(order, |gone|)
        decreases |order| - |gone|
      {
        var prev := chunks[curr.value].prev;
        gone := gone + [curr.value];
        curr := prev;
      }
    }
  }

  lemma PopAccounts(home: map<Addr, (Addr, nat)>, live: set<Addr>, listed: set<Addr>, x: Addr)
    requires Accounted(home, live, listed) && x in listed
    ensures Accounted(home, live + {x}, listed - {x}) && x !in live
  {
  }

  lemma PushAccounts(links: map<Addr, Option<Addr>>, s: seq<Addr>, home: map<Addr, (Addr, nat)>, live: set<Addr>, x: Addr)
    requires Chain(links, s) && Accounted(home, live, Elems(s)) && x in live
    ensures Chain(links[x := Nth(s, 0)], [x] + s) && Accounted(home, live - {x}, Elems([x] + s))
    ensures Nth([x] + s, 0) == Some(x)
  {
    assert x !in Elems(s);
    Pushes(s, x);
    Pushed(links, s, x);
  }

  /** Everything handed out is aligned, past the header of a chunk and inside it, and apart from
      everything else handed out or free. */
  lemma ObjectsPlaced(g: Geometry, chunks: map<Addr, Chunk>, home: map<Addr, (Addr, nat)>, x: Addr, y: Addr)
    requires Sound(g) && ChunksOk(g, chunks) && HomesOk(g, chunks, home) && x in home && y in home
    ensures x % g.align == 0 && home[x].0 in chunks
    ensures home[x].0 + g.header <= x && x + g.slab <= home[x].0 + g.chunk
    ensures x != y ==> x + g.slab <= y || y + g.slab <= x
  {
    ObjectPlace(g, chunks, home[x].0, home[x].1);
    if x != y {
      ObjectsApart(g, chunks, home[x].0, home[x].1, home[y].0, home[y].1);
    }
  }
}
