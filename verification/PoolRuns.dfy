/** What the contracts of the pool mean for a client, over whole runs. */
module PoolRuns {
  import opened Wrappers
  import opened Bins
  import opened Rings
  import opened Layout
  import opened FreeLists
  import opened PoolState
  import opened Searching
  import opened Growing
  import opened Carving
  import opened Resizing
  import opened Resetting
  import opened Accounting
  import opened PoolLemmas
  import opened AllocPools

  // ---------- one state ----------

  /** Live payloads are aligned, lie inside their area and never overlap each other or any header. */
  lemma LivePayloads(m: Mem, blocks: seq<nat>, list: seq<int>, areas: Areas, c: Chunks, rings: seq<seq<int>>, p: int,
                     q: int)
    requires PoolInv(m, blocks, list, areas, c, rings)
    requires p in c && c[p].inUse && q in c && p != q
    ensures (p + HEADER) % ALIGN == 0
    ensures c[p].area in areas && c[p].area <= p && p + c[p].size <= End(areas, c[p].area)
    ensures p + c[p].size <= q || q + c[q].size <= p
    ensures forall y :: p < y < p + c[p].size ==>
      y !in c && y !in areas && forall a :: a in areas ==> y != End(areas, a)
  {
    hide BinsOk, Binned;
    assert ChunkOk(areas, p, c[p]) && OnGrid(p, c[p].size) && Apart(c, p, q) && Apart(c, q, p);
    forall y | p < y < p + c[p].size
      ensures y !in c && y !in areas && forall a :: a in areas ==> y != End(areas, a)
    {
      if y in c { NotInside(areas, c, y, p); }
      forall a | a in areas
        ensures y != End(areas, a)
      {
        AreaEndNotInside(areas, c, a, p);
      }
    }
  }

  /** The sizes of an Alloc result: a payload at least as large as requested, up to the last request whose
      rounding does not wrap around. */
  lemma AllocRoom(request: SizeT, p: int, n: int, m: Mem, c: Chunks, areas: Areas, m': Mem, c': Chunks,
                  areas': Areas)
    requires AllocEffect(p, RequestToSize(request), n, m, c, areas, m', c', areas')
    ensures p in c' && c'[p].size < RequestToSize(request) + MIN_ALLOC
    ensures c'[p].size - HEADER >= request <==> request <= MAX_REQUEST
  {
    hide Evolves, Splice;
  }

  /** The largest request that rounds to less than 2^31 without wrapping around. */
  const MAX_PLAIN: nat := INT31 - 96

  lemma PlainRequest(request: SizeT)
    ensures request <= MAX_PLAIN <==> request <= MAX_REQUEST && RequestToSize(request) < INT31
  {
  }

  // ---------- whole runs ----------

  /** What a client may do; an operation on a pointer that is neither null nor live is skipped. */
  datatype Op =
    | DoAlloc(request: SizeT)
    | DoFree(ptr: int)
    | DoRealloc(ptr: int, request: SizeT)
    | DoStore(ptr: int, offset: int, line: Line)
    | DoFreeAll

  /** What the client last wrote, by block and offset. */
  type Shadow = map<int, map<int, Line>>

  ghost predicate Holds(m: Mem, c: Chunks, p: int, lines: map<int, Line>) {
    && p in c && c[p].inUse
    && forall d {:trigger d in lines} :: d in lines ==>
        0 < d < c[p].size && d % HEADER == 0 && p + d in m && m[p + d] == lines[d]
  }

  /** What the client knows: what it wrote, and how much it asked for, by block. */
  datatype Client = Client(shadow: Shadow, request: map<int, nat>)

  /** Everything the pool consists of at one moment. */
  datatype PoolView = PoolView(mem: Mem, blocks: seq<nat>, list: seq<int>, areas: Areas, chunks: Chunks,
                               rings: seq<seq<int>>)

  ghost function View(pool: AllocPool): PoolView
    reads pool
  {
    PoolView(pool.mem, pool.mBinBlocks, pool.mAreas, pool.areaSize, pool.chunks, pool.rings)
  }

  ghost predicate NoneLive(c: Chunks) {
    forall p :: p in c ==> !c[p].inUse
  }

  /** Every live block still holds what was written to it. */
  ghost predicate Faithful(m: Mem, c: Chunks, shadow: Shadow) {
    && (forall p :: p in shadow <==> p in c && c[p].inUse)
    && forall p {:trigger Holds(m, c, p, shadow[p])} :: p in shadow ==> Holds(m, c, p, shadow[p])
  }

  /** Every live block has the room that was asked for, if that was less than 2^31 bytes with the header. */
  ghost predicate Roomy(c: Chunks, client: Client) {
    && (forall p :: p in client.request <==> p in client.shadow)
    && forall p :: p in client.request && client.request[p] <= MAX_PLAIN ==> HasRoom(c, p, client.request[p])
  }

  ghost predicate HasRoom(c: Chunks, p: int, request: nat) {
    p in c && c[p].size - HEADER >= request
  }

  /** The pool is in order, and the client's blocks are exactly the live ones, hold what it wrote and are as
      large as it asked. */
  ghost predicate Safe(v: PoolView, client: Client) {
    && PoolInv(v.mem, v.blocks, v.list, v.areas, v.chunks, v.rings)
    && Faithful(v.mem, v.chunks, client.shadow) && Roomy(v.chunks, client)
  }

  /** Blocks that an operation keeps go on holding what they held. */
  lemma KeptHolds(m: Mem, c: Chunks, m': Mem, c': Chunks, p: int, lines: map<int, Line>)
    requires Kept(m, c, m', c', p) && Holds(m, c, p, lines)
    ensures Holds(m', c', p, lines)
  {
    forall d | d in lines
      ensures p + d in m' && m'[p + d] == lines[d]
    {
      assert p + d in m;
    }
  }

  lemma EvolvesFaithful(m: Mem, c: Chunks, m': Mem, c': Chunks, gone: set<int>, born: set<int>, shadow: Shadow,
                        shadow': Shadow)
    requires Faithful(m, c, shadow) && Evolves(m, c, m', c', gone, born) && gone <= shadow.Keys
    requires shadow'.Keys == shadow.Keys - gone + born
    requires forall p :: p in shadow' && p !in born ==> p in shadow && shadow'[p] == shadow[p]
    requires forall p :: p in born ==> Holds(m', c', p, shadow'[p])
    ensures Faithful(m', c', shadow')
  {
    forall p | p in shadow'
      ensures Holds(m', c', p, shadow'[p])
    {
      if p !in born {
        assert Holds(m, c, p, shadow[p]);
        assert p in c && c[p].inUse;
        assert Kept(m, c, m', c', p);
        KeptHolds(m, c, m', c', p, shadow[p]);
      }
    }
    forall p | p in c' && c'[p].inUse
      ensures p in shadow'
    {
      assert p in born || (p in c && c[p].inUse && p !in gone);
    }
  }

  /** What the client can still rely on after resizing p to q: the lines within both sizes, save the lost one. */
  ghost function Carried(c: Chunks, c': Chunks, p: int, q: int, size: int, lines: map<int, Line>): map<int, Line>
    requires p in c && q in c'
  {
    map d | d in lines && d < Min(c[p].size, c'[q].size) && p + d != LostLine(c, p, q, size) :: lines[d]
  }

  lemma CarriedHolds(p: int, q: int, size: int, m: Mem, areas: Areas, c: Chunks, m': Mem, c': Chunks,
                     lines: map<int, Line>)
    requires Shape(areas, c) && ReallocEffect(p, q, size, m, c, m', c') && Holds(m, c, p, lines)
    ensures Holds(m', c', q, Carried(c, c', p, q, size, lines))
  {
    hide Evolves, LostLine;
    BlockGrid(areas, c, p);
    var kept := Carried(c, c', p, q, size, lines);
    forall d | d in kept
      ensures 0 < d < c'[q].size && d % HEADER == 0 && q + d in m' && m'[q + d] == kept[d]
    {
      OffsetOnGrid(p, d);
      assert p + d in m;
      assert p + d - p + q == q + d;
    }
  }

  /** Nothing is lost but what lies beyond either size and, when the header of what is left over hits the old
      payload, the one line at the cut. */
  lemma CarriedLines(p: int, q: int, size: int, m: Mem, areas: Areas, c: Chunks, m': Mem, c': Chunks,
                     lines: map<int, Line>, d: int)
    requires Shape(areas, c) && ReallocEffect(p, q, size, m, c, m', c') && Holds(m, c, p, lines) && d in lines
    requires var fits := c[p].size >= size || FreeRight(c, p) - FreeLeft(c, p) >= size;
      if fits then q == (if size <= c[p].size || size <= FreeRight(c, p) - p then p else FreeLeft(c, p))
      else !ShiftedBack(c, p, q, size)
    ensures 0 < d < c[p].size
    ensures d in Carried(c, c', p, q, size, lines) <==>
      d < c'[q].size && !(HeaderHits(c, p, size) && p + d == FreeLeft(c, p) + size)
    ensures d in Carried(c, c', p, q, size, lines) ==> Carried(c, c', p, q, size, lines)[d] == lines[d]
  {
    hide Evolves, FreeLeft, Shape;
    RightEnd(areas, c, p);
  }

  lemma OffsetOnGrid(p: int, d: int)
    requires p % ALIGN == HEADER && d % HEADER == 0
    ensures (p + d) % HEADER == 0
  {
    assert p + d == HEADER * (2 * (p / ALIGN) + 1 + d / HEADER);
  }

  /** The area callback: what it returns may depend on the areas in use, on the moment and on the size. */
  type Supply = (Areas, nat, int) -> Block

  /** The callback never hands out memory that an area of the pool still uses. */
  ghost predicate Honest(supply: Supply) {
    forall areas: Areas, i: nat, n: int {:trigger supply(areas, i, n)} :: GoodBlock(areas, supply(areas, i, n), n)
  }

  /** The operation stays within the model and leaves the pool in order: no cut of a new area that comes too
      close to its end, and no request that has wrapped to nothing. */
  ghost predicate Allowed(pool: AllocPool, op: Op, i: nat, supply: Supply, live: set<int>)
    reads pool
  {
    match op
    case DoAlloc(request) => AllocAllowed(pool, request, i, supply)
    case DoRealloc(ptr, request) =>
      if ptr == 0 then AllocAllowed(pool, request, i, supply)
      else ptr - HEADER in live ==> ReallocAllowed(pool, ptr - HEADER, request, i, supply)
    case _ => true
  }

  /** What the callback would answer to the area request that goes with a request, if there is one. */
  function Answer(pool: AllocPool, request: SizeT, i: nat, supply: Supply): Block
    reads pool
  {
    supply(pool.areaSize, i, pool.GrowSize(RequestToSize(request)))
  }

  ghost predicate AllocAllowed(pool: AllocPool, request: SizeT, i: nat, supply: Supply)
    reads pool
  {
    var size, block := RequestToSize(request), Answer(pool, request, i, supply);
    pool.InModel(size, block) && !pool.BreaksPool(size, block)
  }

  ghost predicate ReallocAllowed(pool: AllocPool, p: int, request: SizeT, i: nat, supply: Supply)
    reads pool
  {
    var size, block := RequestToSize(request), Answer(pool, request, i, supply);
    && size != 0 && pool.Refused(size, block)
    && (p in pool.chunks && pool.MustMove(p, size) ==> !pool.BreaksPool(size, block))
  }

  /** No free chunk is taken, and no area comes to help. */
  ghost predicate Exhausted(pool: AllocPool, v: PoolView, size: nat, block: Block) {
    && NoPick(v.chunks, size) && (size < INT31 ==> NoFit(v.chunks, size))
    && ((pool.mAreaMoreSize == 0 && (v.list != [] || size > pool.mAreaInitSize)) || block.NoMemory?)
  }

  /** What a request does. */
  ghost predicate DoesAlloc(pool: AllocPool, request: SizeT, i: nat, supply: Supply, r: Option<int>,
                            v: PoolView, client: Client, v': PoolView, client': Client)
  {
    var size := RequestToSize(request);
    var n := pool.GrowSize(size);
    if r.None? then Exhausted(pool, v, size, supply(v.areas, i, n)) && v' == v && client' == client
    else
      var p := r.value - HEADER;
      && p !in client.shadow
      && client' == Client(client.shadow[p := map[]], client.request[p := request])
      && if size < INT31 then AllocEffect(p, size, n, v.mem, v.chunks, v.areas, v'.mem, v'.chunks, v'.areas)
        else
          && v'.areas == v.areas && v'.list == v.list && FirstPick(v.chunks, size, p)
          && ShortChange(p, size, v.mem, v.chunks, v'.mem, v'.chunks)
  }

  /** What the i-th operation does to the pool and to the client's knowledge, and which pointer it returns. */
  ghost predicate Does(pool: AllocPool, op: Op, i: nat, supply: Supply, r: Option<int>,
                       v: PoolView, client: Client, v': PoolView, client': Client)
  {
    match op
    case DoAlloc(request) => DoesAlloc(pool, request, i, supply, r, v, client, v', client')
    case DoFree(ptr) =>
      var p := ptr - HEADER;
      && r.None?
      && if p in client.shadow then
           && FreeEffect(pool.mAreaMoreSize != 0, p, v.mem, v.chunks, v.areas, v'.mem, v'.chunks, v'.areas)
           && client' == Client(client.shadow - {p}, client.request - {p})
         else v' == v && client' == client
    case DoRealloc(ptr, request) =>
      var p, size := ptr - HEADER, RequestToSize(request);
      if ptr == 0 then DoesAlloc(pool, request, i, supply, r, v, client, v', client')
      else if p !in client.shadow then r.None? && v' == v && client' == client
      else if r.None? then
        && p in v.chunks && v.chunks[p].size < size && FreeRight(v.chunks, p) - FreeLeft(v.chunks, p) < size
        && Exhausted(pool, v, size, supply(v.areas, i, pool.GrowSize(size))) && v' == v && client' == client
      else
        var q := r.value - HEADER;
        && ReallocEffect(p, q, size, v.mem, v.chunks, v'.mem, v'.chunks)
        && (PayloadKept(p, q, v.mem, v.chunks, v'.mem, v'.chunks) <==>
              (HeaderHits(v.chunks, p, size) ==> LineSurvives(p, q, size, v.mem, v'.mem)))
        && client' == Client((client.shadow - {p})[q := Carried(v.chunks, v'.chunks, p, q, size, client.shadow[p])],
                             (client.request - {p})[q := request])
    case DoStore(ptr, offset, line) =>
      var p := ptr - HEADER;
      && r.None?
      && if p in client.shadow && offset % HEADER == 0 && p in v.chunks && 0 < offset < v.chunks[p].size then
           && v' == v.(mem := v.mem[p + offset := line])
           && client' == client.(shadow := client.shadow[p := client.shadow[p][offset := line]])
         else v' == v && client' == client
    case DoFreeAll =>
      && r.None? && v'.areas == v.areas && v'.list == v.list && v'.chunks == AllFree(v.areas)
      && client' == Client(map[], map[])
  }

  /** Safety over every run, of a fixed-size or a growing pool: whatever a client does and whatever memory
      the callback supplies, each operation does what it is for, and at every moment the invariant holds, the
      live blocks are exactly those the client was given and has not released, each is as large as was asked
      for and holds what was last written to it, and no space is lost. The run ends early only at an
      operation that would break the pool, or leave the model, in the state it has come to. */
  method Run(pool: AllocPool, ops: seq<Op>, supply: Supply)
    returns (live: set<int>, results: seq<Option<int>>, ghost views: seq<PoolView>, ghost clients: seq<Client>)
    requires pool.Valid() && pool.Configured() && NoneLive(pool.chunks) && Honest(supply)
    modifies pool
    ensures |results| <= |ops| && |views| == |clients| == |results| + 1
    ensures |results| < |ops| ==> !Allowed(pool, ops[|results|], |results|, supply, live)
    ensures views[0] == old(View(pool)) && clients[0] == Client(map[], map[])
    ensures views[|results|] == View(pool) && live == clients[|results|].shadow.Keys
    ensures forall i {:trigger results[i]} :: 0 <= i < |results| ==>
      Does(pool, ops[i], i, supply, results[i], views[i], clients[i], views[i + 1], clients[i + 1])
    ensures forall i {:trigger Safe(views[i], clients[i])} :: 0 <= i <= |results| ==> Safe(views[i], clients[i])
    ensures forall i, top: nat {:trigger Above(views[i].chunks, views[i].areas, top)} ::
      0 <= i <= |results| && Above(views[i].chunks, views[i].areas, top) ==>
        var v := views[i];
        Sum(FreeWeight(v.chunks), top) + Sum(LiveWeight(v.chunks), top) == Sum(AreaWeight(v.areas), top)
    ensures old(Fixed(pool)) ==> pool.areaSize == old(pool.areaSize) && pool.mAreas == old(pool.mAreas)
  {
    hide PoolInv, Does, Faithful, Roomy, Sum, Honest, Allowed;
    live, results := {}, [];
    ghost var client := Client(map[], map[]);
    views, clients := [View(pool)], [client];
    assert Safe(views[0], clients[0]) by { NothingLive(pool.mem, pool.chunks); }
    var i := 0;
    while i < |ops|
      invariant 0 <= i <= |ops|
      invariant pool.Valid() && pool.Configured()
      invariant old(Fixed(pool)) ==> pool.areaSize == old(pool.areaSize) && pool.mAreas == old(pool.mAreas)
      invariant |results| == i && |views| == |clients| == i + 1
      invariant views[0] == old(View(pool)) && clients[0] == Client(map[], map[])
      invariant views[i] == View(pool) && clients[i] == client && live == client.shadow.Keys
      invariant forall j {:trigger results[j]} :: 0 <= j < i ==>
        Does(pool, ops[j], j, supply, results[j], views[j], clients[j], views[j + 1], clients[j + 1])
      invariant forall j {:trigger Safe(views[j], clients[j])} :: 0 <= j <= i ==> Safe(views[j], clients[j])
    {
      assert Safe(views[i], clients[i]);
      var allowed := CheckOp(pool, ops[i], i, supply, live, client);
      if !allowed { break; }
      var r: Option<int>;
      live, r, client := Step(pool, ops[i], i, supply, live, client);
      results, views, clients := results + [r], views + [View(pool)], clients + [client];
      i := i + 1;
    }
    forall i, top: nat | 0 <= i <= |results| && Above(views[i].chunks, views[i].areas, top)
      ensures var v := views[i];
        Sum(FreeWeight(v.chunks), top) + Sum(LiveWeight(v.chunks), top) == Sum(AreaWeight(v.areas), top)
    {
      assert Safe(views[i], clients[i]);
      Conservation(views[i].mem, views[i].blocks, views[i].list, views[i].areas, views[i].chunks, views[i].rings, top);
    }
  }

  /** A pool that does not grow and has its area. */
  predicate Fixed(pool: AllocPool)
    reads pool
  {
    pool.mAreaMoreSize == 0 && pool.mAreas != []
  }

  lemma NothingLive(m: Mem, c: Chunks)
    requires NoneLive(c)
    ensures Faithful(m, c, map[]) && Roomy(c, Client(map[], map[]))
  {
  }

  /** Whether the next operation leaves the pool in order. */
  method CheckOp(pool: AllocPool, op: Op, i: nat, supply: Supply, live: set<int>, ghost client: Client)
    returns (ok: bool)
    requires pool.Valid() && Safe(View(pool), client) && live == client.shadow.Keys
    ensures ok <==> Allowed(pool, op, i, supply, live)
  {
    hide PoolInv, Faithful, Roomy, AllocAllowed, ReallocAllowed;
    match op {
      case DoAlloc(request) =>
        ok := CheckAlloc(pool, request, i, supply);
      case DoRealloc(ptr, request) =>
        if ptr == 0 {
          ok := CheckAlloc(pool, request, i, supply);
        } else if ptr - HEADER in live {
          LiveBlock(pool.mem, pool.mBinBlocks, pool.mAreas, pool.areaSize, pool.chunks, pool.rings, client.shadow,
                    ptr - HEADER);
          ok := CheckRealloc(pool, ptr - HEADER, request, i, supply);
        } else {
          ok := true;
        }
      case _ => ok := true;
    }
  }

  method CheckAlloc(pool: AllocPool, request: SizeT, i: nat, supply: Supply) returns (ok: bool)
    requires pool.Valid()
    ensures ok <==> AllocAllowed(pool, request, i, supply)
  {
    hide PoolInv, BinIndex, BinIndex2;
    var size, block := RequestToSize(request), Answer(pool, request, i, supply);
    var found, candidate, remainder := pool.Search(size);
    InvParts(pool.mem, pool.mBinBlocks, pool.mAreas, pool.areaSize, pool.chunks, pool.rings);
    PickForNothing(pool.areaSize, pool.chunks);
    var helped := pool.CanGrow(size) && block.Memory?;
    if size == 0 {
      ok := !found && !helped;
    } else if size < INT31 {
      ok := found || !helped || !pool.BadSplit(size);
    } else {
      ok := (!found || remainder < MIN_ALLOC) && !helped;
    }
  }

  method CheckRealloc(pool: AllocPool, p: int, request: SizeT, i: nat, supply: Supply) returns (ok: bool)
    requires pool.Valid() && pool.IsLive(p)
    ensures ok <==> ReallocAllowed(pool, p, request, i, supply)
  {
    hide PoolInv, BinIndex, BinIndex2;
    var size, block := RequestToSize(request), Answer(pool, request, i, supply);
    var found, candidate, remainder := pool.Search(size);
    var helped := pool.CanGrow(size) && block.Memory?;
    var moves := Moves(pool, p, size);
    ok := size != 0 && (size >= INT31 ==> !found && !helped)
      && (moves && size < INT31 ==> found || !helped || !pool.BadSplit(size));
  }

  /** Whether a block must move away, from the tags. */
  method Moves(pool: AllocPool, p: int, size: int) returns (moves: bool)
    requires pool.Valid() && pool.IsLive(p)
    ensures moves <==> pool.MustMove(p, size)
  {
    hide PoolInv, SizeBits, InUseBit, FreeLeft, FreeRight;
    InvParts(pool.mem, pool.mBinBlocks, pool.mAreas, pool.areaSize, pool.chunks, pool.rings);
    ChunkSize(pool.mem, pool.areaSize, pool.chunks, p);
    NextProbe(pool.mem, pool.areaSize, pool.chunks, p);
    PrevProbe(pool.mem, pool.areaSize, pool.chunks, p);
    var oldsize := SizeBits(pool.mem[p].size);
    var next, prev := p + oldsize, p - SizeBits(pool.mem[p].prevSize);
    var nextsize := if InUseBit(pool.mem[next].size) then 0 else SizeBits(pool.mem[next].size);
    var prevsize := if InUseBit(pool.mem[prev].size) then 0 else SizeBits(pool.mem[prev].size);
    moves := oldsize < size && nextsize + prevsize + oldsize < size;
  }

  /** A request. */
  method StepAlloc(pool: AllocPool, request: SizeT, i: nat, supply: Supply, live0: set<int>, ghost client0: Client)
    returns (live: set<int>, r: Option<int>, ghost client: Client)
    requires pool.Valid() && pool.Configured() && AllocAllowed(pool, request, i, supply) && Honest(supply)
    requires Safe(View(pool), client0) && live0 == client0.shadow.Keys
    modifies pool
    ensures pool.Valid()
    ensures old(Fixed(pool)) ==> pool.areaSize == old(pool.areaSize) && pool.mAreas == old(pool.mAreas)
    ensures DoesAlloc(pool, request, i, supply, r, old(View(pool)), client0, View(pool), client)
    ensures Safe(View(pool), client) && live == client.shadow.Keys
  {
    hide PoolInv, Evolves, AllocEffect, FreeEffect, ReallocEffect, Faithful, Roomy, Holds, BinIndex, BinIndex2;
    hide NoFit, NoPick, HeaderHits, PayloadKept, Carried;
    live, client, r := live0, client0, None;
    ghost var m, c, areas, shadow := pool.mem, pool.chunks, pool.areaSize, client0.shadow;
    var size, block := RequestToSize(request), Answer(pool, request, i, supply);
    r := pool.Alloc(request, block);
    if r.Some? {
      var p := r.value - HEADER;
      live := live + {p};
      client := Client(shadow[p := map[]], client.request[p := request]);
      if size < INT31 {
        AllocFaithful(p, request, pool.GrowSize(size), m, c, areas, pool.mem, pool.chunks, pool.areaSize, client0);
      } else {
        ShortFaithful(p, request, m, c, pool.mem, pool.chunks, client0);
      }
    }
  }

  /** A release. */
  method StepFree(pool: AllocPool, ptr: int, i: nat, supply: Supply, live0: set<int>, ghost client0: Client)
    returns (live: set<int>, r: Option<int>, ghost client: Client)
    requires pool.Valid() && pool.Configured() && Honest(supply)
    requires Safe(View(pool), client0) && live0 == client0.shadow.Keys
    modifies pool
    ensures pool.Valid()
    ensures old(Fixed(pool)) ==> pool.areaSize == old(pool.areaSize) && pool.mAreas == old(pool.mAreas)
    ensures Does(pool, DoFree(ptr), i, supply, r, old(View(pool)), client0, View(pool), client)
    ensures Safe(View(pool), client) && live == client.shadow.Keys
  {
    hide PoolInv, Evolves, AllocEffect, FreeEffect, ReallocEffect, Faithful, Roomy, Holds, BinIndex, BinIndex2;
    hide NoFit, NoPick, HeaderHits, PayloadKept, Carried;
    live, client, r := live0, client0, None;
    ghost var m, c, areas, shadow := pool.mem, pool.chunks, pool.areaSize, client0.shadow;
    if ptr - HEADER in live {
      LiveBlock(m, pool.mBinBlocks, pool.mAreas, areas, c, pool.rings, shadow, ptr - HEADER);
      pool.Free(ptr);
      live := live - {ptr - HEADER};
      client := Client(shadow - {ptr - HEADER}, client.request - {ptr - HEADER});
      FreeFaithful(pool.mAreaMoreSize != 0, ptr - HEADER, m, c, areas, pool.mem, pool.chunks, pool.areaSize, client0);
    }
  }

  /** A request for another size. */
  method StepRealloc(pool: AllocPool, ptr: int, request: SizeT, i: nat, supply: Supply, live0: set<int>,
                     ghost client0: Client)
    returns (live: set<int>, r: Option<int>, ghost client: Client)
    requires pool.Valid() && pool.Configured() && Honest(supply) && ptr != 0
    requires Safe(View(pool), client0) && live0 == client0.shadow.Keys
    requires ptr - HEADER in live0 ==> ReallocAllowed(pool, ptr - HEADER, request, i, supply)
    modifies pool
    ensures pool.Valid()
    ensures old(Fixed(pool)) ==> pool.areaSize == old(pool.areaSize) && pool.mAreas == old(pool.mAreas)
    ensures Does(pool, DoRealloc(ptr, request), i, supply, r, old(View(pool)), client0, View(pool), client)
    ensures Safe(View(pool), client) && live == client.shadow.Keys
  {
    hide PoolInv, Evolves, AllocEffect, FreeEffect, ReallocEffect, Faithful, Roomy, Holds, BinIndex, BinIndex2;
    hide NoFit, NoPick, HeaderHits, PayloadKept, Carried;
    live, client, r := live0, client0, None;
    ghost var m, c, areas, shadow := pool.mem, pool.chunks, pool.areaSize, client0.shadow;
    if ptr - HEADER in live {
      LiveBlock(m, pool.mBinBlocks, pool.mAreas, areas, c, pool.rings, shadow, ptr - HEADER);
      InvParts(m, pool.mBinBlocks, pool.mAreas, areas, c, pool.rings);
      var block := Answer(pool, request, i, supply);
      r := pool.Realloc(ptr, request, block);
      if r.Some? {
        var p, q := ptr - HEADER, r.value - HEADER;
        live := live - {p} + {q};
        client := ReallocFaithful(p, q, request, m, c, areas, pool.mem, pool.chunks, client0);
      }
    }
  }

  /** A write to a block. */
  method StepStore(pool: AllocPool, ptr: int, offset: int, line: Line, i: nat, supply: Supply, live0: set<int>,
                   ghost client0: Client)
    returns (live: set<int>, r: Option<int>, ghost client: Client)
    requires pool.Valid() && pool.Configured() && Honest(supply)
    requires Safe(View(pool), client0) && live0 == client0.shadow.Keys
    modifies pool
    ensures pool.Valid()
    ensures old(Fixed(pool)) ==> pool.areaSize == old(pool.areaSize) && pool.mAreas == old(pool.mAreas)
    ensures Does(pool, DoStore(ptr, offset, line), i, supply, r, old(View(pool)), client0, View(pool), client)
    ensures Safe(View(pool), client) && live == client.shadow.Keys
  {
    hide PoolInv, Evolves, AllocEffect, FreeEffect, ReallocEffect, Faithful, Roomy, Holds, BinIndex, BinIndex2;
    hide NoFit, NoPick, HeaderHits, PayloadKept, Carried;
    live, client, r := live0, client0, None;
    ghost var m, c, areas, shadow := pool.mem, pool.chunks, pool.areaSize, client0.shadow;
    var p := ptr - HEADER;
    if p in live && offset % HEADER == 0 {
      LiveBlock(m, pool.mBinBlocks, pool.mAreas, areas, c, pool.rings, shadow, p);
      InvParts(m, pool.mBinBlocks, pool.mAreas, areas, c, pool.rings);
      ChunkSize(m, areas, c, p);
      if 0 < offset < SizeBits(pool.mem[p].size) {
        BlockGrid(areas, c, p);
        OffsetOnGrid(p, offset);
        InsideMapped(m, areas, c, p, p + offset);
        pool.Store(p, offset, line);
        client := client.(shadow := shadow[p := shadow[p][offset := line]]);
        StoreFaithful(m, c, pool.mem, p, offset, line, client0);
      }
    }
  }

  /** A reset. */
  method StepFreeAll(pool: AllocPool, i: nat, supply: Supply, live0: set<int>, ghost client0: Client)
    returns (live: set<int>, r: Option<int>, ghost client: Client)
    requires pool.Valid() && pool.Configured() && Honest(supply)
    requires Safe(View(pool), client0) && live0 == client0.shadow.Keys
    modifies pool
    ensures pool.Valid()
    ensures old(Fixed(pool)) ==> pool.areaSize == old(pool.areaSize) && pool.mAreas == old(pool.mAreas)
    ensures Does(pool, DoFreeAll, i, supply, r, old(View(pool)), client0, View(pool), client)
    ensures Safe(View(pool), client) && live == client.shadow.Keys
  {
    hide PoolInv, Evolves, AllocEffect, FreeEffect, ReallocEffect, Faithful, Roomy, Holds, BinIndex, BinIndex2;
    hide NoFit, NoPick, HeaderHits, PayloadKept, Carried;
    pool.FreeAllInternal();
    live, client, r := {}, Client(map[], map[]), None;
    AllFreeDead(pool.mem, pool.areaSize);
  }

  /** One operation of a client. */
  method Step(pool: AllocPool, op: Op, i: nat, supply: Supply, live0: set<int>, ghost client0: Client)
    returns (live: set<int>, r: Option<int>, ghost client: Client)
    requires pool.Valid() && pool.Configured() && Honest(supply) && Allowed(pool, op, i, supply, live0)
    requires Safe(View(pool), client0) && live0 == client0.shadow.Keys
    modifies pool
    ensures pool.Valid()
    ensures old(Fixed(pool)) ==> pool.areaSize == old(pool.areaSize) && pool.mAreas == old(pool.mAreas)
    ensures Does(pool, op, i, supply, r, old(View(pool)), client0, View(pool), client)
    ensures Safe(View(pool), client) && live == client.shadow.Keys
  {
    hide PoolInv, Safe, Faithful, Roomy, AllocAllowed, ReallocAllowed, DoesAlloc;
    match op {
      case DoAlloc(request) =>
        live, r, client := StepAlloc(pool, request, i, supply, live0, client0);
      case DoFree(ptr) =>
        live, r, client := StepFree(pool, ptr, i, supply, live0, client0);
      case DoRealloc(ptr, request) =>
        if ptr == 0 {
          live, r, client := StepAlloc(pool, request, i, supply, live0, client0);
        } else {
          live, r, client := StepRealloc(pool, ptr, request, i, supply, live0, client0);
        }
      case DoStore(ptr, offset, line) =>
        live, r, client := StepStore(pool, ptr, offset, line, i, supply, live0, client0);
      case DoFreeAll =>
        live, r, client := StepFreeAll(pool, i, supply, live0, client0);
    }
  }

  lemma LiveBlock(m: Mem, blocks: seq<nat>, list: seq<int>, areas: Areas, c: Chunks, rings: seq<seq<int>>,
                  shadow: Shadow, p: int)
    requires PoolInv(m, blocks, list, areas, c, rings) && Faithful(m, c, shadow) && p in shadow
    ensures p in c && c[p].inUse && p >= FIRST_ADDRESS
  {
    hide BinsOk, Binned, Tagged, Coalesced;
    assert p in c && c[p].inUse;
    BlockGrid(areas, c, p);
  }

  lemma AllocFaithful(p: int, request: SizeT, n: int, m: Mem, c: Chunks, areas: Areas, m': Mem, c': Chunks,
                      areas': Areas, client: Client)
    requires AllocEffect(p, RequestToSize(request), n, m, c, areas, m', c', areas')
    requires RequestToSize(request) < INT31
    requires Faithful(m, c, client.shadow) && Roomy(c, client)
    ensures Faithful(m', c', client.shadow[p := map[]]) && p !in client.shadow
    ensures Roomy(c', Client(client.shadow[p := map[]], client.request[p := request]))
  {
    assert Holds(m', c', p, map[]);
    EvolvesFaithful(m, c, m', c', {}, {p}, client.shadow, client.shadow[p := map[]]);
    EvolvesRoomy(m, c, m', c', {}, {p}, client, Client(client.shadow[p := map[]], client.request[p := request]));
    if NoFit(c, RequestToSize(request)) { assert p !in c; }
  }

  lemma ShortFaithful(p: int, request: SizeT, m: Mem, c: Chunks, m': Mem, c': Chunks, client: Client)
    requires ShortChange(p, RequestToSize(request), m, c, m', c') && RequestToSize(request) >= INT31
    requires Faithful(m, c, client.shadow) && Roomy(c, client)
    ensures Faithful(m', c', client.shadow[p := map[]]) && p !in client.shadow
    ensures Roomy(c', Client(client.shadow[p := map[]], client.request[p := request]))
  {
    hide Evolves;
    PlainRequest(request);
    assert Holds(m', c', p, map[]);
    EvolvesFaithful(m, c, m', c', {}, {p}, client.shadow, client.shadow[p := map[]]);
    EvolvesRoomy(m, c, m', c', {}, {p}, client, Client(client.shadow[p := map[]], client.request[p := request]));
  }

  lemma FreeFaithful(growable: bool, p: int, m: Mem, c: Chunks, areas: Areas, m': Mem, c': Chunks, areas': Areas,
                     client: Client)
    requires FreeEffect(growable, p, m, c, areas, m', c', areas') && p in client.shadow
    requires Faithful(m, c, client.shadow) && Roomy(c, client)
    ensures Faithful(m', c', client.shadow - {p})
    ensures Roomy(c', Client(client.shadow - {p}, client.request - {p}))
  {
    EvolvesFaithful(m, c, m', c', {p}, {}, client.shadow, client.shadow - {p});
    EvolvesRoomy(m, c, m', c', {p}, {}, client, Client(client.shadow - {p}, client.request - {p}));
  }

  lemma ReallocFaithful(p: int, q: int, request: SizeT, m: Mem, c: Chunks, areas: Areas, m': Mem, c': Chunks,
                        client: Client)
    returns (client': Client)
    requires ReallocEffect(p, q, RequestToSize(request), m, c, m', c') && p in client.shadow && Shape(areas, c)
    requires Faithful(m, c, client.shadow) && Roomy(c, client)
    ensures q in c' && p in c
    ensures client'.request == (client.request - {p})[q := request]
    ensures client'.shadow ==
      (client.shadow - {p})[q := Carried(c, c', p, q, RequestToSize(request), client.shadow[p])]
    ensures Faithful(m', c', client'.shadow) && Roomy(c', client')
    ensures client'.shadow.Keys == client.shadow.Keys - {p} + {q}
  {
    hide Shape;
    var size, shadow := RequestToSize(request), client.shadow;
    assert Holds(m, c, p, shadow[p]);
    CarriedHolds(p, q, size, m, areas, c, m', c', shadow[p]);
    client' := Client((shadow - {p})[q := Carried(c, c', p, q, size, shadow[p])], (client.request - {p})[q := request]);
    EvolvesFaithful(m, c, m', c', {p}, {q}, shadow, client'.shadow);
    EvolvesRoomy(m, c, m', c', {p}, {q}, client, client');
  }

  lemma EvolvesRoomy(m: Mem, c: Chunks, m': Mem, c': Chunks, gone: set<int>, born: set<int>, client: Client,
                     client': Client)
    requires Faithful(m, c, client.shadow) && Roomy(c, client) && Evolves(m, c, m', c', gone, born)
    requires forall p :: p in client'.request <==> p in client'.shadow
    requires forall p :: p in client'.request && p !in born ==>
      p !in gone && p in client.request && client'.request[p] == client.request[p]
    requires forall p :: p in born && p in client'.request && client'.request[p] <= MAX_PLAIN ==>
      HasRoom(c', p, client'.request[p])
    ensures Roomy(c', client')
  {
    forall p | p in client'.request && client'.request[p] <= MAX_PLAIN
      ensures HasRoom(c', p, client'.request[p])
    {
      if p !in born {
        assert p in c && c[p].inUse;
        assert Kept(m, c, m', c', p);
      }
    }
  }

  lemma StoreFaithful(m: Mem, c: Chunks, m': Mem, p: int, offset: int, line: Line, client: Client)
    requires Faithful(m, c, client.shadow) && Roomy(c, client) && p in client.shadow
    requires p in c && 0 < offset < c[p].size && offset % HEADER == 0 && p + offset in m
    requires m' == m[p + offset := line] && forall r :: r in c && r != p ==> SamePayload(m, m', r, c[r].size)
    ensures var client' := client.(shadow := client.shadow[p := client.shadow[p][offset := line]]);
      Faithful(m', c, client'.shadow) && Roomy(c, client')
  {
    var shadow := client.shadow;
    var shadow' := shadow[p := shadow[p][offset := line]];
    assert Holds(m, c, p, shadow[p]);
    forall r | r in shadow'
      ensures Holds(m', c, r, shadow'[r])
    {
      assert Holds(m, c, r, shadow[r]);
      if r != p { KeptHolds(m, c, m', c, r, shadow[r]); }
    }
  }

  lemma AllFreeDead(m: Mem, areas: Areas)
    ensures Faithful(m, AllFree(areas), map[]) && Roomy(AllFree(areas), Client(map[], map[]))
  {
  }

  /** Freeing every live block of a fixed-size pool, in any order, gives back each area as one free chunk. */
  method FreeEach(pool: AllocPool, blocks: seq<int>)
    requires pool.Valid() && pool.mAreaMoreSize == 0
    requires NoDup(blocks) && forall p :: p in blocks <==> pool.IsLive(p)
    modifies pool
    ensures pool.Valid() && pool.areaSize == old(pool.areaSize) && pool.chunks == AllFree(pool.areaSize)
  {
    hide PoolInv, Evolves, FreeEffect;
    for i := 0 to |blocks|
      invariant pool.Valid() && pool.areaSize == old(pool.areaSize)
      invariant forall p :: p in blocks[i..] <==> pool.IsLive(p)
    {
      var p := blocks[i];
      assert p in blocks[i..];
      assert forall q :: q in blocks[i..] <==> (q in pool.chunks && pool.chunks[q].inUse);
      ghost var m, c, areas := pool.mem, pool.chunks, pool.areaSize;
      InvParts(pool.mem, pool.mBinBlocks, pool.mAreas, pool.areaSize, pool.chunks, pool.rings);
      BlockGrid(areas, c, p);
      pool.Free(p + HEADER);
      FreeShrinks(p, m, c, areas, pool.mem, pool.chunks, pool.areaSize);
      assert blocks[i..] == [p] + blocks[i + 1..];
      assert forall q :: q in blocks[i..] <==> q == p || q in blocks[i + 1..];
      assert p !in blocks[i + 1..];
      assert forall q :: pool.IsLive(q) <==> (q in c && c[q].inUse && q != p);
    }
    InvParts(pool.mem, pool.mBinBlocks, pool.mAreas, pool.areaSize, pool.chunks, pool.rings);
    forall p | p in pool.chunks
      ensures !pool.chunks[p].inUse
    {
      assert p in blocks[|blocks|..] <==> pool.IsLive(p);
    }
    AllFreed(pool.areaSize, pool.chunks);
  }

  lemma FreeShrinks(p: int, m: Mem, c: Chunks, areas: Areas, m': Mem, c': Chunks, areas': Areas)
    requires FreeEffect(false, p, m, c, areas, m', c', areas')
    ensures areas' == areas && forall q :: (q in c' && c'[q].inUse) <==> (q in c && c[q].inUse && q != p)
  {
    forall q | q in c && c[q].inUse && q != p
      ensures q in c' && c'[q].inUse
    {
      assert Kept(m, c, m', c', q);
    }
  }
}
