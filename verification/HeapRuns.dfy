/**
  Whole histories of calls on the real heap: what the pointer structure does is what the tiles
  do, call after call, and the words of a block that is never given back never change.
 */
module HeapRuns {
  import opened Tiles
  import opened Blocks
  import opened HoleList
  import opened Heap

  datatype Call = Malloc(bytes: nat) | Free(ptr: nat)

  /** Index of the tile that starts at `at`, or the number of tiles. */
  function IndexOf(t: seq<Tile>, at: nat): (k: nat)
    ensures k <= |t| && (k < |t| ==> t[k].at == at)
    ensures forall j :: 0 <= j < k ==> t[j].at != at
  {
    if t == [] || t[0].at == at then 0 else IndexOf(t[1..], at) + 1
  }

  /** The call as an operation on tiles; a call that changes nothing is an empty request. */
  function OpOf(s: State, c: Call): Op
  {
    match c
    case Malloc(bytes) => Op.Malloc(if bytes == 0 then 0 else ChunksFor(bytes))
    case Free(ptr) =>
      if ptr % CHUNK_BYTES == HEADER_BYTES then Op.Free(IndexOf(s.tiles, ptr / CHUNK_BYTES)) else Op.Malloc(0)
  }

  /** What the call returns; `free` returns nothing. */
  function ResultOf(s: State, c: Call, limit: nat): seq<nat>
  {
    match c
    case Malloc(bytes) => [if bytes == 0 then 0 else Served(s, ChunksFor(bytes), limit)]
    case Free(_) => []
  }

  /** A request whose arithmetic does not wrap, or a pointer that is misaligned or in use. */
  predicate Legal(s: State, c: Call, start: nat)
  {
    match c
    case Malloc(bytes) =>
      && bytes < WORD_RANGE && (bytes > 0 ==> ChunksFor(bytes) > 0)
      && CHUNK_BYTES * (s.brk - start) + CHUNK_BYTES * ChunksFor(bytes) < WORD_RANGE
    case Free(ptr) =>
      && ptr < WORD_RANGE
      && (ptr % CHUNK_BYTES == HEADER_BYTES ==>
            var k := IndexOf(s.tiles, ptr / CHUNK_BYTES);
            k < |s.tiles| && !s.tiles[k].free)
  }

  ghost predicate LegalRun(s: State, calls: seq<Call>, start: nat, limit: nat)
    decreases |calls|
  {
    calls == [] ||
    (Legal(s, calls[0], start) && LegalRun(Step(s, OpOf(s, calls[0]), limit / CHUNK_BYTES), calls[1..], start, limit))
  }

  function Ops(s: State, calls: seq<Call>, limit: nat): seq<Op>
    decreases |calls|
  {
    if calls == [] then []
    else [OpOf(s, calls[0])] + Ops(Step(s, OpOf(s, calls[0]), limit / CHUNK_BYTES), calls[1..], limit)
  }

  function Results(s: State, calls: seq<Call>, limit: nat): seq<nat>
    decreases |calls|
  {
    if calls == [] then []
    else ResultOf(s, calls[0], limit) + Results(Step(s, OpOf(s, calls[0]), limit / CHUNK_BYTES), calls[1..], limit)
  }

  /** One call. */
  method Perform(a: Allocator, c: Call) returns (ptrs: seq<nat>)
    requires a.Valid() && Legal(a.State(), c, a.start)
    modifies a, a.mem
    ensures a.Valid() && a.State() == Step(old(a.State()), OpOf(old(a.State()), c), a.limit / CHUNK_BYTES)
    ensures ptrs == ResultOf(old(a.State()), c, a.limit)
    ensures forall x :: x in old(a.tiles) && !x.free && !Frees(old(a.State()), OpOf(old(a.State()), c), x) ==>
                          TileKept(old(a.mem[..]), a.mem[..], a.start, x)
    ensures c.Malloc? <==> ptrs != []
    ensures forall own :: InUse(old(a.tiles), own) ==> InUse(a.tiles, Gained(own, c, ptrs))
  {
    hide Layout, Stored, TileKept, ChunksFor, FirstFit, Take, Release, InUse;
    ghost var t := a.tiles;
    CallOwned(a.State(), c, a.start, a.limit);
    ptrs := [];
    match c
    case Malloc(bytes) =>
      var ptr := a.Malloc(bytes);
      ptrs := [ptr];
    case Free(ptr) =>
      ghost var k, m := IndexOf(t, ptr / CHUNK_BYTES), a.mem[..];
      a.Free(ptr, k);
      forall x | x in t && !x.free && !Frees(old(a.State()), OpOf(old(a.State()), c), x)
        ensures TileKept(m, a.mem[..], a.start, x)
      {
        KeptAtRest(m, a.start, x);
        var i: nat :| i < |t| && t[i] == x;
      }
  }

  /** Any history of legal calls: the state is that of the tiles, the pointers returned are those
      the tiles give, and every block in use that the history does not free keeps all its words. */
  method PerformAll(a: Allocator, calls: seq<Call>) returns (ptrs: seq<nat>)
    requires a.Valid() && LegalRun(a.State(), calls, a.start, a.limit)
    modifies a, a.mem
    ensures a.Valid()
    ensures a.State() == Run(old(a.State()), Ops(old(a.State()), calls, a.limit), a.limit / CHUNK_BYTES)
    ensures ptrs == Results(old(a.State()), calls, a.limit)
    ensures forall x :: x in old(a.tiles) && !x.free
                        && NeverFreed(old(a.State()), Ops(old(a.State()), calls, a.limit), a.limit / CHUNK_BYTES, x) ==>
                          TileKept(old(a.mem[..]), a.mem[..], a.start, x)
    ensures |ptrs| == Mallocs(calls)
    ensures forall own :: InUse(old(a.tiles), own) ==> InUse(a.tiles, Owned(own, calls, ptrs))
    decreases |calls|
  {
    hide TileKept, Step, OpOf, Layout, Stored, Legal, InUse;
    RunOwned(a.State(), calls, a.start, a.limit);
    ptrs := [];
    if calls == [] {
      forall x ensures TileKept(a.mem[..], a.mem[..], a.start, x) {
        KeptAtRest(a.mem[..], a.start, x);
      }
    } else {
      ghost var s, m, op, limit := a.State(), a.mem[..], OpOf(a.State(), calls[0]), a.limit / CHUNK_BYTES;
      ptrs := Perform(a, calls[0]);
      ghost var s', m' := a.State(), a.mem[..];
      var more := PerformAll(a, calls[1..]);
      ptrs := ptrs + more;
      ghost var ops := Ops(s, calls, a.limit);
      assert ops[0] == op && ops[1..] == Ops(s', calls[1..], a.limit);
      forall x | x in s.tiles && !x.free && NeverFreed(s, ops, limit, x)
        ensures TileKept(m, a.mem[..], a.start, x)
      {
        LiveStays(s, op, limit, x);
        KeptTwice(m, m', a.mem[..], a.start, x);
      }
    }
  }

  // ----- What the caller owns -----

  function PtrOf(x: Tile): nat
  {
    CHUNK_BYTES * x.at + HEADER_BYTES
  }

  /** The pointers a caller has after a call that returned `ptrs`, each with the bytes it asked
      for: a pointer is gained when it is returned and lost when it is freed. */
  function Gained(own: map<nat, nat>, c: Call, ptrs: seq<nat>): map<nat, nat>
    requires c.Malloc? ==> ptrs != []
  {
    match c
    case Malloc(bytes) => if ptrs[0] == 0 then own else own[ptrs[0] := bytes]
    case Free(ptr) => own - {ptr}
  }

  function Mallocs(calls: seq<Call>): nat
  {
    if calls == [] then 0 else (if calls[0].Malloc? then 1 else 0) + Mallocs(calls[1..])
  }

  function Owned(own: map<nat, nat>, calls: seq<Call>, ptrs: seq<nat>): map<nat, nat>
    requires |ptrs| == Mallocs(calls)
    decreases |calls|
  {
    if calls == [] then own
    else Owned(Gained(own, calls[0], ptrs), calls[1..], if calls[0].Malloc? then ptrs[1..] else ptrs)
  }

  /** The blocks in use are exactly those owned, each large enough for what was asked and at most
      one chunk larger than that takes. */
  ghost predicate InUse(t: seq<Tile>, own: map<nat, nat>)
  {
    && (forall y :: y in t && !y.free ==> PtrOf(y) in own)
    && (forall p :: p in own ==> exists y :: BlockFor(t, y, p, own[p]))
  }

  ghost predicate BlockFor(t: seq<Tile>, y: Tile, p: nat, bytes: nat)
  {
    y in t && !y.free && p == PtrOf(y) && ChunksFor(bytes) <= y.size <= ChunksFor(bytes) + 1
  }

  lemma GainedInUse(t: seq<Tile>, t': seq<Tile>, own: map<nat, nat>, x: Tile, bytes: nat)
    requires InUse(t, own) && Adds(t, t', x) && ChunksFor(bytes) <= x.size <= ChunksFor(bytes) + 1
    requires forall y :: y in t && !y.free ==> y.at != x.at
    ensures InUse(t', own[PtrOf(x) := bytes])
  {
    hide ChunksFor;
    var own' := own[PtrOf(x) := bytes];
    forall p | p in own' ensures exists y :: BlockFor(t', y, p, own'[p]) {
      if p == PtrOf(x) {
        assert BlockFor(t', x, p, bytes);
      } else {
        var y :| BlockFor(t, y, p, own[p]);
        assert BlockFor(t', y, p, own'[p]);
      }
    }
  }

  lemma LostInUse(t: seq<Tile>, t': seq<Tile>, own: map<nat, nat>, x: Tile)
    requires InUse(t, own) && Removes(t, t', x)
    requires forall y :: y in t && !y.free && y.at == x.at ==> y == x
    ensures InUse(t', own - {PtrOf(x)})
  {
    hide ChunksFor;
    var own' := own - {PtrOf(x)};
    forall p | p in own' ensures exists y :: BlockFor(t', y, p, own'[p]) {
      var y :| BlockFor(t, y, p, own[p]);
      assert BlockFor(t', y, p, own'[p]);
    }
  }

  lemma MallocOwned(s: State, bytes: nat, start: nat, limit: nat, own: map<nat, nat>)
    requires Layout(s.tiles, start, s.brk) && Legal(s, Call.Malloc(bytes), start) && InUse(s.tiles, own)
    ensures
      var c := Call.Malloc(bytes);
      InUse(Step(s, OpOf(s, c), limit / CHUNK_BYTES).tiles, Gained(own, c, ResultOf(s, c, limit)))
  {
    hide Layout, ChunksFor, Step, InUse, Adds, HasRoom;
    var n := ChunksFor(bytes);
    if bytes == 0 {
      NoRequest(s, limit / CHUNK_BYTES);
    } else {
      ServedMeaning(s, n, limit, start);
      if Served(s, n, limit) > 0 {
        var s' := Step(s, Tiles.Malloc(n), limit / CHUNK_BYTES);
        var x :| Due(s, n, x) && Adds(s.tiles, s'.tiles, x) && Served(s, n, limit) == CHUNK_BYTES * x.at + HEADER_BYTES;
        DueApart(s, n, x, start);
        GainedInUse(s.tiles, s'.tiles, own, x, bytes);
      }
    }
  }

  lemma NoRequest(s: State, limit: nat)
    ensures Step(s, Tiles.Malloc(0), limit) == s
  {
  }

  lemma FreeOwned(s: State, ptr: nat, start: nat, limit: nat, own: map<nat, nat>)
    requires Layout(s.tiles, start, s.brk) && Legal(s, Call.Free(ptr), start) && InUse(s.tiles, own)
    ensures InUse(Step(s, OpOf(s, Call.Free(ptr)), limit / CHUNK_BYTES).tiles, own - {ptr})
  {
    hide Layout, Step, InUse, Removes, InHole;
    if ptr % CHUNK_BYTES == HEADER_BYTES {
      var k := IndexOf(s.tiles, ptr / CHUNK_BYTES);
      FreeBlocks(s, k, limit / CHUNK_BYTES, start);
      LayoutTiling(s.tiles, start, s.brk);
      OccursOnce(s.tiles, k, start, s.brk);
      LostInUse(s.tiles, Step(s, OpOf(s, Call.Free(ptr)), limit / CHUNK_BYTES).tiles, own, s.tiles[k]);
    } else {
      NoRequest(s, limit / CHUNK_BYTES);
      OwnedAligned(s.tiles, own);
      assert own - {ptr} == own;
    }
  }

  lemma OwnedAligned(t: seq<Tile>, own: map<nat, nat>)
    requires InUse(t, own)
    ensures forall p :: p in own ==> p % CHUNK_BYTES == HEADER_BYTES
  {
    hide ChunksFor, PtrOf;
    forall p | p in own ensures p % CHUNK_BYTES == HEADER_BYTES {
      var y :| BlockFor(t, y, p, own[p]);
      PtrAligned(y);
    }
  }

  lemma PtrAligned(x: Tile)
    ensures PtrOf(x) % CHUNK_BYTES == HEADER_BYTES && PtrOf(x) / CHUNK_BYTES == x.at
  {
  }

  lemma CallOwned(s: State, c: Call, start: nat, limit: nat)
    requires Layout(s.tiles, start, s.brk) && Legal(s, c, start)
    ensures forall own :: InUse(s.tiles, own) ==>
                            InUse(Step(s, OpOf(s, c), limit / CHUNK_BYTES).tiles, Gained(own, c, ResultOf(s, c, limit)))
  {
    hide Layout, Step, InUse, OpOf, Legal;
    forall own | InUse(s.tiles, own)
      ensures InUse(Step(s, OpOf(s, c), limit / CHUNK_BYTES).tiles, Gained(own, c, ResultOf(s, c, limit)))
    {
      match c {
        case Malloc(bytes) => MallocOwned(s, bytes, start, limit, own);
        case Free(ptr) => FreeOwned(s, ptr, start, limit, own);
      }
    }
  }

  /** A pointer may be freed if and only if it is misaligned, and so ignored, or owned. */
  lemma MayFreeExactly(s: State, ptr: nat, start: nat, own: map<nat, nat>)
    requires Layout(s.tiles, start, s.brk) && InUse(s.tiles, own) && ptr < WORD_RANGE
    ensures Legal(s, Call.Free(ptr), start) <==> ptr % CHUNK_BYTES != HEADER_BYTES || ptr in own
  {
    hide ChunksFor, Layout;
    var k := IndexOf(s.tiles, ptr / CHUNK_BYTES);
    assert k < |s.tiles| ==> s.tiles[k] in s.tiles;
    if ptr % CHUNK_BYTES == HEADER_BYTES {
      if ptr in own {
        var y :| BlockFor(s.tiles, y, ptr, own[ptr]);
        assert y.at == ptr / CHUNK_BYTES;
        var j: nat :| j < |s.tiles| && s.tiles[j] == y;
        LayoutTiling(s.tiles, start, s.brk);
        OccursOnce(s.tiles, j, start, s.brk);
        assert k <= j && s.tiles[k] in s.tiles;
      }
    }
  }

  lemma {:induction false} OwnedInUse(s: State, calls: seq<Call>, start: nat, limit: nat, own: map<nat, nat>)
    requires Layout(s.tiles, start, s.brk) && LegalRun(s, calls, start, limit) && InUse(s.tiles, own)
    requires |Results(s, calls, limit)| == Mallocs(calls)
    ensures InUse(Run(s, Ops(s, calls, limit), limit / CHUNK_BYTES).tiles, Owned(own, calls, Results(s, calls, limit)))
    decreases |calls|
  {
    hide Layout, Step, InUse, OpOf, Legal;
    if calls != [] {
      var c, op := calls[0], OpOf(s, calls[0]);
      var s1, first := Step(s, op, limit / CHUNK_BYTES), ResultOf(s, calls[0], limit);
      CallOwned(s, c, start, limit);
      StepKeepsLayout(s, op, limit / CHUNK_BYTES, start);
      var rest := Results(s1, calls[1..], limit);
      ResultsCounted(s1, calls[1..], limit);
      assert (first + rest)[|first|..] == rest;
      assert Gained(own, c, first) == Gained(own, c, first + rest);
      OwnedInUse(s1, calls[1..], start, limit, Gained(own, c, first));
      assert Ops(s, calls, limit)[1..] == Ops(s1, calls[1..], limit);
    }
  }

  lemma RunOwned(s: State, calls: seq<Call>, start: nat, limit: nat)
    requires Layout(s.tiles, start, s.brk) && LegalRun(s, calls, start, limit)
    ensures |Results(s, calls, limit)| == Mallocs(calls)
    ensures forall own :: InUse(s.tiles, own) ==>
                            InUse(Run(s, Ops(s, calls, limit), limit / CHUNK_BYTES).tiles,
                                  Owned(own, calls, Results(s, calls, limit)))
  {
    hide Layout, InUse, LegalRun, Run, Owned, Ops;
    ResultsCounted(s, calls, limit);
    forall own | InUse(s.tiles, own)
      ensures InUse(Run(s, Ops(s, calls, limit), limit / CHUNK_BYTES).tiles, Owned(own, calls, Results(s, calls, limit)))
    {
      OwnedInUse(s, calls, start, limit, own);
    }
  }

  lemma {:induction false} ResultsCounted(s: State, calls: seq<Call>, limit: nat)
    ensures |Results(s, calls, limit)| == Mallocs(calls)
    decreases |calls|
  {
    hide Step, OpOf;
    if calls != [] {
      ResultsCounted(Step(s, OpOf(s, calls[0]), limit / CHUNK_BYTES), calls[1..], limit);
    }
  }

  /** Over a whole life of the heap: the blocks in use are exactly those whose pointers were
      returned and not freed since, so once every pointer is given back one hole is left. */
  method Lifetime(start: nat, limit: nat, calls: seq<Call>) returns (a: Allocator, ptrs: seq<nat>)
    requires 0 < start && CHUNK_BYTES * start <= limit < WORD_RANGE
    requires LegalRun(State([], start), calls, start, limit)
    ensures a.Valid() && a.start == start && |ptrs| == Mallocs(calls)
    ensures InUse(a.tiles, Owned(map[], calls, ptrs))
    ensures Owned(map[], calls, ptrs) == map[] ==>
              a.tiles == if start < a.brk then [Tile(start, a.brk - start, true)] else []
  {
    hide Layout, Stored, LegalRun, Run, Owned;
    a := new Allocator(start, limit);
    AtFirst(start);
    ptrs := PerformAll(a, calls);
    if Owned(map[], calls, ptrs) == map[] {
      NothingOwned(a.tiles, start, a.brk);
    }
  }

  lemma AtFirst(start: nat)
    ensures Layout([], start, start) && InUse([], map[])
  {
  }

  lemma NothingOwned(t: seq<Tile>, lo: nat, hi: nat)
    requires Layout(t, lo, hi) && InUse(t, map[])
    ensures t == if lo < hi then [Tile(lo, hi - lo, true)] else []
  {
    hide Layout;
    forall i | 0 <= i < |t| ensures t[i].free {
      assert t[i] in t;
    }
    AllFree(t, lo, hi);
  }

  lemma DueApart(s: State, n: nat, x: Tile, lo: nat)
    requires Layout(s.tiles, lo, s.brk) && n > 0 && Due(s, n, x)
    ensures n <= x.size <= n + 1 && forall y :: y in s.tiles && !y.free ==> y.at != x.at
  {
    hide HasRoom;
    LayoutTiling(s.tiles, lo, s.brk);
    AllOrdered(s.tiles, lo, s.brk);
    if HasRoom(s.tiles, n) {
      var h :| LowestRoom(s.tiles, n, h) && x == Tile(h.at, if h.size == n + 1 then n + 1 else n, false);
      var i: nat :| i < |s.tiles| && s.tiles[i] == h;
      OccursOnce(s.tiles, i, lo, s.brk);
    }
  }

  lemma KeptAtRest(m: seq<nat>, lo: nat, x: Tile)
    ensures TileKept(m, m, lo, x)
  {
  }

  lemma KeptTwice(m: seq<nat>, m': seq<nat>, m'': seq<nat>, lo: nat, x: Tile)
    requires TileKept(m, m', lo, x) && TileKept(m', m'', lo, x)
    ensures TileKept(m, m'', lo, x)
  {
  }
}
