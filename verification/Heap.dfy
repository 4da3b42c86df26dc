/**
  The first-fit allocator: an address-ordered list of holes threaded through the heap itself.
  Addresses inside the class are chunk numbers (byte address divided by 8), 0 being the null
  pointer; the pointers given to and taken from callers are byte addresses.
 */
module Heap {
  import opened Tiles
  import opened Blocks
  import opened HoleList

  const CHUNK_BYTES: nat := 8
  const HEADER_BYTES: nat := 4
  const WORD_RANGE: nat := 0x1_0000_0000

  /** `bytes2chunks(bytes + sizeof(struct mem))` in 32-bit arithmetic. */
  function ChunksFor(bytes: nat): nat
  {
    (((bytes + HEADER_BYTES) % WORD_RANGE + CHUNK_BYTES - 1) % WORD_RANGE) / CHUNK_BYTES
  }

  /** The new break `sbrk` computes, in bytes and 32-bit arithmetic. */
  function BreakAfter(brk: nat, chunks: nat): nat
  {
    (CHUNK_BYTES * brk + CHUNK_BYTES * chunks) % WORD_RANGE
  }

  function AlignUp(address: nat): nat
  {
    (address + CHUNK_BYTES - 1) / CHUNK_BYTES * CHUNK_BYTES
  }

  /** The block computed for a request holds it if and only if the size does not wrap, and is then
      the smallest that does. */
  lemma RequestCovered(bytes: nat)
    requires bytes < WORD_RANGE
    ensures bytes <= CHUNK_BYTES * ChunksFor(bytes) - HEADER_BYTES <==> bytes <= 0xffff_fff4
    ensures bytes <= 0xffff_fff4 ==> CHUNK_BYTES * (ChunksFor(bytes) - 1) - HEADER_BYTES < bytes
  {
  }

  /** `sbrk` accepts a growth if and only if it really fits, exactly when the growth cannot wrap
      past the heap start; beyond that a huge request moves the break backwards. */
  lemma BreakExact(start: nat, brk: nat, chunks: nat, limit: nat)
    requires start <= brk && CHUNK_BYTES * brk <= limit < WORD_RANGE && CHUNK_BYTES * chunks < WORD_RANGE
    ensures
      var accepted := CHUNK_BYTES * start <= BreakAfter(brk, chunks) <= limit;
      var fits := CHUNK_BYTES * (brk + chunks) <= limit;
      (accepted <==> fits) <==> CHUNK_BYTES * (brk - start) + CHUNK_BYTES * chunks < WORD_RANGE
  {
  }

  /** A block's address passes the alignment test in `free` if and only if the heap starts on a
      chunk boundary; otherwise every `free` is ignored. */
  lemma FreeHonoured(start: nat, chunk: nat)
    ensures AlignUp(start + CHUNK_BYTES * chunk) == start + CHUNK_BYTES * chunk <==> start % CHUNK_BYTES == 0
  {
  }

  class Allocator {
    /** First chunk of the heap, and the end of the heap in bytes. */
    const start: nat
    const limit: nat
    /** The heap's words, two to a chunk. */
    const mem: array<nat>
    /** Address of the first hole. */
    var holes: nat
    /** The break: first chunk not yet in the heap. */
    var brk: nat
    /** The blocks and holes, in address order. */
    ghost var tiles: seq<Tile>

    ghost predicate Valid()
      reads this, mem
    {
      && 0 < start <= brk && CHUNK_BYTES * brk <= limit < WORD_RANGE
      && mem.Length == 2 * (limit / CHUNK_BYTES - start)
      && Layout(tiles, start, brk)
      && Stored(mem[..], start, tiles)
      && holes == Head(tiles)
    }

    ghost function State(): State
      reads this
    {
      Tiles.State(tiles, brk)
    }

    constructor (start: nat, limit: nat)
      requires 0 < start && CHUNK_BYTES * start <= limit < WORD_RANGE
      ensures Valid() && fresh(mem) && tiles == [] && brk == start
      ensures this.start == start && this.limit == limit
    {
      this.start, this.limit := start, limit;
      mem := new nat[2 * (limit / CHUNK_BYTES - start)](_ => 0);
      holes, brk, tiles := 0, start, [];
    }

    /** A caller writing into its own block disturbs nothing. */
    method Store(ghost k: nat, w: nat, value: nat)
      requires Valid() && k < |tiles| && !tiles[k].free
      requires w < mem.Length && InPayload(tiles[k], start, w)
      modifies mem
      ensures Valid() && mem[..] == old(mem[..])[w := value]
    {
      PayloadWriteStored(mem[..], start, brk, tiles, k, w, value);
      mem[w] := value;
      assert mem[..] == old(mem[..])[w := value];
    }

    /** Hands a whole hole to the caller. */
    method ServeWhole(prev: nat, hole: nat, size: nat, ghost p: int, ghost f: nat)
      requires Valid() && f < |tiles| && tiles[f].free && LastHoleBefore(tiles, p, f)
      requires hole == tiles[f].at && prev == if p < 0 then 0 else tiles[p].at
      requires 0 < size <= tiles[f].size <= size + 1
      modifies this, mem
      ensures Valid() && brk == old(brk)
      ensures tiles == Take(old(tiles), f, size)
      ensures BlocksKept(old(mem[..]), mem[..], start, old(tiles), f, f + 1)
    {
      hide Layout, Stored, BlocksKept;
      ghost var t, m := tiles, mem[..];
      StoredTile(m, start, t, f);
      if 0 <= p { StoredTile(m, start, t, p); }
      TakeKeepsLayout(t, f, size, start, brk);
      var n := size;
      if mem[Word(start, hole)] > size {
        n := n + 1;
      }
      var next := mem[Word(start, hole) + 1];
      if prev != 0 {
        mem[Word(start, prev) + 1] := next;
      } else {
        holes := next;
      }
      mem[Word(start, hole)] := n;
      WholeTaken(m, mem[..], start, brk, t, p, f);
      tiles := t[f := t[f].(free := false)];
    }

    /** Writes the headers of a block of `size` chunks at `hole` and of the hole left behind it. */
    method WriteSplit(prev: nat, hole: nat, size: nat, ghost p: int, ghost f: nat)
      requires f < |tiles| && -1 <= p < f && Sized(mem[..], start, tiles[f]) && (0 <= p ==> Sized(mem[..], start, tiles[p]))
      requires 0 < size && size + 1 < tiles[f].size && (0 <= p ==> tiles[p].End() <= tiles[f].at)
      requires hole == tiles[f].at && (if p < 0 then prev == 0 else prev == tiles[p].at > 0)
      modifies mem
      ensures mem[..] == SplitWords(old(mem[..]), start, tiles, p, f, size)
    {
      ghost var m := mem[..];
      var rem := mem[Word(start, hole)] - size;
      var next := mem[Word(start, hole) + 1];
      var rest := hole + size;
      mem[Word(start, rest)] := rem;
      mem[Word(start, rest) + 1] := next;
      ghost var m2 := m[Word(start, rest) := rem][Word(start, rest) + 1 := next];
      assert mem[..] == m2;
      if prev != 0 {
        mem[Word(start, prev) + 1] := rest;
      }
      assert mem[..] == Relink(m2, start, tiles, p, rest);
      mem[Word(start, hole)] := size;
    }

    /** Hands the start of a hole to the caller; the rest stays in the list. */
    method ServeSplit(prev: nat, hole: nat, size: nat, ghost p: int, ghost f: nat)
      requires Valid() && f < |tiles| && tiles[f].free && LastHoleBefore(tiles, p, f)
      requires hole == tiles[f].at && prev == if p < 0 then 0 else tiles[p].at
      requires 0 < size && size + 1 < tiles[f].size
      modifies this, mem
      ensures Valid() && brk == old(brk)
      ensures tiles == Take(old(tiles), f, size)
      ensures BlocksKept(old(mem[..]), mem[..], start, old(tiles), f, f + 1)
    {
      hide Layout, Stored, BlocksKept, SplitWords;
      ghost var t, m := tiles, mem[..];
      StoredTile(m, start, t, f);
      NeighbourAt(t, f, start, brk);
      if 0 <= p { StoredTile(m, start, t, p); }
      TakeKeepsLayout(t, f, size, start, brk);
      Split(m, start, brk, t, p, f, size);
      WriteSplit(prev, hole, size, p, f);
      if prev == 0 {
        holes := hole + size;
      }
      tiles := Take(t, f, size);
    }

    /** The tests `sbrk` makes and the break it returns; `Grow` moves the break together with the
        header of the new block. */
    method Sbrk(chunks: nat) returns (ok: bool, at: nat)
      requires Valid() && CHUNK_BYTES * chunks < WORD_RANGE
      ensures at == brk
      ensures (ok <==> CHUNK_BYTES * (brk + chunks) <= limit) <==>
              CHUNK_BYTES * (brk - start) + CHUNK_BYTES * chunks < WORD_RANGE
    {
      BreakExact(start, brk, chunks, limit);
      at := brk;
      var newEnd := BreakAfter(brk, chunks);
      ok := newEnd <= limit && newEnd >= CHUNK_BYTES * start;
    }

    /** Appends a block at the break. */
    method Grow(size: nat)
      requires Valid() && 0 < size && CHUNK_BYTES * (brk + size) <= limit
      modifies this, mem
      ensures Valid() && brk == old(brk) + size
      ensures tiles == old(tiles) + [Tile(old(brk), size, false)]
      ensures BlocksKept(old(mem[..]), mem[..], start, old(tiles), |old(tiles)|, |old(tiles)|)
    {
      hide Layout, Stored, BlocksKept;
      ghost var m := mem[..];
      Grown(m, start, brk, tiles, size);
      GrowKeepsLayout(tiles, size, start, brk);
      mem[Word(start, brk)] := size;
      assert mem[..] == m[Word(start, brk) := size];
      tiles := tiles + [Tile(brk, size, false)];
      brk := brk + size;
    }

    /** Walks the list to the first hole of at least `size` chunks. */
    method Find(size: nat) returns (prev: nat, hole: nat, ghost p: int, ghost f: nat)
      requires Valid()
      ensures f == FirstFit(tiles, size) && hole == Addr(tiles, FirstFit(tiles, size))
      ensures f < |tiles| ==> LastHoleBefore(tiles, p, f) && prev == if p < 0 then 0 else tiles[p].at
    {
      hide Layout, Stored, FirstFit;
      prev, hole, p, f := 0, holes, -1, NextHole(tiles, 0);
      while hole != 0
        invariant f <= |tiles| && (f < |tiles| ==> tiles[f].free) && LastHoleBefore(tiles, p, f)
        invariant prev == if p < 0 then 0 else tiles[p].at
        invariant hole == Addr(tiles, f)
        invariant forall j :: 0 <= j < f ==> !(tiles[j].free && size <= tiles[j].size)
        decreases |tiles| - f
      {
        StoredTile(mem[..], start, tiles, f);
        if mem[Word(start, hole)] >= size {
          break;
        }
        prev, hole := hole, mem[Word(start, hole) + 1];
        p, f := f, NextHole(tiles, f + 1);
      }
      StartsPastNull(tiles, start, brk);
      FirstFitIs(tiles, size, f);
    }

    method Serve(prev: nat, hole: nat, size: nat, ghost p: int, ghost f: nat)
      requires Valid() && f < |tiles| && tiles[f].free && LastHoleBefore(tiles, p, f)
      requires hole == tiles[f].at && prev == if p < 0 then 0 else tiles[p].at
      requires 0 < size <= tiles[f].size
      modifies this, mem
      ensures Valid() && brk == old(brk)
      ensures tiles == Take(old(tiles), f, size)
      ensures BlocksKept(old(mem[..]), mem[..], start, old(tiles), f, f + 1)
    {
      hide Layout, Stored, BlocksKept, Take;
      StoredTile(mem[..], start, tiles, f);
      if mem[Word(start, hole)] <= size + 1 {
        ServeWhole(prev, hole, size, p, f);
      } else {
        ServeSplit(prev, hole, size, p, f);
      }
    }

    /** The lowest adequate hole serves the request, then the break; null only for zero bytes or
        when neither has room. No word of any block in use changes. */
    method Malloc(bytes: nat) returns (ptr: nat)
      requires Valid() && bytes < WORD_RANGE && (bytes > 0 ==> ChunksFor(bytes) > 0)
      requires CHUNK_BYTES * (brk - start) + CHUNK_BYTES * ChunksFor(bytes) < WORD_RANGE
      modifies this, mem
      ensures Valid()
      ensures bytes == 0 ==> ptr == 0 && State() == old(State())
      ensures bytes > 0 ==> State() == Step(old(State()), Tiles.Malloc(ChunksFor(bytes)), limit / CHUNK_BYTES)
      ensures bytes > 0 ==> ptr == Served(old(State()), ChunksFor(bytes), limit)
      ensures bytes > 0 ==>
                (ptr == 0 <==> !HasRoom(old(tiles), ChunksFor(bytes)) && CHUNK_BYTES * (old(brk) + ChunksFor(bytes)) > limit)
      ensures ptr == 0 ==> State() == old(State())
      ensures ptr > 0 ==> Gives(old(State()), ChunksFor(bytes), State(), ptr)
      ensures ptr > 0 && bytes <= 0xffff_fff4 ==> bytes <= CHUNK_BYTES * ChunksFor(bytes) - HEADER_BYTES
      ensures BlocksKept(old(mem[..]), mem[..], start, old(tiles), 0, 0)
    {
      hide Layout, Stored, Take, FirstFit, TileKept, ChunksFor, BreakAfter, HasRoom, Gives;
      ptr := 0;
      NothingWritten(mem[..], start, tiles);
      if bytes == 0 {
        return;
      }
      var size := ChunksFor(bytes);
      RequestCovered(bytes);
      var prev, hole, p, f := Find(size);
      StartsPastNull(tiles, start, brk);
      ServedMeaning(State(), size, limit, start);
      if hole != 0 {
        Serve(prev, hole, size, p, f);
        ptr := CHUNK_BYTES * hole + HEADER_BYTES;
      } else {
        var ok, block := Sbrk(size);
        if ok {
          Grow(size);
          ptr := CHUNK_BYTES * block + HEADER_BYTES;
        }
      }
    }

    /** Walks to the last hole before the block `block`, which has one before it. */
    method FindPrev(block: nat, ghost k: nat) returns (prev: nat, ghost p: int)
      requires Valid() && k < |tiles| && !tiles[k].free && block == tiles[k].at
      requires 0 < holes < block
      ensures LastHoleBefore(tiles, p, k) && 0 <= p && prev == tiles[p].at
      ensures p == LastHole(tiles, k) && prev == tiles[LastHole(tiles, k)].at
    {
      hide Layout, Stored;
      NeighbourAt(tiles, k, start, brk);
      StartsPastNull(tiles, start, brk);
      prev, p := holes, NextHole(tiles, 0);
      StoredTile(mem[..], start, tiles, p);
      var next := mem[Word(start, prev) + 1];
      while next < block && next != 0
        invariant 0 <= p < k && tiles[p].free && prev == tiles[p].at && next == NextAddr(tiles, p)
        decreases k - p
      {
        prev, p := next, NextHole(tiles, p + 1);
        StoredTile(mem[..], start, tiles, p);
        next := mem[Word(start, prev) + 1];
      }
      assert k <= NextHole(tiles, p + 1);
      assert LastHole(tiles, k) == p;
    }

    /** Joins block `block` with the hole before it, or links it in after that hole. */
    method JoinPrev(prev: nat, block: nat, ghost p: int, ghost k: nat) returns (hole: nat)
      requires Valid() && k < |tiles| && !tiles[k].free && block == tiles[k].at
      requires LastHoleBefore(tiles, p, k) && 0 <= p && prev == tiles[p].at
      modifies mem
      ensures hole == JoinedLeft(tiles, k).at
      ensures HalfReleased(old(mem[..]), mem[..], start, tiles, p, k)
      ensures start <= hole && Word(start, hole) + 1 < mem.Length && mem[..][Word(start, hole) + 1] == NextAddr(tiles, k)
    {
      hide Layout, Stored, HalfReleased;
      ghost var m: seq<nat> := mem[..];
      StoredTile(m, start, tiles, p);
      StoredTile(m, start, tiles, k);
      TouchesPrev(tiles, p, k, start, brk);
      if block <= prev + mem[Word(start, prev)] {
        PrevExtended(m, start, brk, tiles, p, k);
        mem[Word(start, prev)] := mem[Word(start, prev)] + mem[Word(start, block)];
        assert mem[..] == m[Word(start, prev) := tiles[p].size + tiles[k].size];
        hole := prev;
      } else {
        PrevLinked(m, start, brk, tiles, p, k);
        mem[Word(start, block) + 1] := mem[Word(start, prev) + 1];
        mem[Word(start, prev) + 1] := block;
        assert mem[..] == m[Word(start, block) + 1 := NextAddr(tiles, p)][Word(start, prev) + 1 := block];
        hole := block;
      }
    }

    /** Joins the freed hole with the one after it if they touch, or links it before it. */
    method JoinNext(hole: nat, next: nat, ghost m: seq<nat>, ghost p: int, ghost k: nat)
      requires k < |tiles| && LastHoleBefore(tiles, p, k) && Layout(tiles, start, brk)
      requires hole == JoinedLeft(tiles, k).at && NextHole(tiles, k + 1) < |tiles|
      requires next == tiles[NextHole(tiles, k + 1)].at
      requires HalfReleased(m, mem[..], start, tiles, p, k)
      modifies mem
      ensures ReleaseWords(m, mem[..], start, tiles, p, k)
    {
      hide Layout, OnlyWrites, ReleaseWords;
      ghost var m1 := mem[..];
      JoinedReleased(m, m1, start, brk, tiles, p, k);
      if next <= hole + mem[Word(start, hole)] {
        var link := mem[Word(start, next) + 1];
        mem[Word(start, hole)] := mem[Word(start, hole)] + mem[Word(start, next)];
        mem[Word(start, hole) + 1] := link;
      } else {
        mem[Word(start, hole) + 1] := next;
      }
      assert mem[..] == NextJoined(m1, start, JoinedLeft(tiles, k), tiles[NextHole(tiles, k + 1)]);
    }

    /** Puts block `k` in the list after the hole before it. */
    method InsertAfter(block: nat, ghost k: nat) returns (ghost p: int)
      requires Valid() && k < |tiles| && !tiles[k].free && block == tiles[k].at && 0 < holes < block
      modifies mem
      ensures LastHoleBefore(tiles, p, k) && 0 <= p
      ensures ReleaseWords(old(mem[..]), mem[..], start, tiles, p, k)
    {
      hide Layout, Stored, HalfReleased, ReleaseWords, JoinedLeft;
      ghost var m := mem[..];
      var prev;
      StartsPastNull(tiles, start, brk);
      prev, p := FindPrev(block, k);
      StoredTile(m, start, tiles, p);
      NextHoleIs(tiles, p + 1, NextHole(tiles, k + 1));
      var next := mem[Word(start, prev) + 1];
      var hole := JoinPrev(prev, block, p, k);
      if next != 0 {
        JoinNext(hole, next, m, p, k);
      } else {
        LastReleased(m, mem[..], start, brk, tiles, p, k);
      }
    }

    /** Makes block `k` the head of a list that is empty or starts after it. */
    method InsertFirst(block: nat, ghost k: nat)
      requires Valid() && k < |tiles| && !tiles[k].free && block == tiles[k].at
      requires LastHoleBefore(tiles, -1, k)
      modifies mem, this`holes
      ensures holes == block
      ensures ReleaseWords(old(mem[..]), mem[..], start, tiles, -1, k)
    {
      hide Layout, Stored, HalfReleased, ReleaseWords;
      ghost var m: seq<nat> := mem[..];
      StartsPastNull(tiles, start, brk);
      StoredTile(m, start, tiles, k);
      NoPrev(m, start, brk, tiles, k);
      if holes == 0 {
        OnlyHole(m, start, brk, tiles, k);
        mem[Word(start, block) + 1] := 0;
        assert mem[..] == m[Word(start, block) + 1 := 0];
        holes := block;
      } else {
        var next := holes;
        holes := block;
        JoinNext(block, next, m, -1, k);
      }
    }

    /** Gives block `k` back to the list. */
    method FreeBlock(block: nat, ghost k: nat)
      requires Valid() && k < |tiles| && !tiles[k].free && block == tiles[k].at
      modifies this, mem
      ensures Valid() && brk == old(brk) && tiles == Release(old(tiles), k)
      ensures BlocksKept(old(mem[..]), mem[..], start, old(tiles), k, k + 1)
    {
      hide Layout, Stored, ReleaseWords, Release, BlocksKept;
      ghost var t, m, p := tiles, mem[..], -1;
      HeadBefore(t, k, start, brk);
      if 0 < holes < block {
        p := InsertAfter(block, k);
      } else {
        InsertFirst(block, k);
      }
      Released(m, mem[..], start, brk, t, p, k);
      ReleaseKeepsLayout(t, k, start, brk);
      tiles := Release(t, k);
    }

    /** Gives the block at `ptr` back; a pointer that is not four past a chunk boundary, such as
        null, changes nothing. Otherwise the caller owns the block: `k` is its index. */
    method Free(ptr: nat, ghost k: nat)
      requires Valid() && ptr < WORD_RANGE
      requires ptr % CHUNK_BYTES == HEADER_BYTES ==>
                 k < |tiles| && !tiles[k].free && ptr == CHUNK_BYTES * tiles[k].at + HEADER_BYTES
      modifies this, mem
      ensures Valid() && brk == old(brk)
      ensures State() == if ptr % CHUNK_BYTES == HEADER_BYTES then Step(old(State()), Tiles.Free(k), limit / CHUNK_BYTES)
                         else old(State())
      ensures ptr % CHUNK_BYTES == HEADER_BYTES ==>
                Removes(old(tiles), tiles, old(tiles)[k]) && InHole(tiles, old(tiles)[k])
      ensures ptr % CHUNK_BYTES != HEADER_BYTES ==> tiles == old(tiles) && mem[..] == old(mem[..])
      ensures BlocksKept(old(mem[..]), mem[..], start, old(tiles), k, k + 1)
    {
      hide Layout, Stored, Release, TileKept, Removes, InHole;
      NothingWritten(mem[..], start, tiles);
      var at := HeaderOf(ptr);
      if at == AlignUp(at) % WORD_RANGE {
        var block := at / CHUNK_BYTES;
        StoredTile(mem[..], start, tiles, k);
        FreeBlocks(State(), k, limit / CHUNK_BYTES, start);
        if mem[Word(start, block)] != 0 {
          FreeBlock(block, k);
        }
      }
    }
  }

  /** `(size_t)ptr - sizeof(struct mem)` in 32-bit arithmetic. */
  function HeaderOf(ptr: nat): (at: nat)
    requires ptr < WORD_RANGE
    ensures at == AlignUp(at) % WORD_RANGE <==> ptr % CHUNK_BYTES == HEADER_BYTES
    ensures ptr % CHUNK_BYTES == HEADER_BYTES ==> ptr == CHUNK_BYTES * (at / CHUNK_BYTES) + HEADER_BYTES
  {
    (ptr + WORD_RANGE - HEADER_BYTES) % WORD_RANGE
  }

  /** The first hole, if any, lies before block `k` or there is none before it. */
  lemma HeadBefore(t: seq<Tile>, k: nat, lo: nat, hi: nat)
    requires Layout(t, lo, hi) && 0 < lo && k < |t| && !t[k].free
    ensures !(0 < Head(t) < t[k].at) ==> LastHoleBefore(t, -1, k)
  {
    AllOrdered(t, lo, hi);
  }

  lemma TouchesPrev(t: seq<Tile>, p: nat, k: nat, lo: nat, hi: nat)
    requires Layout(t, lo, hi) && p < k < |t|
    ensures t[k].at <= t[p].End() <==> p == k - 1
  {
    AllOrdered(t, lo, hi);
    assert t[k - 1 + 1].at == t[k - 1].End();
    assert p + 1 < k ==> t[p].End() <= t[p + 1].at && t[p + 1].End() <= t[k].at;
  }

  lemma StartsPastNull(t: seq<Tile>, lo: nat, hi: nat)
    requires Layout(t, lo, hi)
    ensures forall i :: 0 <= i < |t| ==> lo <= t[i].at
  {
    AllOrdered(t, lo, hi);
  }

  lemma NothingWritten(m: seq<nat>, lo: nat, t: seq<Tile>)
    ensures BlocksKept(m, m, lo, t, 0, 0)
  {
  }

  /** The pointer a request for `n > 0` chunks gets. */
  function Served(s: State, n: nat, limit: nat): nat
  {
    var i := FirstFit(s.tiles, n);
    if i < |s.tiles| then CHUNK_BYTES * s.tiles[i].at + HEADER_BYTES
    else if CHUNK_BYTES * (s.brk + n) <= limit then CHUNK_BYTES * s.brk + HEADER_BYTES
    else 0
  }

  /** The pointer is that of the block due to a request for `n` chunks, which joins those in use;
      the break moves only when no hole was adequate. */
  ghost predicate Gives(s: State, n: nat, s': State, ptr: nat)
  {
    && s'.brk == (if HasRoom(s.tiles, n) then s.brk else s.brk + n)
    && exists x :: Due(s, n, x) && Adds(s.tiles, s'.tiles, x) && ptr == CHUNK_BYTES * x.at + HEADER_BYTES
  }

  lemma ServedMeaning(s: State, n: nat, limit: nat, lo: nat)
    requires Layout(s.tiles, lo, s.brk) && n > 0
    ensures
      var ptr := Served(s, n, limit);
      var s' := Step(s, Tiles.Malloc(n), limit / CHUNK_BYTES);
      && (ptr == 0 <==> !HasRoom(s.tiles, n) && CHUNK_BYTES * (s.brk + n) > limit)
      && (ptr == 0 ==> s' == s) && (ptr > 0 ==> Gives(s, n, s', ptr))
  {
    hide Layout, FirstFit, HasRoom, Adds, Take;
    RoomIsFirstFit(s.tiles, n);
    var x := MallocBlocks(s, n, limit / CHUNK_BYTES, lo);
    if FirstFit(s.tiles, n) < |s.tiles| {
      var h := s.tiles[FirstFit(s.tiles, n)];
      FirstFitLowest(s.tiles, n, lo, s.brk);
      DueOnce(s, n, x, Tile(h.at, if h.size == n + 1 then n + 1 else n, false), lo);
    }
  }

  /** A pointer given out has `bytes` octets behind it, inside the heap and clear of every block
      in use, headers included. */
  lemma PayloadIsolated(s: State, bytes: nat, limit: nat, lo: nat) returns (x: Tile)
    requires Layout(s.tiles, lo, s.brk) && CHUNK_BYTES * s.brk <= limit && 0 < bytes <= 0xffff_fff4
    requires Served(s, ChunksFor(bytes), limit) != 0
    ensures
      var ptr := Served(s, ChunksFor(bytes), limit);
      var s' := Step(s, Tiles.Malloc(ChunksFor(bytes)), limit / CHUNK_BYTES);
      && x in s'.tiles && !x.free && ptr == CHUNK_BYTES * x.at + HEADER_BYTES
      && lo <= x.at && ptr + bytes <= CHUNK_BYTES * x.End() <= limit
      && forall y :: y in s.tiles && !y.free ==> y.End() <= x.at || x.End() <= y.at
  {
    hide ChunksFor, FirstFit, Layout;
    var n := ChunksFor(bytes);
    RequestCovered(bytes);
    assert n > 0;
    ServedChanges(s, n, limit, lo);
    x := Granted(s, n, limit / CHUNK_BYTES, lo);
    StepKeepsLayout(s, Tiles.Malloc(n), limit / CHUNK_BYTES, lo);
  }

  lemma ServedChanges(s: State, n: nat, limit: nat, lo: nat)
    requires Layout(s.tiles, lo, s.brk) && n > 0 && Served(s, n, limit) != 0
    ensures Step(s, Tiles.Malloc(n), limit / CHUNK_BYTES) != s
    ensures Served(s, n, limit) == CHUNK_BYTES * GrantAt(s, n) + HEADER_BYTES
  {
    hide Layout;
    var i := FirstFit(s.tiles, n);
    if i < |s.tiles| {
      assert !Take(s.tiles, i, n)[i].free;
    }
  }

  lemma FirstFitIs(t: seq<Tile>, n: nat, i: nat)
    requires i <= |t| && (i < |t| ==> t[i].free && n <= t[i].size)
    requires forall j :: 0 <= j < i ==> !(t[j].free && n <= t[j].size)
    ensures FirstFit(t, n) == i
  {
  }
}
