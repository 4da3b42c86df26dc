/**
  What the allocator's operations mean for the blocks in use, said without the search, the split
  or the merge: who gets memory, which block appears, which one goes. With no two holes touching,
  this decides the whole state.
 */
module Blocks {
  import opened Tiles

  /** Some hole has at least `n` chunks. */
  ghost predicate HasRoom(t: seq<Tile>, n: nat)
  {
    exists h :: h in t && h.free && n <= h.size
  }

  /** The blocks in use of `t'` are those of `t` and `x`. */
  ghost predicate Adds(t: seq<Tile>, t': seq<Tile>, x: Tile)
  {
    !x.free && x !in t && forall y: Tile :: !y.free ==> (y in t' <==> y in t || y == x)
  }

  /** The blocks in use of `t'` are those of `t` without `x`. */
  ghost predicate Removes(t: seq<Tile>, t': seq<Tile>, x: Tile)
  {
    !x.free && x in t && forall y: Tile :: !y.free ==> (y in t' <==> y in t && y != x)
  }

  /** `h` is the lowest hole of at least `n` chunks. */
  ghost predicate LowestRoom(t: seq<Tile>, n: nat, h: Tile)
  {
    h in t && h.free && n <= h.size && forall g :: g in t && g.free && n <= g.size ==> h.at <= g.at
  }

  /** Block `x` is what a request for `n` chunks gets: the start of the lowest adequate hole, with
      a single chunk left over given away too, or else the chunks at the break. */
  ghost predicate Due(s: State, n: nat, x: Tile)
  {
    if HasRoom(s.tiles, n) then
      exists h :: LowestRoom(s.tiles, n, h) && x == Tile(h.at, if h.size == n + 1 then n + 1 else n, false)
    else x == Tile(s.brk, n, false)
  }

  /** All chunks of `x` lie in one hole. */
  ghost predicate InHole(t: seq<Tile>, x: Tile)
  {
    exists h :: h in t && h.free && h.at <= x.at && x.End() <= h.End()
  }

  lemma RoomIsFirstFit(t: seq<Tile>, n: nat)
    ensures HasRoom(t, n) <==> FirstFit(t, n) < |t|
  {
    var i := FirstFit(t, n);
    if i < |t| {
      assert t[i] in t;
    }
  }

  lemma FirstFitLowest(t: seq<Tile>, n: nat, lo: nat, hi: nat)
    requires Layout(t, lo, hi) && FirstFit(t, n) < |t|
    ensures LowestRoom(t, n, t[FirstFit(t, n)])
  {
    hide FirstFit;
    AllOrdered(t, lo, hi);
    var i := FirstFit(t, n);
    forall g | g in t && g.free && n <= g.size ensures t[i].at <= g.at {
      var j :| 0 <= j < |t| && t[j] == g;
    }
  }

  lemma InThree(pre: seq<Tile>, mid: seq<Tile>, post: seq<Tile>, y: Tile)
    ensures y in pre + mid + post <==> y in pre || y in mid || y in post
  {
  }

  /** Tile `k` of a tiling occurs once. */
  lemma OccursOnce(t: seq<Tile>, k: nat, lo: nat, hi: nat)
    requires Tiling(t, lo, hi) && k < |t|
    ensures t[k] !in t[..k] && t[k] !in t[k + 1..]
    ensures forall y :: y in t && y.at == t[k].at ==> y == t[k]
  {
    AllOrdered(t, lo, hi);
  }

  /** A block and perhaps a hole in the place of a hole. */
  lemma HoleReplaced(t: seq<Tile>, i: nat, x: Tile, more: seq<Tile>)
    requires i < |t| && t[i].free && !x.free && x !in t && forall y :: y in more ==> y.free
    ensures Adds(t, t[..i] + ([x] + more) + t[i + 1..], x)
  {
    assert t == t[..i] + [t[i]] + t[i + 1..];
    forall y: Tile | !y.free ensures y in t[..i] + ([x] + more) + t[i + 1..] <==> y in t || y == x {
      InThree(t[..i], [x] + more, t[i + 1..], y);
      InThree(t[..i], [t[i]], t[i + 1..], y);
    }
  }

  lemma TakeShape(t: seq<Tile>, i: nat, n: nat)
    requires i < |t| && t[i].free && 0 < n <= t[i].size
    ensures
      var x := Tile(t[i].at, if t[i].size == n + 1 then n + 1 else n, false);
      Take(t, i, n) == t[..i] + ([x] + if t[i].size <= n + 1 then [] else [Tile(t[i].at + n, t[i].size - n, true)]) + t[i + 1..]
  {
  }

  lemma TakeAdds(t: seq<Tile>, i: nat, n: nat, lo: nat, hi: nat)
    requires Layout(t, lo, hi) && i < |t| && t[i].free && 0 < n <= t[i].size
    ensures Adds(t, Take(t, i, n), Tile(t[i].at, if t[i].size == n + 1 then n + 1 else n, false))
  {
    hide Layout, Take, Adds;
    LayoutTiling(t, lo, hi);
    OccursOnce(t, i, lo, hi);
    TakeShape(t, i, n);
    HoleReplaced(t, i, Tile(t[i].at, if t[i].size == n + 1 then n + 1 else n, false),
                 if t[i].size <= n + 1 then [] else [Tile(t[i].at + n, t[i].size - n, true)]);
  }

  lemma LayoutTiling(t: seq<Tile>, lo: nat, hi: nat)
    requires Layout(t, lo, hi)
    ensures Tiling(t, lo, hi)
  {
  }

  /** A request is refused exactly when no hole is adequate and the break has no room; then
      nothing changes. Otherwise the block that is due, and it alone, joins those in use, and the
      break moves only if no hole was adequate. */
  lemma MallocBlocks(s: State, n: nat, limit: nat, lo: nat) returns (x: Tile)
    requires Layout(s.tiles, lo, s.brk) && n > 0
    ensures
      var s' := Step(s, Malloc(n), limit);
      && Due(s, n, x)
      && (if !HasRoom(s.tiles, n) && s.brk + n > limit then s' == s
          else Adds(s.tiles, s'.tiles, x) && s'.brk == s.brk + if HasRoom(s.tiles, n) then 0 else n)
  {
    hide Layout, FirstFit, Take, Adds;
    RoomIsFirstFit(s.tiles, n);
    var i := FirstFit(s.tiles, n);
    if i < |s.tiles| {
      var h := s.tiles[i];
      FirstFitLowest(s.tiles, n, lo, s.brk);
      TakeAdds(s.tiles, i, n, lo, s.brk);
      x := Tile(h.at, if h.size == n + 1 then n + 1 else n, false);
    } else {
      x := Tile(s.brk, n, false);
      GrowAdds(s.tiles, n, lo, s.brk);
    }
  }

  lemma GrowAdds(t: seq<Tile>, n: nat, lo: nat, hi: nat)
    requires Layout(t, lo, hi) && n > 0
    ensures Adds(t, t + [Tile(hi, n, false)], Tile(hi, n, false))
  {
    AllOrdered(t, lo, hi);
  }

  lemma MergeInHole(t: seq<Tile>, k: nat, lo: nat, hi: nat)
    requires Layout(t, lo, hi) && k < |t|
    ensures InHole(Release(t, k), t[k])
  {
    hide Sum;
    var a, b := MergeFrom(t, k), MergeTo(t, k);
    RunOfTiles(t, a, b, lo, hi);
    AllOrdered(t, lo, hi);
    assert Release(t, k)[a] == MergedHole(t, k);
  }

  /** Giving back a block takes it, and it alone, from those in use; its chunks end up in one hole. */
  lemma FreeBlocks(s: State, k: nat, limit: nat, lo: nat)
    requires Layout(s.tiles, lo, s.brk) && k < |s.tiles| && !s.tiles[k].free
    ensures
      var s' := Step(s, Free(k), limit);
      s'.brk == s.brk && Removes(s.tiles, s'.tiles, s.tiles[k]) && InHole(s'.tiles, s.tiles[k])
  {
    hide Layout, InHole, MergedHole, Removes;
    var t := s.tiles;
    MergeInHole(t, k, lo, s.brk);
    LayoutTiling(t, lo, s.brk);
    OccursOnce(t, k, lo, s.brk);
    FreeHole(t, k);
    RunRemoved(t, MergeFrom(t, k), k, MergeTo(t, k), MergedHole(t, k));
  }

  lemma FreeHole(t: seq<Tile>, k: nat)
    requires k < |t|
    ensures MergedHole(t, k).free
  {
  }

  /** A hole in the place of a run of tiles of which only one was in use. */
  lemma RunRemoved(t: seq<Tile>, a: nat, k: nat, b: nat, hole: Tile)
    requires a <= k <= b < |t| && !t[k].free && t[k] !in t[..k] && t[k] !in t[k + 1..] && hole.free
    requires forall j :: a <= j <= b && j != k ==> t[j].free
    ensures Removes(t, t[..a] + [hole] + t[b + 1..], t[k])
  {
    var t' := t[..a] + [hole] + t[b + 1..];
    forall y: Tile | !y.free ensures y in t' <==> y in t && y != t[k] {
      InThree(t[..a], [hole], t[b + 1..], y);
      if y in t && y != t[k] {
        var j: nat :| j < |t| && t[j] == y;
        assert if j < a then t[..a][j] == y else t[b + 1..][j - b - 1] == y;
      }
    }
  }

  /** The other way: a tiling without touching holes that meets these words is the one computed. */
  lemma MallocDetermined(s: State, n: nat, limit: nat, lo: nat, s': State, x: Tile)
    requires Layout(s.tiles, lo, s.brk) && n > 0 && (HasRoom(s.tiles, n) || s.brk + n <= limit)
    requires Due(s, n, x) && Adds(s.tiles, s'.tiles, x) && s'.brk == s.brk + (if HasRoom(s.tiles, n) then 0 else n)
    requires Layout(s'.tiles, lo, s'.brk)
    ensures s' == Step(s, Malloc(n), limit)
  {
    hide Layout, Step;
    var y := MallocBlocks(s, n, limit, lo);
    DueOnce(s, n, x, y, lo);
    StepKeepsLayout(s, Malloc(n), limit, lo);
    Canonical(s'.tiles, Step(s, Malloc(n), limit).tiles, lo, s'.brk);
  }

  lemma DueOnce(s: State, n: nat, x: Tile, y: Tile, lo: nat)
    requires Layout(s.tiles, lo, s.brk) && Due(s, n, x) && Due(s, n, y)
    ensures x == y
  {
    hide HasRoom, Layout, LowestRoom;
    if HasRoom(s.tiles, n) {
      var h :| LowestRoom(s.tiles, n, h) && x == Tile(h.at, if h.size == n + 1 then n + 1 else n, false);
      var g :| LowestRoom(s.tiles, n, g) && y == Tile(g.at, if g.size == n + 1 then n + 1 else n, false);
      LowestOnce(s.tiles, n, h, g, lo, s.brk);
    }
  }

  lemma LowestOnce(t: seq<Tile>, n: nat, h: Tile, g: Tile, lo: nat, hi: nat)
    requires Layout(t, lo, hi) && LowestRoom(t, n, h) && LowestRoom(t, n, g)
    ensures h == g
  {
    hide Layout;
    LayoutTiling(t, lo, hi);
    var i: nat :| i < |t| && t[i] == h;
    OccursOnce(t, i, lo, hi);
  }

  lemma FreeDetermined(s: State, k: nat, limit: nat, lo: nat, s': State)
    requires Layout(s.tiles, lo, s.brk) && k < |s.tiles| && !s.tiles[k].free
    requires Removes(s.tiles, s'.tiles, s.tiles[k]) && s'.brk == s.brk && Layout(s'.tiles, lo, s'.brk)
    ensures s' == Step(s, Free(k), limit)
  {
    hide Layout, Step;
    FreeBlocks(s, k, limit, lo);
    StepKeepsLayout(s, Free(k), limit, lo);
    Canonical(s'.tiles, Step(s, Free(k), limit).tiles, lo, s.brk);
  }
}
