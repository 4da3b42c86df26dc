/**
  The heap as a sequence of tiles: every chunk between the heap start and the break belongs
  to exactly one block in use or one hole. This is what the first-fit allocator computes,
  without its pointers.
 */
module Tiles {

  /** `size` chunks from chunk number `at` on. */
  datatype Tile = Tile(at: nat, size: nat, free: bool) {
    function End(): nat { at + size }
  }

  /** The tiles cover `lo..hi` without gap or overlap. */
  ghost predicate Tiling(t: seq<Tile>, lo: nat, hi: nat)
  {
    && (if t == [] then lo == hi else t[0].at == lo && t[|t| - 1].End() == hi)
    && (forall i :: 0 <= i < |t| ==> 0 < t[i].size)
    && (forall i :: 0 <= i < |t| - 1 ==> t[i + 1].at == t[i].End())
  }

  /** No two holes touch. */
  ghost predicate Coalesced(t: seq<Tile>)
  {
    forall i :: 0 <= i < |t| - 1 ==> !(t[i].free && t[i + 1].free)
  }

  ghost predicate Layout(t: seq<Tile>, lo: nat, hi: nat)
  {
    Tiling(t, lo, hi) && Coalesced(t)
  }

  lemma {:induction false} Ordered(t: seq<Tile>, lo: nat, hi: nat, i: nat, j: nat)
    requires Tiling(t, lo, hi) && i < j < |t|
    ensures t[i].End() <= t[j].at
    decreases j
  {
    if i < j - 1 {
      Ordered(t, lo, hi, i, j - 1);
    }
    assert t[j - 1 + 1].at == t[j - 1].End();
  }

  lemma AllOrdered(t: seq<Tile>, lo: nat, hi: nat)
    requires Tiling(t, lo, hi)
    ensures forall i, j :: 0 <= i < j < |t| ==> t[i].End() <= t[j].at
    ensures forall i :: 0 <= i < |t| ==> lo <= t[i].at && t[i].End() <= hi
  {
    forall i, j | 0 <= i < j < |t| ensures t[i].End() <= t[j].at {
      Ordered(t, lo, hi, i, j);
    }
    forall i | 0 <= i < |t| ensures lo <= t[i].at && t[i].End() <= hi {
      if 0 < i { Ordered(t, lo, hi, 0, i); }
      if i < |t| - 1 { Ordered(t, lo, hi, i, |t| - 1); }
    }
  }

  /** A tiling can be cut anywhere, and tilings that meet can be joined. */
  lemma Cut(t: seq<Tile>, k: nat, lo: nat, hi: nat)
    requires Tiling(t, lo, hi) && k < |t|
    ensures Tiling(t[..k], lo, t[k].at) && Tiling(t[k..], t[k].at, hi)
  {
    if 0 < k {
      assert t[k - 1 + 1].at == t[k - 1].End();
    }
  }

  lemma Join(a: seq<Tile>, b: seq<Tile>, lo: nat, mid: nat, hi: nat)
    requires Tiling(a, lo, mid) && Tiling(b, mid, hi)
    ensures Tiling(a + b, lo, hi)
  {
    var t := a + b;
    forall i | 0 <= i < |t| - 1 ensures t[i + 1].at == t[i].End() {
      if i + 1 < |a| {
        assert t[i] == a[i] && t[i + 1] == a[i + 1];
      } else if i + 1 == |a| {
        assert t[i] == a[i] && t[i + 1] == b[0];
      } else {
        assert t[i] == b[i - |a|] && t[i + 1] == b[i - |a| + 1];
      }
    }
  }

  /** Every chunk of the heap lies in exactly one tile. */
  lemma {:induction false} ExactlyOneTile(t: seq<Tile>, lo: nat, hi: nat, c: nat) returns (k: nat)
    requires Tiling(t, lo, hi) && lo <= c < hi
    ensures k < |t| && t[k].at <= c < t[k].End()
    ensures forall j :: 0 <= j < |t| && t[j].at <= c < t[j].End() ==> j == k
    decreases |t|
  {
    AllOrdered(t, lo, hi);
    if c < t[0].End() {
      k := 0;
    } else {
      Cut(t, 1, lo, hi);
      k := ExactlyOneTile(t[1..], t[1].at, hi, c);
      k := k + 1;
    }
  }

  // ----- First fit -----

  /** Index of the first hole of at least `n` chunks, or the number of tiles. */
  function FirstFit(t: seq<Tile>, n: nat): (i: nat)
    ensures i <= |t|
    ensures i < |t| ==> t[i].free && n <= t[i].size
    ensures forall j :: 0 <= j < i ==> !(t[j].free && n <= t[j].size)
  {
    if t == [] then 0
    else if t[0].free && n <= t[0].size then 0
    else
      var k := FirstFit(t[1..], n);
      assert forall j :: 1 <= j < k + 1 ==> t[j] == t[1..][j - 1];
      k + 1
  }

  /** Serves `n` chunks from hole `i`: a remainder of one chunk is given away with the block. */
  function Take(t: seq<Tile>, i: nat, n: nat): seq<Tile>
    requires i < |t| && 0 < n <= t[i].size
  {
    if t[i].size <= n + 1 then t[i := t[i].(free := false)]
    else t[..i] + [Tile(t[i].at, n, false), Tile(t[i].at + n, t[i].size - n, true)] + t[i + 1..]
  }

  /** First and last tile of the hole that block `i` becomes when it is given back. */
  function MergeFrom(t: seq<Tile>, i: nat): nat
    requires i < |t|
  {
    if 0 < i && t[i - 1].free then i - 1 else i
  }

  function MergeTo(t: seq<Tile>, i: nat): nat
    requires i < |t|
  {
    if i + 1 < |t| && t[i + 1].free then i + 1 else i
  }

  function MergedHole(t: seq<Tile>, i: nat): Tile
    requires i < |t|
  {
    Tile(t[MergeFrom(t, i)].at, Sum(t[MergeFrom(t, i)..MergeTo(t, i) + 1]), true)
  }

  /** Gives block `i` back: it becomes a hole together with the holes on either side of it. */
  function Release(t: seq<Tile>, i: nat): seq<Tile>
    requires i < |t|
  {
    t[..MergeFrom(t, i)] + [MergedHole(t, i)] + t[MergeTo(t, i) + 1..]
  }

  function Sum(t: seq<Tile>): nat
  {
    if t == [] then 0 else t[0].size + Sum(t[1..])
  }

  lemma LayoutCut(t: seq<Tile>, k: nat, lo: nat, hi: nat)
    requires Layout(t, lo, hi) && k < |t|
    ensures Layout(t[..k], lo, t[k].at) && Layout(t[k..], t[k].at, hi)
  {
    Cut(t, k, lo, hi);
  }

  lemma LayoutJoin(a: seq<Tile>, b: seq<Tile>, lo: nat, mid: nat, hi: nat)
    requires Layout(a, lo, mid) && Layout(b, mid, hi)
    requires a == [] || b == [] || !(a[|a| - 1].free && b[0].free)
    ensures Layout(a + b, lo, hi)
  {
    Join(a, b, lo, mid, hi);
    var t := a + b;
    forall i | 0 <= i < |t| - 1 ensures !(t[i].free && t[i + 1].free) {
      if |a| <= i {
        assert t[i] == b[i - |a|] && t[i + 1] == b[i - |a| + 1];
      }
    }
  }

  /** Tile `k` alone, and what surrounds it. */
  lemma Around(t: seq<Tile>, k: nat, lo: nat, hi: nat)
    requires Layout(t, lo, hi) && k < |t|
    ensures Layout(t[..k], lo, t[k].at) && Layout(t[k + 1..], t[k].End(), hi)
    ensures 0 < k ==> !(t[k - 1].free && t[k].free)
    ensures k + 1 < |t| ==> !(t[k].free && t[k + 1].free)
    ensures 0 < t[k].size
  {
    LayoutCut(t, k, lo, hi);
    if 0 < k {
      assert !(t[k - 1].free && t[k - 1 + 1].free);
    }
    if k + 1 < |t| {
      LayoutCut(t, k + 1, lo, hi);
      assert t[k + 1].at == t[k].End();
    }
  }

  /** Replaces the tiles between `pre` and `post` by others covering the same chunks. */
  lemma Splice(pre: seq<Tile>, mid: seq<Tile>, post: seq<Tile>, lo: nat, x: nat, y: nat, hi: nat)
    requires Layout(pre, lo, x) && Layout(mid, x, y) && Layout(post, y, hi) && mid != []
    requires pre == [] || !(pre[|pre| - 1].free && mid[0].free)
    requires post == [] || !(mid[|mid| - 1].free && post[0].free)
    ensures Layout(pre + mid + post, lo, hi)
  {
    LayoutJoin(pre, mid, lo, x, y);
    LayoutJoin(pre + mid, post, lo, y, hi);
  }

  lemma OneTile(x: Tile)
    requires 0 < x.size
    ensures Layout([x], x.at, x.End())
  {
  }

  lemma TwoTiles(x: Tile, y: Tile)
    requires 0 < x.size && 0 < y.size && y.at == x.End() && !(x.free && y.free)
    ensures Layout([x, y], x.at, y.End())
  {
  }

  lemma TakeKeepsLayout(t: seq<Tile>, i: nat, n: nat, lo: nat, hi: nat)
    requires Layout(t, lo, hi) && i < |t| && t[i].free && 0 < n <= t[i].size
    ensures Layout(Take(t, i, n), lo, hi)
  {
    hide Layout;
    Around(t, i, lo, hi);
    var x := t[i];
    if x.size <= n + 1 {
      OneTile(x.(free := false));
      Splice(t[..i], [x.(free := false)], t[i + 1..], lo, x.at, x.End(), hi);
      assert Take(t, i, n) == t[..i] + [x.(free := false)] + t[i + 1..];
    } else {
      var used, left := Tile(x.at, n, false), Tile(x.at + n, x.size - n, true);
      TwoTiles(used, left);
      Splice(t[..i], [used, left], t[i + 1..], lo, x.at, x.End(), hi);
    }
  }

  lemma GrowKeepsLayout(t: seq<Tile>, n: nat, lo: nat, hi: nat)
    requires Layout(t, lo, hi) && 0 < n
    ensures Layout(t + [Tile(hi, n, false)], lo, hi + n)
  {
    LayoutJoin(t, [Tile(hi, n, false)], lo, hi, hi + n);
  }

  /** The sizes `Release` adds up are those of neighbours. */
  lemma RunOfTiles(t: seq<Tile>, a: nat, b: nat, lo: nat, hi: nat)
    requires Layout(t, lo, hi) && a <= b < |t|
    ensures Sum(t[a..b + 1]) == t[b].End() - t[a].at
    ensures t[a].at <= t[b].at
    decreases b - a
  {
    if a == b {
      assert t[a..b + 1] == [t[a]] && [t[a]][1..] == [];
    } else {
      assert t[a + 1].at == t[a].End();
      RunOfTiles(t, a + 1, b, lo, hi);
      assert t[a..b + 1][1..] == t[a + 1..b + 1];
    }
  }

  lemma ReleaseKeepsLayout(t: seq<Tile>, i: nat, lo: nat, hi: nat)
    requires Layout(t, lo, hi) && i < |t| && !t[i].free
    ensures Layout(Release(t, i), lo, hi)
  {
    hide Layout, Sum;
    var a, b, hole := MergeFrom(t, i), MergeTo(t, i), MergedHole(t, i);
    RunOfTiles(t, a, b, lo, hi);
    Around(t, a, lo, hi);
    Around(t, b, lo, hi);
    OneTile(hole);
    Splice(t[..a], [hole], t[b + 1..], lo, t[a].at, t[b].End(), hi);
  }

  // ----- What a caller can rely on -----

  lemma SumOne(x: Tile)
    ensures Sum([x]) == x.size
  {
    assert [x][1..] == [];
  }

  lemma SumTwo(x: Tile, y: Tile)
    ensures Sum([x, y]) == x.size + y.size
  {
    assert [x, y][1..] == [y];
    SumOne(y);
  }

  /** Freeing a block at once after a hole served it restores the holes exactly. */
  lemma ReleaseUndoesTake(t: seq<Tile>, i: nat, n: nat, lo: nat, hi: nat)
    requires Layout(t, lo, hi) && i < |t| && t[i].free && 0 < n <= t[i].size
    ensures Release(Take(t, i, n), i) == t
  {
    hide Layout, Sum;
    Around(t, i, lo, hi);
    var x, u := t[i], Take(t, i, n);
    assert 0 < i ==> u[i - 1] == t[i - 1];
    if x.size <= n + 1 {
      var used := x.(free := false);
      assert i + 1 < |t| ==> u[i + 1] == t[i + 1];
      assert u[i..i + 1] == [used] && u[..i] == t[..i] && u[i + 1..] == t[i + 1..];
      SumOne(used);
    } else {
      var used, left := Tile(x.at, n, false), Tile(x.at + n, x.size - n, true);
      assert u[i] == used && u[i + 1] == left;
      assert u[i..i + 2] == [used, left] && u[..i] == t[..i] && u[i + 2..] == t[i + 1..];
      SumTwo(used, left);
    }
    assert t == t[..i] + [x] + t[i + 1..];
  }

  /** With no block in use there is one hole over the whole heap, or an empty heap. */
  lemma AllFree(t: seq<Tile>, lo: nat, hi: nat)
    requires Layout(t, lo, hi) && NoneInUse(t)
    ensures t == if lo < hi then [Tile(lo, hi - lo, true)] else []
  {
    if t != [] {
      Around(t, 0, lo, hi);
    }
  }

  ghost predicate NoneInUse(t: seq<Tile>)
  {
    forall i :: 0 <= i < |t| ==> t[i].free
  }

  ghost predicate SameBlocks(t: seq<Tile>, u: seq<Tile>)
  {
    forall x: Tile :: !x.free ==> (x in t <==> x in u)
  }

  /** The holes are determined by the blocks in use: no history, no order of frees, can
      lead to different holes around the same blocks. */
  lemma {:induction false} Canonical(t: seq<Tile>, u: seq<Tile>, lo: nat, hi: nat)
    requires Layout(t, lo, hi) && Layout(u, lo, hi) && SameBlocks(t, u)
    ensures t == u
    decreases |t|
  {
    hide SameBlocks, Layout;
    if t != [] && u != [] {
      HeadsEqual(t, u, lo, hi);
      TailsAgree(t, u, lo, hi);
      Around(t, 0, lo, hi);
      Around(u, 0, lo, hi);
      Canonical(t[1..], u[1..], t[0].End(), hi);
      assert t == [t[0]] + t[1..] && u == [u[0]] + u[1..];
    } else {
      BothEmpty(t, u, lo, hi);
    }
  }

  lemma BothEmpty(t: seq<Tile>, u: seq<Tile>, lo: nat, hi: nat)
    requires Layout(t, lo, hi) && Layout(u, lo, hi) && (t == [] || u == [])
    ensures t == u
  {
    AllOrdered(t, lo, hi);
    AllOrdered(u, lo, hi);
  }

  lemma HeadsEqual(t: seq<Tile>, u: seq<Tile>, lo: nat, hi: nat)
    requires Layout(t, lo, hi) && Layout(u, lo, hi) && SameBlocks(t, u)
    requires t != [] && u != []
    ensures t[0] == u[0]
  {
    assert SameBlocks(u, t);
    HeadsNotShorter(t, u, lo, hi);
    HeadsNotShorter(u, t, lo, hi);
  }

  lemma HeadsNotShorter(t: seq<Tile>, u: seq<Tile>, lo: nat, hi: nat)
    requires Layout(t, lo, hi) && Layout(u, lo, hi) && SameBlocks(t, u)
    requires t != [] && u != []
    ensures !t[0].free ==> u[0] == t[0]
    ensures t[0].free && u[0].free ==> u[0].End() <= t[0].End()
  {
    AllOrdered(u, lo, hi);
    if !t[0].free {
      assert t[0] in t;
      var j :| 0 <= j < |u| && u[j] == t[0];
      assert j == 0;
    } else if u[0].free && |t| > 1 {
      assert t[0 + 1].at == t[0].End() && !t[0 + 1].free;
      assert t[1] in t;
      var j :| 0 <= j < |u| && u[j] == t[1];
      assert u[0].End() <= u[j].at;
    }
  }

  lemma TailsAgree(t: seq<Tile>, u: seq<Tile>, lo: nat, hi: nat)
    requires Layout(t, lo, hi) && Layout(u, lo, hi) && SameBlocks(t, u)
    requires t != [] && u != [] && t[0] == u[0]
    ensures SameBlocks(t[1..], u[1..])
  {
    AllOrdered(t, lo, hi);
    AllOrdered(u, lo, hi);
    forall x: Tile | !x.free ensures x in t[1..] <==> x in u[1..] {
      assert x in t <==> x == t[0] || x in t[1..];
      assert x in u <==> x == u[0] || x in u[1..];
      assert t[0] !in t[1..] && u[0] !in u[1..];
    }
  }

  // ----- Whole histories -----

  /** The allocator's state in these terms: the tiles and the break. */
  datatype State = State(tiles: seq<Tile>, brk: nat)

  /** `Malloc(n)` asks for `n` chunks; `Free(k)` gives back tile `k` if it is a block in use. */
  datatype Op = Malloc(n: nat) | Free(k: nat)

  function Step(s: State, op: Op, limit: nat): State
  {
    match op
    case Malloc(n) =>
      var i := FirstFit(s.tiles, n);
      if n == 0 then s
      else if i < |s.tiles| then State(Take(s.tiles, i, n), s.brk)
      else if s.brk + n <= limit then State(s.tiles + [Tile(s.brk, n, false)], s.brk + n)
      else s
    case Free(k) =>
      if k < |s.tiles| && !s.tiles[k].free then State(Release(s.tiles, k), s.brk) else s
  }

  function Run(s: State, ops: seq<Op>, limit: nat): State
    decreases |ops|
  {
    if ops == [] then s else Run(Step(s, ops[0], limit), ops[1..], limit)
  }

  lemma StepKeepsLayout(s: State, op: Op, limit: nat, lo: nat)
    requires Layout(s.tiles, lo, s.brk)
    ensures
      var s' := Step(s, op, limit);
      Layout(s'.tiles, lo, s'.brk) && s.brk <= s'.brk && (s.brk <= limit ==> s'.brk <= limit)
  {
    hide Layout, Take, Release;
    match op
    case Malloc(n) =>
      var i := FirstFit(s.tiles, n);
      if n > 0 {
        if i < |s.tiles| {
          TakeKeepsLayout(s.tiles, i, n, lo, s.brk);
        } else {
          GrowKeepsLayout(s.tiles, n, lo, s.brk);
        }
      }
    case Free(k) =>
      if k < |s.tiles| && !s.tiles[k].free {
        ReleaseKeepsLayout(s.tiles, k, lo, s.brk);
      }
  }

  /** In every state any sequence of mallocs and frees can reach, blocks and holes tile the heap
      and no two holes touch. */
  lemma {:induction false} RunKeepsLayout(s: State, ops: seq<Op>, limit: nat, lo: nat)
    requires Layout(s.tiles, lo, s.brk)
    ensures
      var s' := Run(s, ops, limit);
      Layout(s'.tiles, lo, s'.brk) && s.brk <= s'.brk
    decreases |ops|
  {
    hide Layout, Step;
    if ops != [] {
      StepKeepsLayout(s, ops[0], limit, lo);
      RunKeepsLayout(Step(s, ops[0], limit), ops[1..], limit, lo);
    }
  }

  /** Freeing everything, in any order after any history, leaves one hole over the whole heap. */
  lemma EverythingFreed(ops: seq<Op>, limit: nat, lo: nat)
    ensures
      var s := Run(State([], lo), ops, limit);
      NoneInUse(s.tiles) ==>
        s.tiles == if lo < s.brk then [Tile(lo, s.brk - lo, true)] else []
  {
    RunKeepsLayout(State([], lo), ops, limit, lo);
    var s := Run(State([], lo), ops, limit);
    if NoneInUse(s.tiles) {
      AllFree(s.tiles, lo, s.brk);
    }
  }

  /** Two histories that end with the same blocks in use and the same break end with the same holes. */
  lemma HistoryForgotten(ops: seq<Op>, ops': seq<Op>, limit: nat, lo: nat)
    ensures
      var s, s' := Run(State([], lo), ops, limit), Run(State([], lo), ops', limit);
      s.brk == s'.brk && SameBlocks(s.tiles, s'.tiles) ==> s == s'
  {
    RunKeepsLayout(State([], lo), ops, limit, lo);
    RunKeepsLayout(State([], lo), ops', limit, lo);
    var s, s' := Run(State([], lo), ops, limit), Run(State([], lo), ops', limit);
    if s.brk == s'.brk && SameBlocks(s.tiles, s'.tiles) {
      Canonical(s.tiles, s'.tiles, lo, s.brk);
    }
  }

  // ----- Blocks in use -----

  /** The operation gives block `x` back. */
  predicate Frees(s: State, op: Op, x: Tile)
  {
    op.Free? && op.k < |s.tiles| && s.tiles[op.k] == x
  }

  lemma InParts(t: seq<Tile>, a: nat, b: nat, mid: seq<Tile>, m: nat)
    requires a <= b <= |t| && m < |t| && (m < a || b <= m)
    ensures t[m] in t[..a] + mid + t[b..]
  {
    var u := t[..a] + mid + t[b..];
    if m < a {
      assert u[m] == t[m];
    } else {
      assert u[a + |mid| + (m - b)] == t[m];
    }
  }

  /** No operation but its own release moves, shrinks or drops a block in use. */
  lemma LiveStays(s: State, op: Op, limit: nat, x: Tile)
    requires x in s.tiles && !x.free && !Frees(s, op, x)
    ensures x in Step(s, op, limit).tiles
  {
    var t := s.tiles;
    var m: nat :| m < |t| && t[m] == x;
    match op
    case Malloc(n) =>
      var i := FirstFit(t, n);
      if n > 0 && i < |t| {
        if t[i].size <= n + 1 {
          assert t[i := t[i].(free := false)][m] == x;
        } else {
          InParts(t, i, i + 1, [Tile(t[i].at, n, false), Tile(t[i].at + n, t[i].size - n, true)], m);
        }
      }
    case Free(k) =>
      if k < |t| && !t[k].free {
        assert m < MergeFrom(t, k) || MergeTo(t, k) + 1 <= m;
        InParts(t, MergeFrom(t, k), MergeTo(t, k) + 1, [MergedHole(t, k)], m);
      }
  }

  ghost predicate NeverFreed(s: State, ops: seq<Op>, limit: nat, x: Tile)
    decreases |ops|
  {
    ops == [] || (!Frees(s, ops[0], x) && NeverFreed(Step(s, ops[0], limit), ops[1..], limit, x))
  }

  /** So a block stays where it is through any history that does not free it. */
  lemma {:induction false} LiveUntilFreed(s: State, ops: seq<Op>, limit: nat, x: Tile)
    requires x in s.tiles && !x.free && NeverFreed(s, ops, limit, x)
    ensures x in Run(s, ops, limit).tiles
    decreases |ops|
  {
    hide Step;
    if ops != [] {
      LiveStays(s, ops[0], limit, x);
      LiveUntilFreed(Step(s, ops[0], limit), ops[1..], limit, x);
    }
  }

  /** Where a request for `n` chunks is served. */
  function GrantAt(s: State, n: nat): nat
  {
    var i := FirstFit(s.tiles, n);
    if i < |s.tiles| then s.tiles[i].at else s.brk
  }

  lemma GrantIn(s: State, n: nat, limit: nat) returns (x: Tile)
    requires n > 0 && Step(s, Malloc(n), limit) != s
    ensures x in Step(s, Malloc(n), limit).tiles && !x.free && x.at == GrantAt(s, n) && n <= x.size <= n + 1
  {
    var t, i := s.tiles, FirstFit(s.tiles, n);
    if i == |t| {
      x := Tile(s.brk, n, false);
    } else if t[i].size <= n + 1 {
      x := t[i].(free := false);
      assert Take(t, i, n)[i] == x;
    } else {
      x := Tile(t[i].at, n, false);
      assert Take(t, i, n)[i] == x;
    }
  }

  lemma DistinctTilesApart(t: seq<Tile>, lo: nat, hi: nat, x: Tile, y: Tile)
    requires Tiling(t, lo, hi) && x in t && y in t && x != y
    ensures x.End() <= y.at || y.End() <= x.at
    ensures lo <= x.at && x.End() <= hi
  {
    AllOrdered(t, lo, hi);
    var i :| 0 <= i < |t| && t[i] == x;
    var j :| 0 <= j < |t| && t[j] == y;
    assert i != j;
  }

  /** A granted request gets a block inside the heap, large enough, and clear of every other
      block in use. */
  lemma Granted(s: State, n: nat, limit: nat, lo: nat) returns (x: Tile)
    requires Layout(s.tiles, lo, s.brk) && n > 0 && Step(s, Malloc(n), limit) != s
    ensures x in Step(s, Malloc(n), limit).tiles && !x.free && x.at == GrantAt(s, n) && n <= x.size <= n + 1
    ensures lo <= x.at && x.End() <= Step(s, Malloc(n), limit).brk
    ensures forall y :: y in s.tiles && !y.free ==> y.End() <= x.at || x.End() <= y.at
  {
    hide Step;
    var s' := Step(s, Malloc(n), limit);
    x := GrantIn(s, n, limit);
    StepKeepsLayout(s, Malloc(n), limit, lo);
    AllOrdered(s'.tiles, lo, s'.brk);
    forall y | y in s.tiles && !y.free ensures y.End() <= x.at || x.End() <= y.at {
      LiveStays(s, Malloc(n), limit, y);
      NotGrantedBefore(s, n, lo, y);
      DistinctTilesApart(s'.tiles, lo, s'.brk, x, y);
    }
  }

  /** No block in use starts where a request is served. */
  lemma NotGrantedBefore(s: State, n: nat, lo: nat, y: Tile)
    requires Layout(s.tiles, lo, s.brk) && y in s.tiles && !y.free
    ensures y.at != GrantAt(s, n)
  {
    AllOrdered(s.tiles, lo, s.brk);
    var j :| 0 <= j < |s.tiles| && s.tiles[j] == y;
    var i := FirstFit(s.tiles, n);
    if i < |s.tiles| {
      assert i < j ==> s.tiles[i].End() <= s.tiles[j].at;
      assert j < i ==> s.tiles[j].End() <= s.tiles[i].at;
    }
  }
}
