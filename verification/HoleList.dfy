/**
  The hole list inside the heap: every block and hole starts with its size, and a hole keeps
  the address of the next hole in its second word, where a block keeps data. The lemmas here
  say which words an operation must write to take the list from one tiling to the next.
 */
module HoleList {
  import opened Tiles

  /** Index of the first hole at or after tile `i`, or the number of tiles. */
  function NextHole(t: seq<Tile>, i: nat): (j: nat)
    requires i <= |t|
    ensures i <= j <= |t|
    ensures j < |t| ==> t[j].free
    ensures forall m :: i <= m < j ==> !t[m].free
    decreases |t| - i
  {
    if i == |t| || t[i].free then i else NextHole(t, i + 1)
  }

  lemma NextHoleIs(t: seq<Tile>, i: nat, j: nat)
    requires i <= j <= |t|
    requires j < |t| ==> t[j].free
    requires forall m :: i <= m < j ==> !t[m].free
    ensures NextHole(t, i) == j
  {
  }

  /** Address of tile `j`; past the last tile, the null pointer. */
  function Addr(t: seq<Tile>, j: nat): nat
  {
    if j < |t| then t[j].at else 0
  }

  /** The word of `m` where the chunk numbered `at` starts; a chunk is two words. */
  function Word(lo: nat, at: nat): nat
    requires lo <= at
  {
    2 * (at - lo)
  }

  /** The tile lies in the heap and its first word holds its size. */
  ghost predicate Sized(m: seq<nat>, lo: nat, x: Tile)
  {
    lo <= x.at && 0 < x.size && Word(lo, x.End()) <= |m| && m[Word(lo, x.at)] == x.size
  }

  /** It is also a hole whose second word holds `next`. */
  ghost predicate Linked(m: seq<nat>, lo: nat, x: Tile, next: nat)
  {
    Sized(m, lo, x) && m[Word(lo, x.at) + 1] == next
  }

  /** The link a hole at index `i` must hold. */
  function NextAddr(t: seq<Tile>, i: nat): nat
    requires i < |t|
  {
    Addr(t, NextHole(t, i + 1))
  }

  ghost predicate TileStored(m: seq<nat>, lo: nat, t: seq<Tile>, i: nat)
    requires i < |t|
  {
    Sized(m, lo, t[i]) && (t[i].free ==> Linked(m, lo, t[i], NextAddr(t, i)))
  }

  /** Every tile is recorded in the heap's own words. */
  ghost predicate Stored(m: seq<nat>, lo: nat, t: seq<Tile>)
  {
    forall i :: 0 <= i < |t| ==> TileStored(m, lo, t, i)
  }

  /** The list head for these tiles. */
  function Head(t: seq<Tile>): nat
  {
    Addr(t, NextHole(t, 0))
  }

  /** `p` is the last hole before tile `k`, or -1 when there is none. */
  ghost predicate LastHoleBefore(t: seq<Tile>, p: int, k: nat)
    requires k <= |t|
  {
    && -1 <= p < k
    && (0 <= p ==> t[p].free)
    && forall m :: p < m < k ==> !t[m].free
  }

  /** A hole before `k` other than the last one keeps its link when only tiles from `k` on change. */
  lemma EarlierLinkKept(t: seq<Tile>, u: seq<Tile>, p: int, k: nat, i: nat)
    requires k <= |t| && k <= |u| && t[..k] == u[..k]
    requires LastHoleBefore(t, p, k) && i < p
    ensures NextAddr(u, i) == NextAddr(t, i)
  {
    var j := NextHole(t, i + 1);
    assert j <= p;
    assert forall m :: 0 <= m < k ==> t[..k][m] == u[..k][m];
    assert forall m :: 0 <= m < k ==> u[m] == t[m];
    NextHoleIs(u, i + 1, j);
  }

  lemma HeadKept(t: seq<Tile>, u: seq<Tile>, p: int, k: nat)
    requires k <= |t| && k <= |u| && t[..k] == u[..k]
    requires LastHoleBefore(t, p, k) && 0 <= p
    ensures Head(u) == Head(t)
  {
    var j := NextHole(t, 0);
    assert j <= p;
    assert forall m :: 0 <= m < k ==> t[..k][m] == u[..k][m];
    NextHoleIs(u, 0, j);
  }

  /** Holes after a change keep their links, whatever their new index. */
  lemma LaterLinkKept(t: seq<Tile>, u: seq<Tile>, i: nat, i': nat)
    requires i <= |t| && i' <= |u| && t[i..] == u[i'..]
    ensures Addr(u, NextHole(u, i')) == Addr(t, NextHole(t, i))
  {
    var j := NextHole(t, i);
    assert |t| - i == |t[i..]| == |u[i'..]| == |u| - i';
    var j' := i' + (j - i);
    assert forall m :: i' <= m < |u| ==> u[m] == u[i'..][m - i'];
    assert forall m :: i <= m < |t| ==> t[m] == t[i..][m - i];
    assert forall m :: i' <= m < |u| ==> u[m] == t[m - i' + i];
    NextHoleIs(u, i', j');
  }

  // ----- Replacing some tiles by others -----

  /** `mid` has one hole, at `h`, or none when `h` is its length. */
  ghost predicate OneHole(mid: seq<Tile>, h: nat)
  {
    h <= |mid| && forall i :: 0 <= i < |mid| ==> mid[i].free == (i == h)
  }

  /** Where the hole before the replaced tiles must point: to the hole among the new tiles,
      or past them. */
  function LinkTo(mid: seq<Tile>, h: nat, next: nat): nat
  {
    if h < |mid| then mid[h].at else next
  }

  function Replaced(t: seq<Tile>, a: nat, b: nat, mid: seq<Tile>): (u: seq<Tile>)
    requires a <= b <= |t|
    ensures |u| == a + |mid| + |t| - b
  {
    t[..a] + mid + t[b..]
  }

  lemma PartsOfReplaced(t: seq<Tile>, a: nat, b: nat, mid: seq<Tile>)
    requires a <= b <= |t|
    ensures
      var u := Replaced(t, a, b, mid);
      && u[..a] == t[..a] && u[a + |mid|..] == t[b..]
      && (forall m :: 0 <= m < a ==> u[m] == t[m])
      && (forall m :: a <= m < a + |mid| ==> u[m] == mid[m - a])
  {
  }

  /** The first hole at or after the new tiles. */
  lemma LinkAcross(t: seq<Tile>, a: nat, b: nat, mid: seq<Tile>, h: nat, i: nat)
    requires a <= b <= |t| && OneHole(mid, h) && i <= a
    requires forall m :: i <= m < a ==> !t[m].free
    ensures Addr(Replaced(t, a, b, mid), NextHole(Replaced(t, a, b, mid), i)) == LinkTo(mid, h, Addr(t, NextHole(t, b)))
  {
    hide Replaced;
    var u := Replaced(t, a, b, mid);
    PartsOfReplaced(t, a, b, mid);
    if h < |mid| {
      NextHoleIs(u, i, a + h);
    } else {
      LaterLinkKept(t, u, b, a + |mid|);
      NextHoleIs(u, i, NextHole(u, a + |mid|));
    }
  }

  /** The words that must hold for the hole list to follow a replacement of tiles `a..b`. */
  ghost predicate Relinked(m: seq<nat>, lo: nat, t: seq<Tile>, p: int, a: nat, b: nat, mid: seq<Tile>, h: nat)
    requires a <= b <= |t| && OneHole(mid, h) && LastHoleBefore(t, p, a)
  {
    var next := Addr(t, NextHole(t, b));
    && (forall i :: 0 <= i < a && i != p ==> TileStored(m, lo, t, i))
    && (0 <= p ==> Linked(m, lo, t[p], LinkTo(mid, h, next)))
    && (forall i :: 0 <= i < |mid| ==> Sized(m, lo, mid[i]))
    && (h < |mid| ==> Linked(m, lo, mid[h], next))
    && (forall i :: b <= i < |t| ==> TileStored(m, lo, t, i))
  }

  lemma StoredBefore(m: seq<nat>, lo: nat, t: seq<Tile>, p: int, a: nat, b: nat, mid: seq<Tile>, h: nat, i: nat)
    requires a <= b <= |t| && OneHole(mid, h) && LastHoleBefore(t, p, a)
    requires Relinked(m, lo, t, p, a, b, mid, h) && i < a
    ensures TileStored(m, lo, Replaced(t, a, b, mid), i)
  {
    hide Sized, Replaced;
    var u := Replaced(t, a, b, mid);
    PartsOfReplaced(t, a, b, mid);
    if i == p {
      LinkAcross(t, a, b, mid, h, p + 1);
    } else {
      assert TileStored(m, lo, t, i);
      if t[i].free {
        EarlierLinkKept(t, u, p, a, i);
      }
    }
  }

  lemma StoredWithin(m: seq<nat>, lo: nat, t: seq<Tile>, p: int, a: nat, b: nat, mid: seq<Tile>, h: nat, i: nat)
    requires a <= b <= |t| && OneHole(mid, h) && LastHoleBefore(t, p, a)
    requires Relinked(m, lo, t, p, a, b, mid, h) && i < |mid|
    ensures TileStored(m, lo, Replaced(t, a, b, mid), a + i)
  {
    hide Sized, Replaced;
    var u := Replaced(t, a, b, mid);
    PartsOfReplaced(t, a, b, mid);
    if i == h {
      LaterLinkKept(t, u, b, a + |mid|);
      NextHoleIs(u, a + i + 1, NextHole(u, a + |mid|));
    }
  }

  lemma TailOfReplaced(t: seq<Tile>, a: nat, b: nat, mid: seq<Tile>, i: nat)
    requires a <= b <= i < |t|
    ensures
      var u, j := Replaced(t, a, b, mid), a + |mid| + (i - b);
      j < |u| && u[j] == t[i] && u[j + 1..] == t[i + 1..]
  {
  }

  lemma StoredAfter(m: seq<nat>, lo: nat, t: seq<Tile>, p: int, a: nat, b: nat, mid: seq<Tile>, h: nat, i: nat)
    requires a <= b <= |t| && OneHole(mid, h) && LastHoleBefore(t, p, a)
    requires Relinked(m, lo, t, p, a, b, mid, h) && b <= i < |t|
    ensures TileStored(m, lo, Replaced(t, a, b, mid), a + |mid| + (i - b))
  {
    hide Sized, Replaced;
    var u, j := Replaced(t, a, b, mid), a + |mid| + (i - b);
    assert TileStored(m, lo, t, i);
    TailOfReplaced(t, a, b, mid, i);
    LaterLinkKept(t, u, i + 1, j + 1);
  }

  /** With those words in place the list is that of the new tiles. */
  lemma ReplacedStored(m: seq<nat>, lo: nat, t: seq<Tile>, p: int, a: nat, b: nat, mid: seq<Tile>, h: nat)
    requires a <= b <= |t| && OneHole(mid, h) && LastHoleBefore(t, p, a)
    requires Relinked(m, lo, t, p, a, b, mid, h)
    ensures Stored(m, lo, Replaced(t, a, b, mid))
    ensures Head(Replaced(t, a, b, mid)) == if 0 <= p then Head(t) else LinkTo(mid, h, Addr(t, NextHole(t, b)))
  {
    hide TileStored, Relinked, Replaced;
    var u := Replaced(t, a, b, mid);
    PartsOfReplaced(t, a, b, mid);
    forall i | 0 <= i < |u| ensures TileStored(m, lo, u, i) {
      if i < a {
        StoredBefore(m, lo, t, p, a, b, mid, h, i);
      } else if i < a + |mid| {
        StoredWithin(m, lo, t, p, a, b, mid, h, i - a);
      } else {
        StoredAfter(m, lo, t, p, a, b, mid, h, i - |mid| - a + b);
      }
    }
    if 0 <= p {
      HeadKept(t, u, p, a);
    } else {
      LinkAcross(t, a, b, mid, h, 0);
    }
  }

  // ----- From written chunks to relinked tiles -----

  /** Only the two words of each chunk in `c` may differ. */
  ghost predicate OnlyWrites(m: seq<nat>, m': seq<nat>, lo: nat, c: set<nat>)
  {
    |m'| == |m| && forall w :: 0 <= w < |m| && lo + w / 2 !in c ==> m'[w] == m[w]
  }

  /** The words of a tile are those of `m`, header and data. */
  ghost predicate TileKept(m: seq<nat>, m': seq<nat>, lo: nat, x: Tile)
  {
    |m'| == |m| && forall w :: 0 <= w < |m| && x.at <= lo + w / 2 < x.End() ==> m'[w] == m[w]
  }

  lemma KeptStored(m: seq<nat>, m': seq<nat>, lo: nat, t: seq<Tile>, i: nat)
    requires i < |t| && TileStored(m, lo, t, i) && TileKept(m, m', lo, t[i])
    ensures TileStored(m', lo, t, i)
  {
    var w := Word(lo, t[i].at);
    assert w / 2 == t[i].at - lo && (w + 1) / 2 == t[i].at - lo;
  }

  /** Chunks an operation on tiles `a..b` may write: the hole before them, and their own. */
  ghost predicate WritesNear(t: seq<Tile>, p: int, a: nat, b: nat, x: nat, y: nat, c: set<nat>)
    requires a <= b <= |t| && LastHoleBefore(t, p, a)
  {
    forall k :: k in c ==> (0 <= p && k == t[p].at) || x <= k < y
  }

  lemma OthersKept(m: seq<nat>, m': seq<nat>, lo: nat, hi: nat, t: seq<Tile>, p: int, a: nat, b: nat,
                   x: nat, y: nat, c: set<nat>, i: nat)
    requires Layout(t, lo, hi) && a <= b <= |t| && LastHoleBefore(t, p, a)
    requires x == (if a < |t| then t[a].at else hi) && y >= x
    requires b < |t| ==> y == t[b].at
    requires OnlyWrites(m, m', lo, c) && WritesNear(t, p, a, b, x, y, c)
    requires i < |t| && (i < a || b <= i) && i != p
    ensures TileKept(m, m', lo, t[i])
  {
    AllOrdered(t, lo, hi);
    forall w | 0 <= w < |m| && t[i].at <= lo + w / 2 < t[i].End() ensures m'[w] == m[w] {
      var k := lo + w / 2;
      if 0 <= p {
        assert k != t[p].at;
      }
      if i < a {
        assert k < x;
      } else {
        assert b < |t| && t[b].at <= t[i].at;
      }
      assert k !in c;
    }
  }

  /** If only those chunks are written and the hole before and the new tiles are right, the
      whole list is. */
  lemma RelinkedNear(m: seq<nat>, m': seq<nat>, lo: nat, hi: nat, t: seq<Tile>, p: int, a: nat, b: nat,
                     mid: seq<Tile>, h: nat, x: nat, y: nat, c: set<nat>)
    requires Layout(t, lo, hi) && Stored(m, lo, t)
    requires a <= b <= |t| && OneHole(mid, h) && LastHoleBefore(t, p, a)
    requires x == (if a < |t| then t[a].at else hi) && y >= x
    requires b < |t| ==> y == t[b].at
    requires OnlyWrites(m, m', lo, c) && WritesNear(t, p, a, b, x, y, c)
    requires
      var next := Addr(t, NextHole(t, b));
      && (0 <= p ==> Linked(m', lo, t[p], LinkTo(mid, h, next)))
      && (forall i :: 0 <= i < |mid| ==> Sized(m', lo, mid[i]))
      && (h < |mid| ==> Linked(m', lo, mid[h], next))
    ensures Relinked(m', lo, t, p, a, b, mid, h)
  {
    hide Layout, Sized, Linked, WritesNear, OnlyWrites, TileKept;
    forall i | 0 <= i < |t| && (i < a || b <= i) && i != p ensures TileStored(m', lo, t, i) {
      assert TileStored(m, lo, t, i);
      OthersKept(m, m', lo, hi, t, p, a, b, x, y, c, i);
      KeptStored(m, m', lo, t, i);
    }
  }

  /** Everything an operation has to show about the words it wrote. */
  ghost predicate Rewired(m: seq<nat>, m': seq<nat>, lo: nat, hi: nat, t: seq<Tile>, p: int, a: nat, b: nat,
                          mid: seq<Tile>, h: nat, c: set<nat>)
  {
    && a <= b <= |t| && OneHole(mid, h) && LastHoleBefore(t, p, a) && mid != []
    && OnlyWrites(m, m', lo, c) && WritesNear(t, p, a, b, mid[0].at, mid[|mid| - 1].End(), c)
    && (var next := Addr(t, NextHole(t, b));
        && (0 <= p ==> Linked(m', lo, t[p], LinkTo(mid, h, next)))
        && (forall i :: 0 <= i < |mid| ==> Sized(m', lo, mid[i]))
        && (h < |mid| ==> Linked(m', lo, mid[h], next)))
  }

  /** The words of every block outside `a..b` are those of `m`. */
  ghost predicate BlocksKept(m: seq<nat>, m': seq<nat>, lo: nat, t: seq<Tile>, a: nat, b: nat)
  {
    forall i :: 0 <= i < |t| && (i < a || b <= i) && !t[i].free ==> TileKept(m, m', lo, t[i])
  }

  lemma Commit(m: seq<nat>, m': seq<nat>, lo: nat, hi: nat, t: seq<Tile>, p: int, a: nat, b: nat,
               mid: seq<Tile>, h: nat, c: set<nat>)
    requires Layout(t, lo, hi) && Stored(m, lo, t)
    requires Rewired(m, m', lo, hi, t, p, a, b, mid, h, c)
    requires mid[0].at == (if a < |t| then t[a].at else hi)
    requires mid[0].at <= mid[|mid| - 1].End() && (b < |t| ==> mid[|mid| - 1].End() == t[b].at)
    ensures Stored(m', lo, Replaced(t, a, b, mid))
    ensures Head(Replaced(t, a, b, mid)) == if 0 <= p then Head(t) else LinkTo(mid, h, Addr(t, NextHole(t, b)))
    ensures BlocksKept(m, m', lo, t, a, b)
  {
    hide Layout, Stored, Sized, Linked, WritesNear, OnlyWrites, TileKept, Relinked, Replaced;
    var x, y := mid[0].at, mid[|mid| - 1].End();
    RelinkedNear(m, m', lo, hi, t, p, a, b, mid, h, x, y, c);
    ReplacedStored(m', lo, t, p, a, b, mid, h);
    forall i | 0 <= i < |t| && (i < a || b <= i) && !t[i].free ensures TileKept(m, m', lo, t[i]) {
      OthersKept(m, m', lo, hi, t, p, a, b, x, y, c, i);
    }
  }

  /** The address in the second word of the hole at `p`, if there is one, becomes `next`. */
  ghost function Relink(m: seq<nat>, lo: nat, t: seq<Tile>, p: int, next: nat): (m': seq<nat>)
    requires -1 <= p < |t| && (0 <= p ==> Sized(m, lo, t[p]))
    ensures |m'| == |m|
  {
    if p < 0 then m else m[Word(lo, t[p].at) + 1 := next]
  }

  /** What follows a tile starts where it ends. */
  lemma NeighbourAt(t: seq<Tile>, k: nat, lo: nat, hi: nat)
    requires Layout(t, lo, hi) && k < |t|
    ensures k + 1 < |t| ==> t[k + 1].at == t[k].End()
    ensures forall i :: 0 <= i < k ==> t[i].at < t[i].End() <= t[k].at
    ensures forall i :: k < i < |t| ==> t[k].at < t[k].End() <= t[i].at
  {
    AllOrdered(t, lo, hi);
  }

  lemma OneMoreWrite(m: seq<nat>, m': seq<nat>, lo: nat, c: set<nat>, at: nat, w: nat, v: nat)
    requires OnlyWrites(m, m', lo, c) && w < |m'| && lo <= at && (w == Word(lo, at) || w == Word(lo, at) + 1)
    ensures OnlyWrites(m, m'[w := v], lo, c + {at})
  {
  }

  lemma MoreWrites(m: seq<nat>, m': seq<nat>, lo: nat, c: set<nat>, d: set<nat>)
    requires OnlyWrites(m, m', lo, c)
    ensures OnlyWrites(m, m', lo, c + d)
  {
  }

  lemma NoWrites(m: seq<nat>, lo: nat)
    ensures OnlyWrites(m, m, lo, {})
  {
  }

  lemma RelinkWrites(m: seq<nat>, lo: nat, t: seq<Tile>, p: int, next: nat)
    requires -1 <= p < |t| && (0 <= p ==> Sized(m, lo, t[p]))
    ensures OnlyWrites(m, Relink(m, lo, t, p, next), lo, HoleBefore(t, p))
    ensures 0 <= p ==> Linked(Relink(m, lo, t, p, next), lo, t[p], next)
  {
    hide OnlyWrites;
    NoWrites(m, lo);
    if 0 <= p {
      OneMoreWrite(m, m, lo, {}, t[p].at, Word(lo, t[p].at) + 1, next);
    }
  }

  /** The chunk a relink writes. */
  ghost function HoleBefore(t: seq<Tile>, p: int): set<nat>
    requires -1 <= p < |t|
  {
    if p < 0 then {} else {} + {t[p].at}
  }

  lemma WholeRewired(m: seq<nat>, m': seq<nat>, lo: nat, hi: nat, t: seq<Tile>, p: int, f: nat)
    requires Layout(t, lo, hi) && Stored(m, lo, t)
    requires f < |t| && t[f].free && LastHoleBefore(t, p, f)
    requires Sized(m, lo, t[f]) && (0 <= p ==> Sized(m, lo, t[p]))
    requires
      var w := Word(lo, t[f].at);
      m' == Relink(m, lo, t, p, m[w + 1])[w := t[f].size]
    ensures Rewired(m, m', lo, hi, t, p, f, f + 1, [t[f].(free := false)], 1, HoleBefore(t, p) + {t[f].at})
    ensures m[Word(lo, t[f].at) + 1] == Addr(t, NextHole(t, f + 1))
  {
    hide Layout, Stored, Relink, OnlyWrites;
    StoredTile(m, lo, t, f);
    NeighbourAt(t, f, lo, hi);
    var next := m[Word(lo, t[f].at) + 1];
    RelinkWrites(m, lo, t, p, next);
    OneMoreWrite(m, Relink(m, lo, t, p, next), lo, HoleBefore(t, p), t[f].at, Word(lo, t[f].at), t[f].size);
  }

  /** Taking hole `f` whole: the hole before it is linked past it. */
  lemma WholeTaken(m: seq<nat>, m': seq<nat>, lo: nat, hi: nat, t: seq<Tile>, p: int, f: nat)
    requires Layout(t, lo, hi) && Stored(m, lo, t)
    requires f < |t| && t[f].free && LastHoleBefore(t, p, f)
    requires Sized(m, lo, t[f]) && (0 <= p ==> Sized(m, lo, t[p]))
    requires
      var w := Word(lo, t[f].at);
      m' == Relink(m, lo, t, p, m[w + 1])[w := t[f].size]
    ensures Stored(m', lo, t[f := t[f].(free := false)])
    ensures Head(t[f := t[f].(free := false)]) == if 0 <= p then Head(t) else m[Word(lo, t[f].at) + 1]
    ensures BlocksKept(m, m', lo, t, f, f + 1)
  {
    hide Layout, Stored, BlocksKept, Rewired, Relink;
    var used := t[f].(free := false);
    NeighbourAt(t, f, lo, hi);
    WholeRewired(m, m', lo, hi, t, p, f);
    Commit(m, m', lo, hi, t, p, f, f + 1, [used], 1, HoleBefore(t, p) + {t[f].at});
    assert Replaced(t, f, f + 1, [used]) == t[f := used];
  }

  /** The words after a split of hole `f`: the remainder's header is written inside the hole. */
  ghost function SplitWords(m: seq<nat>, lo: nat, t: seq<Tile>, p: int, f: nat, n: nat): (m': seq<nat>)
    requires f < |t| && -1 <= p < f && Sized(m, lo, t[f]) && (0 <= p ==> Sized(m, lo, t[p]))
    requires 0 < n && n + 1 < t[f].size && (0 <= p ==> t[p].End() <= t[f].at)
    ensures |m'| == |m|
  {
    var rest := t[f].at + n;
    var m1 := m[Word(lo, rest) := t[f].size - n];
    var m2 := m1[Word(lo, rest) + 1 := m[Word(lo, t[f].at) + 1]];
    Relink(m2, lo, t, p, rest)[Word(lo, t[f].at) := n]
  }

  lemma SplitWrites(m: seq<nat>, lo: nat, t: seq<Tile>, p: int, f: nat, n: nat)
    requires f < |t| && -1 <= p < f && Sized(m, lo, t[f]) && (0 <= p ==> Sized(m, lo, t[p]))
    requires 0 < n && n + 1 < t[f].size && (0 <= p ==> t[p].End() <= t[f].at)
    ensures
      var used, rest := t[f].at, t[f].at + n;
      OnlyWrites(m, SplitWords(m, lo, t, p, f, n), lo, {} + {rest} + {rest} + HoleBefore(t, p) + {used})
  {
    hide OnlyWrites;
    var rest, next := t[f].at + n, m[Word(lo, t[f].at) + 1];
    var m1 := m[Word(lo, rest) := t[f].size - n];
    var m2 := m1[Word(lo, rest) + 1 := next];
    var m3 := Relink(m2, lo, t, p, rest);
    NoWrites(m, lo);
    OneMoreWrite(m, m, lo, {}, rest, Word(lo, rest), t[f].size - n);
    OneMoreWrite(m, m1, lo, {} + {rest}, rest, Word(lo, rest) + 1, next);
    if 0 <= p {
      OneMoreWrite(m, m2, lo, {} + {rest} + {rest}, t[p].at, Word(lo, t[p].at) + 1, rest);
    }
    OneMoreWrite(m, m3, lo, {} + {rest} + {rest} + HoleBefore(t, p), t[f].at, Word(lo, t[f].at), n);
  }

  lemma SplitRewired(m: seq<nat>, lo: nat, hi: nat, t: seq<Tile>, p: int, f: nat, n: nat)
    requires Layout(t, lo, hi) && Stored(m, lo, t)
    requires f < |t| && t[f].free && LastHoleBefore(t, p, f)
    requires Sized(m, lo, t[f]) && (0 <= p ==> Sized(m, lo, t[p]))
    requires 0 < n && n + 1 < t[f].size && (0 <= p ==> t[p].End() <= t[f].at)
    ensures
      var used, left := Tile(t[f].at, n, false), Tile(t[f].at + n, t[f].size - n, true);
      Rewired(m, SplitWords(m, lo, t, p, f, n), lo, hi, t, p, f, f + 1, [used, left], 1,
              {} + {left.at} + {left.at} + HoleBefore(t, p) + {used.at})
  {
    hide Layout, Stored, OnlyWrites;
    StoredTile(m, lo, t, f);
    SplitWrites(m, lo, t, p, f, n);
  }

  /** Splitting hole `f`: the caller gets its start, the rest stays in the list. */
  lemma Split(m: seq<nat>, lo: nat, hi: nat, t: seq<Tile>, p: int, f: nat, n: nat)
    requires Layout(t, lo, hi) && Stored(m, lo, t)
    requires f < |t| && t[f].free && LastHoleBefore(t, p, f)
    requires Sized(m, lo, t[f]) && (0 <= p ==> Sized(m, lo, t[p]))
    requires 0 < n && n + 1 < t[f].size && (0 <= p ==> t[p].End() <= t[f].at)
    ensures Stored(SplitWords(m, lo, t, p, f, n), lo, Take(t, f, n))
    ensures Head(Take(t, f, n)) == if 0 <= p then Head(t) else t[f].at + n
    ensures BlocksKept(m, SplitWords(m, lo, t, p, f, n), lo, t, f, f + 1)
  {
    hide Layout, Stored, BlocksKept, Rewired, SplitWords;
    var used, left := Tile(t[f].at, n, false), Tile(t[f].at + n, t[f].size - n, true);
    NeighbourAt(t, f, lo, hi);
    SplitRewired(m, lo, hi, t, p, f, n);
    assert OneHole([used, left], 1);
    Commit(m, SplitWords(m, lo, t, p, f, n), lo, hi, t, p, f, f + 1, [used, left], 1,
           {} + {left.at} + {left.at} + HoleBefore(t, p) + {used.at});
  }

  /** The last hole before tile `k`. */
  ghost function LastHole(t: seq<Tile>, k: nat): (p: int)
    requires k <= |t|
    ensures LastHoleBefore(t, p, k)
    decreases k
  {
    if k == 0 then -1 else if t[k - 1].free then k - 1 else LastHole(t, k - 1)
  }

  /** A block appended at the break: only its own header is written. */
  lemma Grown(m: seq<nat>, lo: nat, hi: nat, t: seq<Tile>, n: nat)
    requires Layout(t, lo, hi) && Stored(m, lo, t)
    requires lo <= hi && 0 < n && Word(lo, hi + n) <= |m|
    ensures
      var m' := m[Word(lo, hi) := n];
      var t' := t + [Tile(hi, n, false)];
      Stored(m', lo, t') && Head(t') == Head(t) && BlocksKept(m, m', lo, t, |t|, |t|)
  {
    hide Layout, Stored, OnlyWrites, BlocksKept;
    var p, m', used := LastHole(t, |t|), m[Word(lo, hi) := n], Tile(hi, n, false);
    NoWrites(m, lo);
    OneMoreWrite(m, m, lo, {}, hi, Word(lo, hi), n);
    if 0 <= p {
      StoredTile(m, lo, t, p);
      NextHoleIs(t, p + 1, |t|);
      EndsBelow(t, p, lo, hi);
    } else {
      NextHoleIs(t, 0, |t|);
    }
    Commit(m, m', lo, hi, t, p, |t|, |t|, [used], 1, {} + {hi});
    assert Replaced(t, |t|, |t|, [used]) == t + [used];
  }

  lemma EndsBelow(t: seq<Tile>, k: nat, lo: nat, hi: nat)
    requires Layout(t, lo, hi) && k < |t|
    ensures lo <= t[k].at < t[k].End() <= hi
  {
    AllOrdered(t, lo, hi);
  }

  /** What the words must say once block `k`, with the last hole `p` before it, is given back. */
  ghost predicate ReleaseWords(m: seq<nat>, m': seq<nat>, lo: nat, t: seq<Tile>, p: int, k: nat)
    requires k < |t| && LastHoleBefore(t, p, k)
  {
    && OnlyWrites(m, m', lo, HoleBefore(t, p) + {t[k].at})
    && Linked(m', lo, MergedHole(t, k), Addr(t, NextHole(t, MergeTo(t, k) + 1)))
    && (0 <= p < k - 1 ==> Linked(m', lo, t[p], t[k].at))
  }

  /** Block `k`, or the hole right before it grown by block `k`. */
  ghost function JoinedLeft(t: seq<Tile>, k: nat): Tile
    requires k < |t|
  {
    if 0 < k && t[k - 1].free then Tile(t[k - 1].at, t[k - 1].size + t[k].size, true) else t[k].(free := true)
  }

  /** The words once block `k` has been joined with what is before it; a hole after it is still
      as it was. */
  ghost predicate HalfReleased(m: seq<nat>, m': seq<nat>, lo: nat, t: seq<Tile>, p: int, k: nat)
    requires k < |t| && LastHoleBefore(t, p, k)
  {
    && OnlyWrites(m, m', lo, HoleBefore(t, p) + {t[k].at})
    && Sized(m', lo, JoinedLeft(t, k))
    && (0 <= p < k - 1 ==> Linked(m', lo, t[p], t[k].at))
    && (NextHole(t, k + 1) < |t| ==> Linked(m', lo, t[NextHole(t, k + 1)], NextAddr(t, NextHole(t, k + 1))))
  }

  lemma MergedSpan(t: seq<Tile>, k: nat, lo: nat, hi: nat)
    requires Layout(t, lo, hi) && k < |t|
    ensures MergedHole(t, k).End() == t[MergeTo(t, k)].End()
    ensures MergedHole(t, k).at <= t[k].at < MergedHole(t, k).End()
    ensures MergeTo(t, k) + 1 < |t| ==> t[MergeTo(t, k) + 1].at == t[MergeTo(t, k)].End()
  {
    hide Sum;
    RunOfTiles(t, MergeFrom(t, k), MergeTo(t, k), lo, hi);
    AllOrdered(t, lo, hi);
  }

  lemma JoinedLeftEnds(t: seq<Tile>, k: nat, lo: nat, hi: nat)
    requires Layout(t, lo, hi) && k < |t|
    ensures JoinedLeft(t, k).End() == t[k].End()
    ensures JoinedLeft(t, k).at == t[MergeFrom(t, k)].at < t[k].End()
    ensures forall q :: k < q < |t| ==> (t[q].at <= t[k].End() <==> q == k + 1) && t[k].End() <= t[q].at
  {
    AllOrdered(t, lo, hi);
    if 0 < k {
      assert t[k - 1 + 1].at == t[k - 1].End();
    }
    if k + 1 < |t| {
      assert t[k + 1].at == t[k].End();
    }
  }

  /** The merged hole is what was joined on the left, grown by a hole that touches it on the right. */
  lemma MergedIs(t: seq<Tile>, k: nat, lo: nat, hi: nat)
    requires Layout(t, lo, hi) && k < |t|
    ensures
      var h, q := JoinedLeft(t, k), NextHole(t, k + 1);
      && MergedHole(t, k) == (if q == k + 1 < |t| then Tile(h.at, h.size + t[q].size, true) else h)
      && NextHole(t, MergeTo(t, k) + 1) == (if q == k + 1 < |t| then NextHole(t, q + 1) else q)
  {
    hide Layout, Sum;
    MergedSpan(t, k, lo, hi);
    JoinedLeftEnds(t, k, lo, hi);
  }

  /** Growing the hole right before block `k` by that block. */
  lemma PrevExtended(m: seq<nat>, lo: nat, hi: nat, t: seq<Tile>, p: int, k: nat)
    requires Layout(t, lo, hi) && Stored(m, lo, t)
    requires k < |t| && !t[k].free && LastHoleBefore(t, p, k) && 0 <= p == k - 1
    requires TileStored(m, lo, t, p) && TileStored(m, lo, t, k)
    ensures
      var m' := m[Word(lo, t[p].at) := t[p].size + t[k].size];
      && HalfReleased(m, m', lo, t, p, k)
      && m'[Word(lo, t[p].at) + 1] == NextAddr(t, k)
  {
    hide Layout, Stored, OnlyWrites;
    var q, at := NextHole(t, k + 1), t[p].at;
    if q < |t| { StoredTile(m, lo, t, q); }
    NeighbourAt(t, k, lo, hi);
    NeighbourAt(t, p, lo, hi);
    NextHoleIs(t, p + 1, q);
    NoWrites(m, lo);
    OneMoreWrite(m, m, lo, {}, at, Word(lo, at), t[p].size + t[k].size);
    MoreWrites(m, m[Word(lo, at) := t[p].size + t[k].size], lo, {} + {at}, {t[k].at});
  }

  /** Linking block `k` in after a hole that does not touch it. */
  lemma PrevLinked(m: seq<nat>, lo: nat, hi: nat, t: seq<Tile>, p: int, k: nat)
    requires Layout(t, lo, hi) && Stored(m, lo, t)
    requires k < |t| && !t[k].free && LastHoleBefore(t, p, k) && 0 <= p < k - 1
    requires TileStored(m, lo, t, p) && TileStored(m, lo, t, k)
    ensures
      var m' := m[Word(lo, t[k].at) + 1 := NextAddr(t, p)][Word(lo, t[p].at) + 1 := t[k].at];
      && HalfReleased(m, m', lo, t, p, k)
      && m'[Word(lo, t[k].at) + 1] == NextAddr(t, k)
  {
    hide Layout, Stored, OnlyWrites;
    var q := NextHole(t, k + 1);
    if q < |t| { StoredTile(m, lo, t, q); }
    NeighbourAt(t, k, lo, hi);
    NeighbourAt(t, p, lo, hi);
    NextHoleIs(t, p + 1, q);
    NoWrites(m, lo);
    OneMoreWrite(m, m, lo, {}, t[k].at, Word(lo, t[k].at) + 1, NextAddr(t, p));
    OneMoreWrite(m, m[Word(lo, t[k].at) + 1 := NextAddr(t, p)], lo, {} + {t[k].at}, t[p].at, Word(lo, t[p].at) + 1, t[k].at);
    assert {} + {t[k].at} + {t[p].at} == HoleBefore(t, p) + {t[k].at};
  }

  /** With no hole before block `k` nothing has to be written yet. */
  lemma NoPrev(m: seq<nat>, lo: nat, hi: nat, t: seq<Tile>, k: nat)
    requires Layout(t, lo, hi) && Stored(m, lo, t)
    requires k < |t| && !t[k].free && LastHoleBefore(t, -1, k)
    ensures HalfReleased(m, m, lo, t, -1, k)
    ensures Head(t) == NextAddr(t, k)
  {
    hide Layout, Stored, OnlyWrites;
    var q := NextHole(t, k + 1);
    StoredTile(m, lo, t, k);
    if q < |t| { StoredTile(m, lo, t, q); }
    NextHoleIs(t, 0, q);
    NoWrites(m, lo);
    MoreWrites(m, m, lo, {}, {t[k].at});
  }

  /** In a heap without holes the freed block becomes a list of one. */
  lemma OnlyHole(m: seq<nat>, lo: nat, hi: nat, t: seq<Tile>, k: nat)
    requires Layout(t, lo, hi) && Stored(m, lo, t) && 0 < lo
    requires k < |t| && !t[k].free && LastHoleBefore(t, -1, k) && Head(t) == 0
    requires Sized(m, lo, t[k])
    ensures ReleaseWords(m, m[Word(lo, t[k].at) + 1 := 0], lo, t, -1, k)
  {
    hide Layout, Stored, OnlyWrites, ReleaseWords;
    NoPrev(m, lo, hi, t, k);
    EndsBelow(t, k, lo, hi);
    if NextHole(t, k + 1) < |t| { EndsBelow(t, NextHole(t, k + 1), lo, hi); }
    OneMoreWrite(m, m, lo, {} + {t[k].at}, t[k].at, Word(lo, t[k].at) + 1, 0);
    assert {} + {t[k].at} + {t[k].at} == HoleBefore(t, -1) + {t[k].at};
    LastReleased(m, m[Word(lo, t[k].at) + 1 := 0], lo, hi, t, -1, k);
  }

  /** The words once the freed hole has been joined with a hole after it that touches it, or
      linked to the one that does not. */
  ghost function NextJoined(m: seq<nat>, lo: nat, h: Tile, x: Tile): (m': seq<nat>)
    requires Sized(m, lo, h) && Sized(m, lo, x)
  {
    if x.at <= h.End() then m[Word(lo, h.at) := h.size + x.size][Word(lo, h.at) + 1 := m[Word(lo, x.at) + 1]]
    else m[Word(lo, h.at) + 1 := x.at]
  }

  lemma JoinedWrites(m: seq<nat>, m1: seq<nat>, lo: nat, t: seq<Tile>, p: int, k: nat, x: Tile)
    requires k < |t| && LastHoleBefore(t, p, k)
    requires Sized(m1, lo, JoinedLeft(t, k)) && Sized(m1, lo, x)
    requires OnlyWrites(m, m1, lo, HoleBefore(t, p) + {t[k].at})
    ensures OnlyWrites(m, NextJoined(m1, lo, JoinedLeft(t, k), x), lo, HoleBefore(t, p) + {t[k].at})
  {
    hide OnlyWrites;
    var c, h := HoleBefore(t, p) + {t[k].at}, JoinedLeft(t, k);
    assert c + {h.at} == c;
    if x.at <= h.End() {
      var m2 := m1[Word(lo, h.at) := h.size + x.size];
      OneMoreWrite(m, m1, lo, c, h.at, Word(lo, h.at), h.size + x.size);
      OneMoreWrite(m, m2, lo, c, h.at, Word(lo, h.at) + 1, m1[Word(lo, x.at) + 1]);
    } else {
      OneMoreWrite(m, m1, lo, c, h.at, Word(lo, h.at) + 1, x.at);
    }
  }

  lemma JoinedReleased(m: seq<nat>, m1: seq<nat>, lo: nat, hi: nat, t: seq<Tile>, p: int, k: nat)
    requires Layout(t, lo, hi) && k < |t| && LastHoleBefore(t, p, k) && NextHole(t, k + 1) < |t|
    requires HalfReleased(m, m1, lo, t, p, k)
    ensures ReleaseWords(m, NextJoined(m1, lo, JoinedLeft(t, k), t[NextHole(t, k + 1)]), lo, t, p, k)
  {
    hide Layout, OnlyWrites, MergedHole, MergeTo;
    var q := NextHole(t, k + 1);
    JoinedWrites(m, m1, lo, t, p, k, t[q]);
    MergedIs(t, k, lo, hi);
    JoinedLeftEnds(t, k, lo, hi);
    NeighbourAt(t, k, lo, hi);
  }

  /** With no hole after it the freed hole must end the list. */
  lemma LastReleased(m: seq<nat>, m1: seq<nat>, lo: nat, hi: nat, t: seq<Tile>, p: int, k: nat)
    requires Layout(t, lo, hi) && k < |t| && LastHoleBefore(t, p, k) && NextHole(t, k + 1) == |t|
    requires HalfReleased(m, m1, lo, t, p, k) && m1[Word(lo, JoinedLeft(t, k).at) + 1] == 0
    ensures ReleaseWords(m, m1, lo, t, p, k)
  {
    hide Layout, OnlyWrites, MergedHole, MergeTo;
    MergedIs(t, k, lo, hi);
  }

  /** The hole before the merged one still points to it. */
  lemma LinkBeforeMerge(m: seq<nat>, m': seq<nat>, lo: nat, hi: nat, t: seq<Tile>, p: int, k: nat)
    requires Layout(t, lo, hi) && Stored(m, lo, t)
    requires k < |t| && !t[k].free && LastHoleBefore(t, p, k) && ReleaseWords(m, m', lo, t, p, k)
    ensures
      var q := LastHole(t, MergeFrom(t, k));
      && (p < k - 1 ==> q == p)
      && (0 <= q ==> Linked(m', lo, t[q], t[MergeFrom(t, k)].at))
      && (p == k - 1 >= 0 && q < 0 ==> Head(t) == t[p].at)
  {
    hide Layout, Stored, MergedHole, Sum;
    var a := MergeFrom(t, k);
    var q := LastHole(t, a);
    NeighbourAt(t, k, lo, hi);
    if 0 <= p == k - 1 {
      if 0 <= q {
        StoredTile(m, lo, t, q);
        NextHoleIs(t, q + 1, a);
        NeighbourAt(t, a, lo, hi);
        assert TileKeptAt(m, m', lo, t[q]) by { HeaderKept(m, m', lo, HoleBefore(t, p) + {t[k].at}, t[q]); }
      } else {
        NextHoleIs(t, 0, a);
      }
    }
  }

  /** The two header words of a tile are those of `m`. */
  ghost predicate TileKeptAt(m: seq<nat>, m': seq<nat>, lo: nat, x: Tile)
  {
    Sized(m, lo, x) ==> |m'| == |m| && m'[Word(lo, x.at)] == m[Word(lo, x.at)] && m'[Word(lo, x.at) + 1] == m[Word(lo, x.at) + 1]
  }

  lemma HeaderKept(m: seq<nat>, m': seq<nat>, lo: nat, c: set<nat>, x: Tile)
    requires OnlyWrites(m, m', lo, c) && x.at !in c
    ensures TileKeptAt(m, m', lo, x)
  {
  }

  /** Giving block `k` back. */
  lemma Released(m: seq<nat>, m': seq<nat>, lo: nat, hi: nat, t: seq<Tile>, p: int, k: nat)
    requires Layout(t, lo, hi) && Stored(m, lo, t)
    requires k < |t| && !t[k].free && LastHoleBefore(t, p, k) && ReleaseWords(m, m', lo, t, p, k)
    ensures Stored(m', lo, Release(t, k))
    ensures Head(Release(t, k)) == if p < 0 then t[k].at else Head(t)
    ensures BlocksKept(m, m', lo, t, k, k + 1)
  {
    hide Layout, Stored, OnlyWrites, Sum, Sized, TileKept;
    var a, b, hole := MergeFrom(t, k), MergeTo(t, k) + 1, MergedHole(t, k);
    var q, c := LastHole(t, a), HoleBefore(t, p) + {t[k].at};
    MergedSpan(t, k, lo, hi);
    LinkBeforeMerge(m, m', lo, hi, t, p, k);
    assert WritesNear(t, q, a, b, hole.at, hole.End(), c);
    assert Rewired(m, m', lo, hi, t, q, a, b, [hole], 0, c);
    Commit(m, m', lo, hi, t, q, a, b, [hole], 0, c);
  }

  lemma StoredTile(m: seq<nat>, lo: nat, t: seq<Tile>, i: nat)
    requires Stored(m, lo, t) && i < |t|
    ensures TileStored(m, lo, t, i)
  {
  }

  /** Word `w` belongs to the caller's part of block `x`. */
  ghost predicate InPayload(x: Tile, lo: nat, w: nat)
  {
    2 * (x.at - lo) < w < 2 * (x.End() - lo)
  }

  /** Writing a caller's word keeps the list. */
  lemma PayloadWriteStored(m: seq<nat>, lo: nat, hi: nat, t: seq<Tile>, k: nat, w: nat, v: nat)
    requires Layout(t, lo, hi) && Stored(m, lo, t) && k < |t| && !t[k].free
    requires w < |m| && InPayload(t[k], lo, w)
    ensures Stored(m[w := v], lo, t)
  {
    AllOrdered(t, lo, hi);
    var m' := m[w := v];
    forall i | 0 <= i < |t| ensures TileStored(m', lo, t, i) {
      assert TileStored(m, lo, t, i);
      if i != k {
        assert t[i].End() <= t[k].at || t[k].End() <= t[i].at;
        assert TileKept(m, m', lo, t[i]);
        KeptStored(m, m', lo, t, i);
      }
    }
  }
}
