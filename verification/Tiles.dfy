/**
  Hash tiles of height 8: which tiles a tree of some size has, which of them
  are new since an earlier size, and what is in them.
*/
module Tiles {
  import opened Symbols
  import opened Merkle
  import opened StoredHashes
  import opened Timeline

  /** How many complete nodes tile level L has in a tree of this size. */
  function Nodes(size: nat, L: nat): nat { Shr(size, 8 * L) }

  /** The tiles of a tree: the full ones, and at the right edge the started one. */
  predicate IsTile(t: Tile, size: nat) {
    var m := Nodes(size, t.L);
    || (t.W == 256 && t.N < m / 256)
    || (0 < t.W == m % 256 && t.N == m / 256)
  }

  /** All of the tile's hashes are of complete subtrees. */
  predicate InTree(t: Tile, size: nat) { 256 * t.N + t.W <= Nodes(size, t.L) }

  // ------------------------------------------------------------ node counting

  /** A node count fits below a shifted size exactly when the shifted count fits below the size. */
  lemma {:induction false} ShiftsAdjoint(a: nat, size: nat, l: nat)
    ensures Shl(a, l) <= size <==> a <= Shr(size, l)
    decreases l
  {
    if l > 0 {
      ShiftsAdjoint(2 * a, size, l - 1);
      ShrStep(size, l - 1);
    }
  }

  lemma {:induction false} ShrMonotone(a: nat, b: nat, l: nat)
    requires a <= b
    ensures Shr(a, l) <= Shr(b, l)
    decreases l
  {
    if l > 0 {
      ShrMonotone(a / 2, b / 2, l - 1);
    }
  }

  lemma NodeComplete(size: nat, L: nat, n: nat)
    ensures Complete(size, 8 * L, n) <==> n < Nodes(size, L)
  {
    ShiftsAdjoint(n + 1, size, 8 * L);
  }

  lemma TileInTree(t: Tile, size: nat)
    requires IsTile(t, size)
    ensures ValidTile(t) && InTree(t, size)
  {
  }

  lemma InLongerTree(t: Tile, size: nat, longer: nat)
    requires InTree(t, size) && size <= longer
    ensures InTree(t, longer)
  {
    ShrMonotone(size, longer, 8 * t.L);
  }

  /** Each tile level has 256 times fewer nodes than the one below. */
  lemma NodesAbove(size: nat, L: nat)
    ensures Nodes(size, L + 1) == Nodes(size, L) / 256
  {
    var l := 8 * L;
    ShrStep(size, l);
    ShrStep(size, l + 1);
    ShrStep(size, l + 2);
    ShrStep(size, l + 3);
    ShrStep(size, l + 4);
    ShrStep(size, l + 5);
    ShrStep(size, l + 6);
    ShrStep(size, l + 7);
  }

  lemma {:induction false} NoNodesAbove(size: nat, L: nat, M: nat)
    requires Nodes(size, L) == 0 && L <= M
    ensures Nodes(size, M) == 0
    decreases M - L
  {
    if L < M {
      NodesAbove(size, L);
      NoNodesAbove(size, L + 1, M);
    }
  }

  /**
    tlog.NewTiles: exactly the tiles that a tree of the new size has and a
    tree of the earlier size does not.
  */
  method NewTiles(before: nat, size: nat) returns (tiles: seq<Tile>)
    requires before <= size
    ensures forall t :: t in tiles <==> IsTile(t, size) && !IsTile(t, before)
  {
    tiles := [];
    var level := 0;
    while Nodes(size, level) > 0
      invariant forall t :: t in tiles <==> t.L < level && IsTile(t, size) && !IsTile(t, before)
      decreases Nodes(size, level)
    {
      var m, m' := Nodes(before, level), Nodes(size, level);
      ShrMonotone(before, size, 8 * level);
      ghost var below := tiles;
      if m != m' {
        var n := m / 256;
        while n < m' / 256
          invariant m / 256 <= n <= m' / 256
          invariant forall t :: t in tiles <==> t in below || (t.L == level && t.W == 256 && m / 256 <= t.N < n)
        {
          tiles := tiles + [Tile(level, n, 256)];
          n := n + 1;
        }
        if m' % 256 > 0 {
          tiles := tiles + [Tile(level, m' / 256, m' % 256)];
        }
      }
      NodesAbove(size, level);
      level := level + 1;
    }
    forall t: Tile | t.L >= level ensures !IsTile(t, size) {
      NoNodesAbove(size, level, t.L);
    }
  }

  // ------------------------------------------------------------------ contents

  function Digests(hs: seq<Hash>): (r: Bytes)
    ensures |r| == |hs| && forall i :: 0 <= i < |r| ==> r[i] == Digest(hs[i])
  {
    seq(|hs|, i requires 0 <= i < |hs| => Digest(hs[i]))
  }

  function TileHashes(d: seq<Bytes>, t: Tile): (r: seq<Hash>)
    requires InTree(t, |d|)
    ensures |r| == t.W
  {
    seq(t.W, i requires 0 <= i < t.W =>
      NodeComplete(|d|, t.L, 256 * t.N + i);
      Subtree(d, 8 * t.L, 256 * t.N + i))
  }

  /** A tile's content: its subtree hashes, left to right. */
  function TileData(d: seq<Bytes>, t: Tile): (r: Bytes)
    requires InTree(t, |d|)
    ensures |r| == t.W
  {
    Digests(TileHashes(d, t))
  }

  /** Appending records does not change a tile that was in the tree. */
  lemma TileDataOfLonger(d: seq<Bytes>, e: seq<Bytes>, t: Tile)
    requires InTree(t, |d|) && d <= e
    ensures InTree(t, |e|) && TileData(e, t) == TileData(d, t)
  {
    InLongerTree(t, |d|, |e|);
    var a, b := TileHashes(d, t), TileHashes(e, t);
    forall i | 0 <= i < t.W ensures a[i] == b[i] {
      NodeComplete(|d|, t.L, 256 * t.N + i);
      SubtreeOfLonger(d, e, 8 * t.L, 256 * t.N + i);
    }
    assert a == b;
  }

  // --------------------------------------------------- what a tile reader needs

  /**
    The tile in which a reader of a tree of this size looks up node n of a
    level, with the first and the number of the tile's hashes to join.
  */
  function TileFor(level: nat, n: nat, size: nat): (Tile, nat, nat) {
    var first := Shl(n, level % 8);
    var m := Nodes(size, level / 8);
    var start := 256 * (first / 256);
    var w := if start + 256 <= m then 256 else if start <= m then m - start else 0;
    (Tile(level / 8, first / 256, w), first % 256, Pow2(level % 8))
  }

  /** tileHash: joining a power of two of neighbouring hashes. */
  function Joined(hs: seq<Hash>, j: nat): Hash
    requires |hs| == Pow2(j)
    decreases j
  {
    if j == 0 then hs[0] else
      Node(Joined(hs[..Pow2(j - 1)], j - 1), Joined(hs[Pow2(j - 1)..], j - 1))
  }

  /** These are the neighbouring hashes of a level from node `first` on. */
  ghost predicate Row(d: seq<Bytes>, level: nat, first: nat, hs: seq<Hash>) {
    forall k: nat :: first <= k < first + |hs| ==> Complete(|d|, level, k) && hs[k - first] == Subtree(d, level, k)
  }

  lemma RowHalves(d: seq<Bytes>, level: nat, first: nat, hs: seq<Hash>, half: nat)
    requires Row(d, level, first, hs) && half <= |hs|
    ensures Row(d, level, first, hs[..half]) && Row(d, level, first + half, hs[half..])
  {
  }

  lemma {:induction false} JoinedIsSubtree(d: seq<Bytes>, base: nat, j: nat, n: nat, hs: seq<Hash>)
    requires Complete(|d|, base + j, n) && |hs| == Pow2(j) && Row(d, base, Shl(n, j), hs)
    ensures Joined(hs, j) == Subtree(d, base + j, n)
    decreases j
  {
    if j == 0 {
      assert Complete(|d|, base, n) && hs[n - Shl(n, 0)] == Subtree(d, base, n);
    } else {
      ShlMonotone(2 * n + 1, 2 * n + 2, base + j - 1);
      ShlNext(2 * n, j - 1);
      RowHalves(d, base, Shl(n, j), hs, Pow2(j - 1));
      JoinedIsSubtree(d, base, j - 1, 2 * n, hs[..Pow2(j - 1)]);
      JoinedIsSubtree(d, base, j - 1, 2 * n + 1, hs[Pow2(j - 1)..]);
    }
  }

  /** Shifting by j and then cutting at e + j keeps to one block. */
  lemma OneBlock(n: nat, e: nat, j: nat)
    ensures Shl(Shr(n, e), e + j) <= Shl(n, j) && Shl(n + 1, j) <= Shl(Shr(n, e) + 1, e + j)
  {
    var q := Shr(n, e);
    ShiftsAdjoint(q, n, e);
    ShiftsAdjoint(q + 1, n, e);
    ShlMonotone(Shl(q, e), n, j);
    ShlMonotone(n + 1, Shl(q + 1, e), j);
    ShlCompose(q, e, j);
    ShlCompose(q + 1, e, j);
  }

  lemma Shl8(q: nat, l: nat)
    requires l == 8
    ensures Shl(q, l) == 256 * q
  {
    assert Shl(q, 8) == 256 * q;
  }

  lemma OneBlock8(n: nat, e: nat, j: nat, w: nat)
    requires e + j == w == 8
    ensures 256 * Shr(n, e) <= Shl(n, j) && Shl(n + 1, j) <= 256 * (Shr(n, e) + 1)
  {
    OneBlock(n, e, j);
    Shl8(Shr(n, e), w);
    Shl8(Shr(n, e) + 1, w);
  }

  /** A subtree at most 7 levels above a tile row lies within one tile. */
  lemma WithinTile(n: nat, j: nat, e: nat)
    requires e + j == 8
    ensures Shl(n, j) % 256 + Pow2(j) <= 256
  {
    OneBlock8(n, e, j, 8);
    ShlNext(n, j);
    Between(Shl(n, j), Pow2(j), Shr(n, e));
  }

  lemma Between(a: nat, c: nat, q: nat)
    requires 256 * q <= a && a + c <= 256 * (q + 1)
    ensures c > 0 ==> a % 256 + c <= 256
  {
  }

  /** The tile a reader looks in is one of the tree's tiles, wide enough for the node. */
  lemma ReaderAsksForTiles(level: nat, n: nat, size: nat)
    requires Complete(size, level, n)
    ensures var (t, start, count) := TileFor(level, n, size);
            IsTile(t, size) && start + count <= t.W
  {
    var L, j := level / 8, level % 8;
    var first := Shl(n, j);
    ShlCompose(n + 1, j, 8 * L);
    ShiftsAdjoint(Shl(n + 1, j), size, 8 * L);
    ShlNext(n, j);
    WithinTile(n, j, 8 - j);
  }

  /**
    Every complete subtree's hash can be joined from one of the tree's own
    tiles: these are all the hashes that record and tree proofs are made of.
  */
  lemma TilesHoldEveryHash(d: seq<Bytes>, level: nat, n: nat)
    requires Complete(|d|, level, n)
    ensures var (t, start, count) := TileFor(level, n, |d|);
            && IsTile(t, |d|) && InTree(t, |d|) && start + count <= t.W && count == Pow2(level % 8)
            && Joined(TileHashes(d, t)[start..start + count], level % 8) == Subtree(d, level, n)
  {
    var (t, start, count) := TileFor(level, n, |d|);
    var L, j := level / 8, level % 8;
    ReaderAsksForTiles(level, n, |d|);
    TileInTree(t, |d|);
    TileHolds(d, 8 * L, j, level, n, t, start, count);
  }

  /** The hashes under a node, found where they start in a tile of their level. */
  lemma TileHolds(d: seq<Bytes>, base: nat, j: nat, level: nat, n: nat, t: Tile, start: nat, count: nat)
    requires InTree(t, |d|) && start + count <= t.W && count == Pow2(j)
    requires base == 8 * t.L && level == base + j && Shl(n, j) == 256 * t.N + start && Complete(|d|, level, n)
    ensures Joined(TileHashes(d, t)[start..start + count], j) == Subtree(d, level, n)
  {
    RowOfTile(d, t, start, count);
    JoinedIsSubtree(d, base, j, n, TileHashes(d, t)[start..start + count]);
  }

  lemma RowOfTile(d: seq<Bytes>, t: Tile, start: nat, count: nat)
    requires InTree(t, |d|) && start + count <= t.W
    ensures Row(d, 8 * t.L, 256 * t.N + start, TileHashes(d, t)[start..start + count])
  {
    var first := 256 * t.N + start;
    var hs := TileHashes(d, t)[start..start + count];
    forall k: nat | first <= k < first + |hs|
      ensures Complete(|d|, 8 * t.L, k) && hs[k - first] == Subtree(d, 8 * t.L, k)
    {
      NodeComplete(|d|, t.L, k);
      assert hs[k - first] == TileHashes(d, t)[k - 256 * t.N];
    }
  }
}
