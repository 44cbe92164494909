/** The order in which the operator stores hashes: what is where, and how subtrees join to the root. */
module StoredHashes {
  // The hash of every complete aligned subtree comes right after the last leaf it
  // covers, lower levels first.

  import opened Symbols
  import opened Merkle

  // ------------------------------------------------------------------ shifts

  /** n << l */
  function Shl(n: nat, l: nat): (r: nat)
    ensures r >= n
    decreases l
  {
    if l == 0 then n else Shl(2 * n, l - 1)
  }

  /** n >> l */
  function Shr(n: nat, l: nat): nat
    decreases l
  {
    if l == 0 then n else Shr(n / 2, l - 1)
  }

  lemma {:induction false} ShlAdd(m: nat, n: nat, l: nat)
    ensures Shl(m + n, l) == Shl(m, l) + Shl(n, l)
    decreases l
  {
    if l > 0 {
      ShlAdd(2 * m, 2 * n, l - 1);
    }
  }

  lemma {:induction false} ShlTwice(n: nat, l: nat)
    ensures Shl(2 * n, l) == 2 * Shl(n, l)
    decreases l
  {
    ShlAdd(n, n, l);
  }

  lemma {:induction false} ShlOne(l: nat)
    ensures Shl(1, l) == Pow2(l)
  {
    if l > 0 {
      ShlOne(l - 1);
      ShlTwice(1, l - 1);
    }
  }

  lemma ShlNext(n: nat, l: nat)
    ensures Shl(n + 1, l) == Shl(n, l) + Pow2(l)
  {
    ShlAdd(n, 1, l);
    ShlOne(l);
  }

  lemma {:induction false} ShlMonotone(m: nat, n: nat, l: nat)
    requires m <= n
    ensures Shl(m, l) <= Shl(n, l)
    decreases l
  {
    if l > 0 {
      ShlMonotone(2 * m, 2 * n, l - 1);
    }
  }

  lemma {:induction false} ShlCompose(n: nat, a: nat, b: nat)
    ensures Shl(Shl(n, a), b) == Shl(n, a + b)
    decreases a
  {
    if a > 0 {
      ShlCompose(2 * n, a - 1, b);
    }
  }

  lemma {:induction false} ShrOfShl(n: nat, l: nat)
    ensures Shr(Shl(n, l), l) == n
    decreases l
  {
    if l > 0 {
      ShlTwice(n, l - 1);
      ShrOfShl(n, l - 1);
      assert Shl(n, l) / 2 == Shl(n, l - 1);
    }
  }

  // --------------------------------------------------------------- positions

  /** The last leaf under node n of a level. */
  function LastLeaf(level: nat, n: nat): nat
    decreases level
  {
    if level == 0 then n else LastLeaf(level - 1, 2 * n + 1)
  }

  /** How many hashes are stored before leaf n: n + n/2 + n/4 + ... */
  function Before(n: nat): nat {
    if n == 0 then 0 else n + Before(n / 2)
  }

  /** tlog.StoredHashIndex */
  function StoredHashIndex(level: nat, n: nat): nat {
    Before(LastLeaf(level, n)) + level
  }

  /** The number of trailing one bits: how many subtrees leaf n completes. */
  function Trailing(n: nat): nat {
    if n % 2 == 0 then 0 else 1 + Trailing(n / 2)
  }

  lemma {:induction false} LastLeafIs(level: nat, n: nat)
    ensures LastLeaf(level, n) + 1 == Shl(n + 1, level)
    ensures Trailing(LastLeaf(level, n)) == level + Trailing(n)
    decreases level
  {
    if level > 0 {
      LastLeafIs(level - 1, 2 * n + 1);
    }
  }

  lemma {:induction false} ShrOfLast(level: nat, n: nat)
    ensures Shr(LastLeaf(level, n), level) == n
    decreases level
  {
    if level > 0 {
      ShrOfLast(level - 1, 2 * n + 1);
      ShrStep(LastLeaf(level, n), level - 1);
    }
  }

  lemma {:induction false} ShrStep(n: nat, l: nat)
    ensures Shr(n, l + 1) == Shr(n, l) / 2
    decreases l
  {
    if l > 0 {
      ShrStep(n / 2, l - 1);
    }
  }

  /** Up to its trailing ones, shifting a leaf gives the node it completes. */
  lemma {:induction false} ShrCompletes(n: nat, l: nat)
    requires l <= Trailing(n)
    ensures LastLeaf(l, Shr(n, l)) == n
    ensures Trailing(Shr(n, l)) == Trailing(n) - l
    decreases l
  {
    if l > 0 {
      ShrCompletes(n, l - 1);
      ShrStep(n, l - 1);
      var k := Shr(n, l - 1);
      assert k % 2 == 1;
      LastLeafStep(l - 1, k / 2);
    }
  }

  lemma {:induction false} LastLeafStep(level: nat, n: nat)
    ensures LastLeaf(level + 1, n) == LastLeaf(level, 2 * n + 1)
  {
  }

  lemma {:induction false} BeforeNext(n: nat)
    ensures Before(n + 1) == Before(n) + 1 + Trailing(n)
  {
    if n % 2 == 1 {
      BeforeNext(n / 2);
      assert (n + 1) / 2 == n / 2 + 1;
    } else {
      assert (n + 1) / 2 == n / 2;
    }
  }

  lemma {:induction false} BeforeMonotone(a: nat, b: nat)
    requires a <= b
    ensures Before(a) <= Before(b)
  {
    if a > 0 {
      BeforeMonotone(a / 2, b / 2);
    }
  }

  // ---------------------------------------------------------------- subtrees

  /** Node n of a level lies within the first `size` leaves. */
  predicate Complete(size: nat, level: nat, n: nat) {
    Shl(n + 1, level) <= size
  }

  /** The hash of the records under node n of a level. */
  function Subtree(d: seq<Bytes>, level: nat, n: nat): Hash
    requires Complete(|d|, level, n)
    decreases level
  {
    if level == 0 then Leaf(d[n])
    else
      ShlMonotone(2 * n + 1, 2 * n + 2, level - 1);
      Node(Subtree(d, level - 1, 2 * n), Subtree(d, level - 1, 2 * n + 1))
  }

  lemma {:induction false} SubtreeOfLonger(d: seq<Bytes>, e: seq<Bytes>, level: nat, n: nat)
    requires Complete(|d|, level, n) && d <= e
    ensures Complete(|e|, level, n) && Subtree(e, level, n) == Subtree(d, level, n)
    decreases level
  {
    if level > 0 {
      ShlMonotone(2 * n + 1, 2 * n + 2, level - 1);
      SubtreeOfLonger(d, e, level - 1, 2 * n);
      SubtreeOfLonger(d, e, level - 1, 2 * n + 1);
    }
  }

  lemma Cut<T>(d: seq<T>, lo: nat, mid: nat, hi: nat)
    requires lo <= mid <= hi <= |d|
    ensures d[lo..hi] == d[lo..mid] + d[mid..hi]
  {
  }

  /** The section 2.1 hash of two halves, the left one a full power of two. */
  lemma TreeHashOfHalves(x: seq<Bytes>, y: seq<Bytes>, l: nat)
    requires |x| == Pow2(l) && 0 < |y| <= |x|
    ensures TreeHash(x + y) == Node(TreeHash(x), TreeHash(y))
  {
    var d := x + y;
    SplitUnique(|d|, l);
    assert d[..|x|] == x;
    assert d[|x|..] == y;
  }

  lemma TreeHashOfRange(d: seq<Bytes>, lo: nat, mid: nat, hi: nat, l: nat)
    requires lo <= mid < hi <= |d| && mid - lo == Pow2(l) && hi - mid <= Pow2(l)
    ensures TreeHash(d[lo..hi]) == Node(TreeHash(d[lo..mid]), TreeHash(d[mid..hi]))
  {
    Cut(d, lo, mid, hi);
    TreeHashOfHalves(d[lo..mid], d[mid..hi], l);
  }

  /** The hash of records lo to hi, as a function of the two positions. */
  ghost function Ranges(d: seq<Bytes>): (nat, nat) -> Hash {
    (lo: nat, hi: nat) => if lo <= hi <= |d| then TreeHash(d[lo..hi]) else Empty
  }

  /** A left part of a full power of two, and a right part that is no longer. */
  predicate Joint(lo: nat, mid: nat, hi: nat, l: nat) {
    lo <= mid < hi && mid - lo == Pow2(l) && hi - mid <= Pow2(l)
  }

  /** What the proofs below use of the section 2.1 hash: its leaves and its splits. */
  ghost predicate TreeLike(r: (nat, nat) -> Hash, d: seq<Bytes>) {
    && (forall n: nat :: n < |d| ==> r(n, n + 1) == Leaf(d[n]))
    && (forall lo: nat, mid: nat, hi: nat, l: nat :: Joint(lo, mid, hi, l) && hi <= |d| ==>
          r(lo, hi) == Node(r(lo, mid), r(mid, hi)))
  }

  lemma RangesTreeLike(d: seq<Bytes>)
    ensures TreeLike(Ranges(d), d)
  {
    var r := Ranges(d);
    forall n: nat | n < |d| ensures r(n, n + 1) == Leaf(d[n]) {
      OneRecord(d, n);
    }
    forall lo: nat, mid: nat, hi: nat, l: nat | Joint(lo, mid, hi, l) && hi <= |d|
      ensures r(lo, hi) == Node(r(lo, mid), r(mid, hi))
    {
      TreeHashOfRange(d, lo, mid, hi, l);
    }
  }

  lemma JoinsRange(r: (nat, nat) -> Hash, d: seq<Bytes>, lo: nat, mid: nat, hi: nat, l: nat)
    requires TreeLike(r, d) && hi <= |d| && Joint(lo, mid, hi, l)
    ensures r(lo, hi) == Node(r(lo, mid), r(mid, hi))
  {
  }

  lemma OneRecord(d: seq<Bytes>, n: nat)
    requires n < |d|
    ensures TreeHash(d[n..n + 1]) == Leaf(d[n])
  {
  }

  /** A subtree's hash is the hash of the records lo to hi that it covers. */
  lemma {:induction false} SubtreeIsRange(r: (nat, nat) -> Hash, d: seq<Bytes>, level: nat, n: nat, lo: nat, hi: nat)
    requires TreeLike(r, d) && Complete(|d|, level, n) && lo == Shl(n, level) && hi == Shl(n + 1, level)
    ensures Subtree(d, level, n) == r(lo, hi)
    decreases level
  {
    if level > 0 {
      var mid := Shl(2 * n + 1, level - 1);
      ShlNext(2 * n, level - 1);
      ShlNext(2 * n + 1, level - 1);
      SubtreeIsRange(r, d, level - 1, 2 * n, lo, mid);
      SubtreeIsRange(r, d, level - 1, 2 * n + 1, mid, hi);
      JoinsRange(r, d, lo, mid, hi, level - 1);
    }
  }

  /** A subtree's hash is the section 2.1 hash of the records it covers. */
  lemma SubtreeIsTreeHash(d: seq<Bytes>, level: nat, n: nat)
    requires Complete(|d|, level, n)
    ensures Shl(n, level) <= Shl(n + 1, level)
    ensures Subtree(d, level, n) == TreeHash(d[Shl(n, level)..Shl(n + 1, level)])
  {
    ShlMonotone(n, n + 1, level);
    RangesTreeLike(d);
    SubtreeIsRange(Ranges(d), d, level, n, Shl(n, level), Shl(n + 1, level));
  }

  // ------------------------------------------------------------ the whole list

  lemma LeafCompletes(size: nat, e: nat, l: nat)
    requires e < size && l <= Trailing(e)
    ensures Complete(size, l, Shr(e, l))
  {
    ShrCompletes(e, l);
    LastLeafIs(l, Shr(e, l));
  }

  /** The hashes stored when leaf e is appended: of the subtrees it completes, lowest first. */
  function Block(d: seq<Bytes>, e: nat): (r: seq<Hash>)
    requires e < |d|
    ensures |r| == Trailing(e) + 1
  {
    seq(Trailing(e) + 1, l requires 0 <= l <= Trailing(e) => LeafCompletes(|d|, e, l); Subtree(d, l, Shr(e, l)))
  }

  /** Everything the operator stores for a list of records, in storage order. */
  function Stored(d: seq<Bytes>): seq<Hash> {
    if d == [] then [] else Stored(d[..|d| - 1]) + Block(d, |d| - 1)
  }

  lemma {:induction false} StoredLength(d: seq<Bytes>)
    ensures |Stored(d)| == Before(|d|)
  {
    if d != [] {
      StoredLength(d[..|d| - 1]);
      BeforeNext(|d| - 1);
    }
  }

  lemma IndexInRange(size: nat, level: nat, n: nat)
    requires Complete(size, level, n)
    ensures StoredHashIndex(level, n) < Before(size)
  {
    LastLeafIs(level, n);
    var e := LastLeaf(level, n);
    BeforeNext(e);
    BeforeMonotone(e + 1, size);
  }

  /** Every complete subtree's hash is stored, at the index the library computes. */
  lemma {:induction false} StoredAt(d: seq<Bytes>, level: nat, n: nat)
    requires Complete(|d|, level, n)
    ensures StoredHashIndex(level, n) < |Stored(d)|
    ensures Stored(d)[StoredHashIndex(level, n)] == Subtree(d, level, n)
    decreases |d|
  {
    IndexInRange(|d|, level, n);
    StoredLength(d);
    LastLeafIs(level, n);
    var m := |d| - 1;
    var d' := d[..m];
    if LastLeaf(level, n) == m {
      StoredLength(d');
      ShrOfLast(level, n);
      assert Block(d, m)[level] == Subtree(d, level, n);
    } else {
      StoredAt(d', level, n);
      SubtreeOfLonger(d', d, level, n);
    }
  }

  // --------------------------------------------------------- the root from storage

  /** The largest level whose subtrees have at most n leaves. */
  function TopLevel(n: nat): (l: nat)
    requires n >= 1
    ensures Pow2(l) <= n < 2 * Pow2(l)
  {
    if n == 1 then 0 else
      assert Pow2(TopLevel(n / 2) + 1) == 2 * Pow2(TopLevel(n / 2));
      TopLevel(n / 2) + 1
  }

  /** lo is where a subtree of level l starts. */
  predicate Aligned(lo: nat, l: nat) { Shl(Shr(lo, l), l) == lo }

  lemma AlignedBelow(q: nat, l: nat, l': nat)
    requires l' <= l
    ensures Aligned(Shl(q, l), l')
  {
    ShlCompose(q, l - l', l');
    ShrOfShl(Shl(q, l - l'), l');
  }

  /** lo is where the largest subtree fitting before `size` starts. */
  predicate Startable(lo: nat, size: nat) {
    lo < size ==> Aligned(lo, TopLevel(size - lo))
  }

  /** A covering subtree is complete, and the next one starts where it ends. */
  lemma CoverStep(lo: nat, size: nat)
    requires lo < size && Startable(lo, size)
    ensures var l := TopLevel(size - lo);
            var n := Shr(lo, l);
            var mid := lo + Pow2(l);
            && mid <= size && Shl(n, l) == lo && Shl(n + 1, l) == mid && size - mid <= Pow2(l)
            && Complete(size, l, n) && Startable(mid, size)
  {
    var l := TopLevel(size - lo);
    var q := Shr(lo, l);
    var mid := lo + Pow2(l);
    ShlNext(q, l);
    if mid < size {
      Pow2Doubles(l, TopLevel(size - mid));
      AlignedBelow(q + 1, l, TopLevel(size - mid));
    }
  }

  /** The hashes of the complete subtrees that cover the records from lo on, largest first. */
  function Cover(d: seq<Bytes>, lo: nat): (hs: seq<Hash>)
    requires lo <= |d| && Startable(lo, |d|)
    ensures hs == [] <==> lo == |d|
    decreases |d| - lo
  {
    if lo == |d| then [] else
      CoverStep(lo, |d|);
      var l := TopLevel(|d| - lo);
      [Subtree(d, l, Shr(lo, l))] + Cover(d, lo + Pow2(l))
  }

  /** subTreeHash: join the hashes from the right. */
  function FoldRight(hs: seq<Hash>): Hash
    requires hs != []
  {
    if |hs| == 1 then hs[0] else Node(hs[0], FoldRight(hs[1..]))
  }

  lemma FoldCons(h: Hash, rest: seq<Hash>)
    requires rest != []
    ensures FoldRight([h] + rest) == Node(h, FoldRight(rest))
  {
    assert ([h] + rest)[1..] == rest;
  }

  /** Joining a subtree to what follows it. */
  lemma FoldStep(r: (nat, nat) -> Hash, d: seq<Bytes>, l: nat, n: nat, lo: nat, mid: nat, rest: seq<Hash>)
    requires TreeLike(r, d) && Complete(|d|, l, n) && lo == Shl(n, l) && mid == Shl(n + 1, l)
    requires mid == lo + Pow2(l) && |d| - mid <= Pow2(l)
    requires rest == [] <==> mid == |d|
    requires rest != [] ==> FoldRight(rest) == r(mid, |d|)
    ensures FoldRight([Subtree(d, l, n)] + rest) == r(lo, |d|)
  {
    SubtreeIsRange(r, d, l, n, lo, mid);
    if rest != [] {
      FoldCons(Subtree(d, l, n), rest);
      JoinsRange(r, d, lo, mid, |d|, l);
    }
  }

  lemma CoverFirst(d: seq<Bytes>, lo: nat, l: nat, n: nat, mid: nat)
    requires lo < |d| && Startable(lo, |d|)
    requires l == TopLevel(|d| - lo) && n == Shr(lo, l) && mid == lo + Pow2(l)
    ensures mid <= |d| && Startable(mid, |d|) && |d| - mid <= Pow2(l)
    ensures lo == Shl(n, l) && mid == Shl(n + 1, l)
    ensures Complete(|d|, l, n) && Cover(d, lo) == [Subtree(d, l, n)] + Cover(d, mid)
  {
    CoverStep(lo, |d|);
  }

  /** Joining the covering subtrees gives the hash of the records from lo on. */
  lemma {:induction false} FoldIsRange(r: (nat, nat) -> Hash, d: seq<Bytes>, lo: nat, hs: seq<Hash>)
    requires TreeLike(r, d) && lo < |d| && Startable(lo, |d|)
    requires hs == Cover(d, lo)
    ensures FoldRight(hs) == r(lo, |d|)
    decreases |d| - lo
  {
    var l := TopLevel(|d| - lo);
    var n, mid := Shr(lo, l), lo + Pow2(l);
    CoverFirst(d, lo, l, n, mid);
    var rest := Cover(d, mid);
    if mid < |d| {
      FoldIsRange(r, d, mid, rest);
    }
    FoldStep(r, d, l, n, lo, mid, rest);
  }

  lemma StartAtZero(size: nat)
    ensures Startable(0, size)
  {
    if 0 < size {
      ShlZero(TopLevel(size));
      AlignedBelow(0, TopLevel(size), TopLevel(size));
    }
  }

  /** tlog.TreeHash on the stored hashes: the root of all records. */
  lemma CoverGivesRoot(d: seq<Bytes>)
    requires d != []
    ensures Startable(0, |d|)
    ensures FoldRight(Cover(d, 0)) == TreeHash(d)
  {
    StartAtZero(|d|);
    RangesTreeLike(d);
    FoldIsRange(Ranges(d), d, 0, Cover(d, 0));
    assert d[0..|d|] == d;
  }

  lemma {:induction false} ShlZero(l: nat)
    ensures Shl(0, l) == 0
  {
    if l > 0 {
      ShlZero(l - 1);
    }
  }
}
