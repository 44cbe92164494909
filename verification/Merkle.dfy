/** The Merkle trees and proofs of RFC 6962. */
module Merkle {
  // Sections 2.1, 2.1.1 and 2.1.2, in the recursive form the checksum-database
  // library uses.  Tree heads are arbitrary hashes: nothing here assumes that a
  // head was built from a list of records.

  import opened Wrappers
  import opened Symbols

  datatype Tree = Tree(n: nat, hash: Hash)

  // ---------------------------------------------------------------- powers

  function Pow2(l: nat): (p: nat)
    ensures p >= 1
  {
    if l == 0 then 1 else 2 * Pow2(l - 1)
  }

  /** The level of the largest power of two strictly below n. */
  function SplitLevel(n: nat): (l: nat)
    requires n >= 2
    ensures Pow2(l) < n <= 2 * Pow2(l)
  {
    if n == 2 then 0 else
      var l := SplitLevel((n + 1) / 2);
      assert Pow2(l + 1) == 2 * Pow2(l);
      l + 1
  }

  /** Section 2.1: the largest power of two strictly smaller than n. */
  function Split(n: nat): (k: nat)
    requires n >= 2
    ensures 0 < k < n <= 2 * k
  {
    if n == 2 then 1 else 2 * Split((n + 1) / 2)
  }

  lemma {:induction false} SplitIsPower(n: nat)
    requires n >= 2
    ensures Split(n) == Pow2(SplitLevel(n))
  {
    if n > 2 {
      SplitIsPower((n + 1) / 2);
    }
  }

  lemma {:induction false} Pow2Monotone(a: nat, b: nat)
    requires a <= b
    ensures Pow2(a) <= Pow2(b)
    decreases b - a
  {
    if a < b {
      Pow2Monotone(a, b - 1);
    }
  }

  lemma Pow2Doubles(a: nat, b: nat)
    ensures a < b ==> 2 * Pow2(a) <= Pow2(b)
  {
    if a < b {
      Pow2Monotone(a + 1, b);
    }
  }

  lemma SplitUnique(n: nat, l: nat)
    requires n >= 2 && Pow2(l) < n <= 2 * Pow2(l)
    ensures SplitLevel(n) == l && Split(n) == Pow2(l)
  {
    var s := SplitLevel(n);
    SplitIsPower(n);
    Pow2Doubles(s, l);
    Pow2Doubles(l, s);
  }

  /** Every size between the split of t and t splits at the same place. */
  lemma SameSplit(n: nat, t: nat)
    requires t >= 2 && Split(t) < n <= t
    ensures Split(n) == Split(t)
  {
    SplitIsPower(t);
    SplitUnique(n, SplitLevel(t));
  }

  // ------------------------------------------------------------- tree hash

  /** Section 2.1: the Merkle tree hash of a list of records. */
  function TreeHash(d: seq<Bytes>): Hash {
    if |d| == 0 then Empty
    else if |d| == 1 then Leaf(d[0])
    else Node(TreeHash(d[..Split(|d|)]), TreeHash(d[Split(|d|)..]))
  }

  lemma {:induction false} TreeHashInjective(d: seq<Bytes>, e: seq<Bytes>)
    requires TreeHash(d) == TreeHash(e)
    ensures d == e
    decreases |d|
  {
    if |d| > 1 {
      var k, l := Split(|d|), Split(|e|);
      TreeHashInjective(d[..k], e[..l]);
      TreeHashInjective(d[k..], e[l..]);
      SameHalves(d, e, k, l);
    }
  }

  lemma SameHalves<T>(d: seq<T>, e: seq<T>, k: nat, l: nat)
    requires k <= |d| && l <= |e| && d[..k] == e[..l] && d[k..] == e[l..]
    ensures d == e
  {
    assert d == d[..k] + d[k..] && e == e[..l] + e[l..];
  }

  // -------------------------------------------------------- inclusion proof

  /** The leaf hash that a head (t, h) commits to at position i, if any. */
  function LeafAt(h: Hash, t: nat, i: nat): Option<Hash>
    requires i < t
    decreases t
  {
    if t == 1 then Some(h)
    else if !h.Node? then None
    else if i < Split(t) then LeafAt(h.left, Split(t), i)
    else LeafAt(h.right, t - Split(t), i - Split(t))
  }

  function RunRecordProof(p: seq<Hash>, t: nat, i: nat, leaf: Hash): Option<Hash>
    requires i < t
    decreases t
  {
    if t == 1 then (if p == [] then Some(leaf) else None)
    else if p == [] then None
    else
      var last := p[|p| - 1];
      var rest := p[..|p| - 1];
      if i < Split(t) then
        match RunRecordProof(rest, Split(t), i, leaf)
        case None => None
        case Some(th) => Some(Node(th, last))
      else
        match RunRecordProof(rest, t - Split(t), i - Split(t), leaf)
        case None => None
        case Some(th) => Some(Node(last, th))
  }

  predicate CheckRecord(p: seq<Hash>, t: nat, th: Hash, i: int, leaf: Hash) {
    0 <= i < t && RunRecordProof(p, t, i, leaf) == Some(th)
  }

  lemma {:induction false} RecordProofSound(p: seq<Hash>, t: nat, th: Hash, i: nat, leaf: Hash)
    requires i < t && RunRecordProof(p, t, i, leaf) == Some(th)
    ensures LeafAt(th, t, i) == Some(leaf)
    decreases t
  {
    if t > 1 {
      var rest := p[..|p| - 1];
      if i < Split(t) {
        RecordProofSound(rest, Split(t), th.left, i, leaf);
      } else {
        RecordProofSound(rest, t - Split(t), th.right, i - Split(t), leaf);
      }
    }
  }

  /** Section 2.1.1, read off a head: the audit path of position i. */
  function AuditPath(h: Hash, t: nat, i: nat): seq<Hash>
    requires i < t && LeafAt(h, t, i).Some?
    decreases t
  {
    if t == 1 then []
    else if i < Split(t) then AuditPath(h.left, Split(t), i) + [h.right]
    else AuditPath(h.right, t - Split(t), i - Split(t)) + [h.left]
  }

  lemma {:induction false} AuditPathAccepted(h: Hash, t: nat, i: nat)
    requires i < t && LeafAt(h, t, i).Some?
    ensures CheckRecord(AuditPath(h, t, i), t, h, i, LeafAt(h, t, i).value)
    decreases t
  {
    if t > 1 {
      var p := AuditPath(h, t, i);
      if i < Split(t) {
        AuditPathAccepted(h.left, Split(t), i);
        assert p[..|p| - 1] == AuditPath(h.left, Split(t), i);
      } else {
        AuditPathAccepted(h.right, t - Split(t), i - Split(t));
        assert p[..|p| - 1] == AuditPath(h.right, t - Split(t), i - Split(t));
      }
    }
  }

  /** An inclusion proof exists exactly for the leaf the head commits to. */
  lemma CheckRecordExactly(t: nat, th: Hash, i: nat, leaf: Hash)
    requires i < t
    ensures (exists p :: CheckRecord(p, t, th, i, leaf)) <==> LeafAt(th, t, i) == Some(leaf)
  {
    if LeafAt(th, t, i) == Some(leaf) {
      AuditPathAccepted(th, t, i);
    }
    forall p | CheckRecord(p, t, th, i, leaf) ensures LeafAt(th, t, i) == Some(leaf) {
      RecordProofSound(p, t, th, i, leaf);
    }
  }

  /** The head of a list of records commits to exactly those records. */
  lemma {:induction false} LeafAtOfTree(d: seq<Bytes>, i: nat)
    requires i < |d|
    ensures LeafAt(TreeHash(d), |d|, i) == Some(Leaf(d[i]))
    decreases |d|
  {
    if |d| > 1 {
      var k := Split(|d|);
      if i < k {
        LeafAtOfTree(d[..k], i);
      } else {
        LeafAtOfTree(d[k..], i - k);
      }
    }
  }

  // ------------------------------------------------------ consistency proof

  /** The head of the first n leaves of the tree (t, h), if h has that shape. */
  function PrefixRoot(h: Hash, t: nat, n: nat): Option<Hash>
    requires 0 < n <= t
    decreases t
  {
    if n == t then Some(h)
    else if !h.Node? then None
    else if n <= Split(t) then PrefixRoot(h.left, Split(t), n)
    else
      match PrefixRoot(h.right, t - Split(t), n - Split(t))
      case None => None
      case Some(r) => Some(Node(h.left, r))
  }

  /**
    Section 2.1.2, SUBPROOF run backwards: from a proof and the earlier head,
    recompute the earlier and the new head.  `atRoot` is RFC 6962's flag b.
  */
  function RunTreeProof(p: seq<Hash>, t: nat, n: nat, prior: Hash, atRoot: bool): Option<(Hash, Hash)>
    requires 0 < n <= t
    decreases t
  {
    if n == t then
      if atRoot then (if p == [] then Some((prior, prior)) else None)
      else (if |p| == 1 then Some((p[0], p[0])) else None)
    else if p == [] then None
    else
      var last := p[|p| - 1];
      var rest := p[..|p| - 1];
      if n <= Split(t) then
        match RunTreeProof(rest, Split(t), n, prior, atRoot)
        case None => None
        case Some((oh, th)) => Some((oh, Node(th, last)))
      else
        match RunTreeProof(rest, t - Split(t), n - Split(t), prior, false)
        case None => None
        case Some((oh, th)) => Some((Node(last, oh), Node(last, th)))
  }

  predicate CheckTree(p: seq<Hash>, t: nat, th: Hash, n: nat, h: Hash) {
    1 <= n <= t && RunTreeProof(p, t, n, h, true) == Some((h, th))
  }

  lemma {:induction false} TreeProofSound(p: seq<Hash>, t: nat, n: nat, prior: Hash, atRoot: bool, oh: Hash, th: Hash)
    requires 0 < n <= t && RunTreeProof(p, t, n, prior, atRoot) == Some((oh, th))
    ensures PrefixRoot(th, t, n) == Some(oh)
    decreases t
  {
    if n != t {
      var rest := p[..|p| - 1];
      if n <= Split(t) {
        TreeProofSound(rest, Split(t), n, prior, atRoot, oh, th.left);
      } else {
        TreeProofSound(rest, t - Split(t), n - Split(t), prior, false, oh.right, th.right);
      }
    }
  }

  /** Section 2.1.2, SUBPROOF: the consistency proof read off the new head. */
  function ConsistencyProof(th: Hash, t: nat, n: nat, atRoot: bool): seq<Hash>
    requires 0 < n <= t && PrefixRoot(th, t, n).Some?
    decreases t
  {
    if n == t then (if atRoot then [] else [th])
    else if n <= Split(t) then ConsistencyProof(th.left, Split(t), n, atRoot) + [th.right]
    else ConsistencyProof(th.right, t - Split(t), n - Split(t), false) + [th.left]
  }

  lemma {:induction false} ConsistencyProofAccepted(th: Hash, t: nat, n: nat, prior: Hash, atRoot: bool)
    requires 0 < n <= t && PrefixRoot(th, t, n).Some?
    requires atRoot ==> PrefixRoot(th, t, n) == Some(prior)
    ensures RunTreeProof(ConsistencyProof(th, t, n, atRoot), t, n, prior, atRoot)
            == Some((PrefixRoot(th, t, n).value, th))
    decreases t
  {
    if n != t {
      var p := ConsistencyProof(th, t, n, atRoot);
      if n <= Split(t) {
        ConsistencyProofAccepted(th.left, Split(t), n, prior, atRoot);
        assert p[..|p| - 1] == ConsistencyProof(th.left, Split(t), n, atRoot);
      } else {
        ConsistencyProofAccepted(th.right, t - Split(t), n - Split(t), prior, false);
        assert p[..|p| - 1] == ConsistencyProof(th.right, t - Split(t), n - Split(t), false);
      }
    }
  }

  /** Some proof convinces CheckTree exactly when the earlier head is the prefix. */
  lemma CheckTreeExactly(t: nat, th: Hash, n: nat, h: Hash)
    requires 1 <= n <= t
    ensures (exists p :: CheckTree(p, t, th, n, h)) <==> PrefixRoot(th, t, n) == Some(h)
  {
    if PrefixRoot(th, t, n) == Some(h) {
      ConsistencyProofAccepted(th, t, n, h, true);
      assert CheckTree(ConsistencyProof(th, t, n, true), t, th, n, h);
    }
    forall p | CheckTree(p, t, th, n, h) ensures PrefixRoot(th, t, n) == Some(h) {
      TreeProofSound(p, t, n, h, true, h, th);
    }
  }

  lemma {:induction false} PrefixRootOfTree(d: seq<Bytes>, n: nat)
    requires 0 < n <= |d|
    ensures PrefixRoot(TreeHash(d), |d|, n) == Some(TreeHash(d[..n]))
    decreases |d|
  {
    if n == |d| {
      assert d[..n] == d;
    } else {
      var k := Split(|d|);
      if n <= k {
        PrefixRootOfTree(d[..k], n);
        assert d[..k][..n] == d[..n];
      } else {
        PrefixRootOfTree(d[k..], n - k);
        SameSplit(n, |d|);
        assert d[..n][..k] == d[..k];
        assert d[..n][k..] == d[k..][..n - k];
      }
    }
  }

  /** For heads built from records, consistency is the prefix order on lists. */
  lemma ConsistentIffPrefix(d: seq<Bytes>, e: seq<Bytes>)
    requires 0 < |e| <= |d|
    ensures (exists p :: CheckTree(p, |d|, TreeHash(d), |e|, TreeHash(e))) <==> e <= d
  {
    var th, h := TreeHash(d), TreeHash(e);
    PrefixRootOfTree(d, |e|);
    if TreeHash(d[..|e|]) == h {
      TreeHashInjective(d[..|e|], e);
      assert e <= d;
    }
    assert PrefixRoot(th, |d|, |e|) == Some(h) <==> e <= d by {
      if e <= d {
        assert d[..|e|] == e;
      }
    }
    CheckTreeExactly(|d|, th, |e|, h);
  }

  // --------------------------------------------------- the order on tree heads

  /**
    The tree head `a` is a prefix of `b`.  The empty tree is a prefix of every
    larger one whatever its hash, because no consistency proof is asked for then.
  */
  predicate Prefix(a: Tree, b: Tree) {
    && a.n <= b.n
    && (a.n == b.n ==> a == b)
    && (0 < a.n ==> PrefixRoot(b.hash, b.n, a.n) == Some(a.hash))
  }

  predicate Comparable(a: Tree, b: Tree) {
    Prefix(a, b) || Prefix(b, a)
  }

  lemma {:induction false} PrefixRootCompose(h3: Hash, n3: nat, n2: nat, n1: nat)
    requires 0 < n1 <= n2 <= n3 && PrefixRoot(h3, n3, n2).Some?
    ensures PrefixRoot(h3, n3, n1) == PrefixRoot(PrefixRoot(h3, n3, n2).value, n2, n1)
    decreases n3
  {
    if n2 < n3 {
      var k := Split(n3);
      if n2 <= k {
        PrefixRootCompose(h3.left, k, n2, n1);
      } else {
        SameSplit(n2, n3);
        if n1 > k && n1 < n2 {
          PrefixRootCompose(h3.right, n3 - k, n2 - k, n1 - k);
        }
      }
    }
  }

  lemma PrefixReflexive(a: Tree)
    ensures Prefix(a, a)
  {
  }

  /** Accepted consistency proofs compose: the prefix relation is transitive. */
  lemma PrefixTransitive(a: Tree, b: Tree, c: Tree)
    requires Prefix(a, b) && Prefix(b, c)
    ensures Prefix(a, c)
  {
    if 0 < a.n {
      PrefixRootCompose(c.hash, c.n, b.n, a.n);
    }
  }

  /** Two prefixes of one tree are themselves comparable. */
  lemma PrefixesComparable(a: Tree, b: Tree, c: Tree)
    requires Prefix(a, c) && Prefix(b, c) && a.n <= b.n
    ensures (a.n == b.n && a.n == 0) || Prefix(a, b)
  {
    if 0 < a.n {
      PrefixRootCompose(c.hash, c.n, b.n, a.n);
    }
  }

  lemma {:induction false} PrefixRootKeepsLeaf(h: Hash, t: nat, n: nat, i: nat)
    requires i < n <= t && PrefixRoot(h, t, n).Some?
    ensures LeafAt(PrefixRoot(h, t, n).value, n, i) == LeafAt(h, t, i)
    decreases t
  {
    if n < t {
      var k := Split(t);
      if n <= k {
        PrefixRootKeepsLeaf(h.left, k, n, i);
      } else {
        SameSplit(n, t);
        if i >= k {
          PrefixRootKeepsLeaf(h.right, t - k, n - k, i - k);
        }
      }
    }
  }

  /** A larger head commits to the same leaf at every position of a smaller one. */
  lemma PrefixKeepsLeaves(a: Tree, b: Tree, i: nat)
    requires Prefix(a, b) && i < a.n
    ensures LeafAt(a.hash, a.n, i) == LeafAt(b.hash, b.n, i)
  {
    PrefixRootKeepsLeaf(b.hash, b.n, a.n, i);
  }
}
