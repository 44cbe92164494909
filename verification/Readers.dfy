/** How record and tree proofs are put together from single hashes. */
module Readers {
  // What the checksum-database library reads to prove a record or an earlier
  // tree.  The hashes come from anywhere and may be missing; if they are the
  // log's, the proofs are accepted.

  import opened Wrappers
  import opened Symbols
  import opened Merkle
  import opened StoredHashes

  /** Looks up the hash of a node by level and position; None if it cannot be read. */
  type Lookup = (nat, nat) -> Option<Hash>

  /** subTreeIndex and subTreeHash: the hash of the records lo to hi, from the subtrees that cover them. */
  function ReadRange(get: Lookup, lo: nat, hi: nat): Option<Hash>
    requires lo < hi
    decreases hi - lo
  {
    var l := TopLevel(hi - lo);
    var mid := lo + Pow2(l);
    if mid == hi then get(l, Shr(lo, l)) else JoinRead(get(l, Shr(lo, l)), ReadRange(get, mid, hi))
  }

  function JoinRead(h: Option<Hash>, rest: Option<Hash>): Option<Hash> {
    if h.None? || rest.None? then None else Some(Node(h.value, rest.value))
  }

  function Append(p: Option<seq<Hash>>, h: Option<Hash>): Option<seq<Hash>> {
    if p.None? || h.None? then None else Some(p.value + [h.value])
  }

  /** leafProof */
  function ReadRecordProof(get: Lookup, lo: nat, hi: nat, i: nat): Option<seq<Hash>>
    requires lo <= i < hi
    decreases hi - lo
  {
    if hi - lo == 1 then Some([])
    else
      var mid := lo + Split(hi - lo);
      if i < mid then Append(ReadRecordProof(get, lo, mid, i), ReadRange(get, mid, hi))
      else Append(ReadRecordProof(get, mid, hi, i), ReadRange(get, lo, mid))
  }

  /** treeProof */
  function ReadTreeProof(get: Lookup, lo: nat, hi: nat, n: nat): Option<seq<Hash>>
    requires lo < n <= hi
    decreases hi - lo
  {
    if n == hi then (if lo == 0 then Some([]) else Append(Some([]), ReadRange(get, lo, hi)))
    else
      var mid := lo + Split(hi - lo);
      if n <= mid then Append(ReadTreeProof(get, lo, mid, n), ReadRange(get, mid, hi))
      else Append(ReadTreeProof(get, mid, hi, n), ReadRange(get, lo, mid))
  }

  // ------------------------------------------------------------ reading the log

  /** Every complete subtree of these records is there to be read. */
  ghost predicate Supplies(get: Lookup, d: seq<Bytes>) {
    forall level: nat, n: nat :: Complete(|d|, level, n) ==> get(level, n) == Some(Subtree(d, level, n))
  }

  /** A multiple of a power of two is one of every smaller power. */
  lemma Lower(q: nat, l: nat, l': nat, lo: nat)
    requires l' <= l && lo == Shl(q, l)
    ensures lo == Shl(Shl(q, l - l'), l')
  {
    ShlCompose(q, l - l', l');
  }

  /** Where the first subtree of a range that starts a subtree of level l lies. */
  lemma FirstOfRange(lo: nat, hi: nat, q: nat, l: nat, t: nat) returns (n: nat)
    requires lo < hi && lo == Shl(q, l) && hi - lo <= Pow2(l) && t == TopLevel(hi - lo)
    ensures lo + Pow2(t) <= hi && hi - (lo + Pow2(t)) <= Pow2(t)
    ensures lo == Shl(n, t) && lo + Pow2(t) == Shl(n + 1, t) && Shr(lo, t) == n
  {
    Pow2Doubles(l, t);
    Lower(q, l, t, lo);
    n := Shl(q, l - t);
    ShrOfShl(n, t);
    ShlNext(n, t);
  }

  lemma {:induction false} RangeIsRead(
      r: (nat, nat) -> Hash, get: Lookup, d: seq<Bytes>, lo: nat, hi: nat, q: nat, l: nat)
    requires TreeLike(r, d) && Supplies(get, d) && lo < hi <= |d|
    requires lo == Shl(q, l) && hi - lo <= Pow2(l)
    ensures ReadRange(get, lo, hi) == Some(r(lo, hi))
    decreases hi - lo
  {
    var t := TopLevel(hi - lo);
    var mid := lo + Pow2(t);
    var n := FirstOfRange(lo, hi, q, l, t);
    FirstIsRead(r, get, d, t, n, lo, mid);
    if mid < hi {
      RangeIsRead(r, get, d, mid, hi, n + 1, t);
      JoinsRange(r, d, lo, mid, hi, t);
    }
    ReadRangeParts(get, lo, mid, hi, t);
  }

  lemma ReadRangeParts(get: Lookup, lo: nat, mid: nat, hi: nat, t: nat)
    requires lo < hi && t == TopLevel(hi - lo) && mid == lo + Pow2(t) <= hi
    ensures ReadRange(get, lo, hi) == if mid == hi then get(t, Shr(lo, t))
                                      else JoinRead(get(t, Shr(lo, t)), ReadRange(get, mid, hi))
  {
  }

  lemma FirstIsRead(r: (nat, nat) -> Hash, get: Lookup, d: seq<Bytes>, l: nat, n: nat, lo: nat, mid: nat)
    requires TreeLike(r, d) && Supplies(get, d) && Complete(|d|, l, n) && lo == Shl(n, l) && mid == Shl(n + 1, l)
    ensures get(l, n) == Some(r(lo, mid))
  {
    SubtreeIsRange(r, d, l, n, lo, mid);
  }

  /** Where the two parts of a range lie. */
  lemma PartsOfRange(lo: nat, mid: nat, hi: nat, q: nat, l: nat, k: nat) returns (n: nat)
    requires lo + 2 <= hi && lo == Shl(q, l) && hi - lo <= Pow2(l)
    requires k == SplitLevel(hi - lo) && mid == lo + Pow2(k)
    ensures lo == Shl(n, k) && mid == Shl(n + 1, k) && mid < hi && hi - mid <= Pow2(k)
  {
    Pow2Doubles(l, k);
    Pow2Doubles(k, l);
    Lower(q, l, k, lo);
    n := Shl(q, l - k);
    ShlNext(n, k);
  }

  /** A range's two parts can be read, and make up its hash. */
  ghost predicate Halved(r: (nat, nat) -> Hash, get: Lookup, lo: nat, mid: nat, hi: nat) {
    && r(lo, hi) == Node(r(lo, mid), r(mid, hi))
    && lo < mid < hi && ReadRange(get, lo, mid) == Some(r(lo, mid)) && ReadRange(get, mid, hi) == Some(r(mid, hi))
  }

  lemma Halves(
      r: (nat, nat) -> Hash, get: Lookup, d: seq<Bytes>, lo: nat, mid: nat, hi: nat, q: nat, l: nat)
      returns (n: nat, k: nat)
    requires TreeLike(r, d) && Supplies(get, d) && lo + 2 <= hi <= |d|
    requires lo == Shl(q, l) && hi - lo <= Pow2(l) && mid == lo + Split(hi - lo)
    ensures lo == Shl(n, k) && mid == Shl(n + 1, k) && mid - lo <= Pow2(k) && hi - mid <= Pow2(k)
    ensures Halved(r, get, lo, mid, hi)
  {
    k := SplitLevel(hi - lo);
    SplitIsPower(hi - lo);
    n := PartsOfRange(lo, mid, hi, q, l, k);
    JoinsRange(r, d, lo, mid, hi, k);
    RangeIsRead(r, get, d, lo, mid, n, k);
    RangeIsRead(r, get, d, mid, hi, n + 1, k);
  }

  // ------------------------------------------------------------ record proofs

  ghost predicate ProvesRecord(r: (nat, nat) -> Hash, d: seq<Bytes>, p: Option<seq<Hash>>, lo: nat, hi: nat, i: nat)
    requires lo <= i < hi <= |d|
  {
    p.Some? && RunRecordProof(p.value, hi - lo, i - lo, Leaf(d[i])) == Some(r(lo, hi))
  }

  /** One more hash at the end of a record proof. */
  lemma RunRecordMore(p: seq<Hash>, h: Hash, t: nat, k: nat, i: nat, leaf: Hash)
    requires i < t && 2 <= t && k == Split(t)
    ensures i < k ==>
              RunRecordProof(p + [h], t, i, leaf) == match RunRecordProof(p, k, i, leaf)
                                                     case None => None
                                                     case Some(th) => Some(Node(th, h))
    ensures i >= k ==>
              RunRecordProof(p + [h], t, i, leaf) == match RunRecordProof(p, t - k, i - k, leaf)
                                                     case None => None
                                                     case Some(th) => Some(Node(h, th))
  {
    var q := p + [h];
    assert q[..|q| - 1] == p;
  }

  lemma ProvesLeft(
      r: (nat, nat) -> Hash, d: seq<Bytes>, p: Option<seq<Hash>>, h: Option<Hash>, lo: nat, mid: nat, hi: nat, i: nat)
    requires lo <= i < mid < hi <= |d| && mid - lo == Split(hi - lo) && r(lo, hi) == Node(r(lo, mid), r(mid, hi))
    requires ProvesRecord(r, d, p, lo, mid, i) && h == Some(r(mid, hi))
    ensures ProvesRecord(r, d, Append(p, h), lo, hi, i)
  {
    RunRecordMore(p.value, h.value, hi - lo, mid - lo, i - lo, Leaf(d[i]));
  }

  lemma ProvesRight(
      r: (nat, nat) -> Hash, d: seq<Bytes>, p: Option<seq<Hash>>, h: Option<Hash>, lo: nat, mid: nat, hi: nat, i: nat)
    requires lo < mid <= i < hi <= |d| && mid - lo == Split(hi - lo) && r(lo, hi) == Node(r(lo, mid), r(mid, hi))
    requires ProvesRecord(r, d, p, mid, hi, i) && h == Some(r(lo, mid))
    ensures ProvesRecord(r, d, Append(p, h), lo, hi, i)
  {
    RunRecordMore(p.value, h.value, hi - lo, mid - lo, i - lo, Leaf(d[i]));
    assert (hi - lo) - (mid - lo) == hi - mid && (i - lo) - (mid - lo) == i - mid;
  }

  lemma RecordProofParts(get: Lookup, lo: nat, mid: nat, hi: nat, i: nat)
    requires lo <= i < hi && lo + 2 <= hi && mid == lo + Split(hi - lo)
    ensures i < mid ==>
              ReadRecordProof(get, lo, hi, i) == Append(ReadRecordProof(get, lo, mid, i), ReadRange(get, mid, hi))
    ensures i >= mid ==>
              ReadRecordProof(get, lo, hi, i) == Append(ReadRecordProof(get, mid, hi, i), ReadRange(get, lo, mid))
  {
  }

  lemma OneRecordProved(r: (nat, nat) -> Hash, get: Lookup, d: seq<Bytes>, lo: nat, hi: nat, i: nat)
    requires TreeLike(r, d) && lo == i < hi == lo + 1 <= |d|
    ensures ProvesRecord(r, d, ReadRecordProof(get, lo, hi, i), lo, hi, i)
  {
  }

  lemma {:induction false} RecordIsProved(
      r: (nat, nat) -> Hash, get: Lookup, d: seq<Bytes>, lo: nat, hi: nat, i: nat, q: nat, l: nat)
    requires TreeLike(r, d) && Supplies(get, d) && lo <= i < hi <= |d|
    requires lo == Shl(q, l) && hi - lo <= Pow2(l)
    ensures ProvesRecord(r, d, ReadRecordProof(get, lo, hi, i), lo, hi, i)
    decreases hi - lo, 2
  {
    if hi - lo == 1 {
      OneRecordProved(r, get, d, lo, hi, i);
    } else {
      RecordInPart(r, get, d, lo, lo + Split(hi - lo), hi, i, q, l);
    }
  }

  lemma {:induction false} RecordInPart(
      r: (nat, nat) -> Hash, get: Lookup, d: seq<Bytes>, lo: nat, mid: nat, hi: nat, i: nat, q: nat, l: nat)
    requires TreeLike(r, d) && Supplies(get, d) && lo <= i < hi <= |d| && lo + 2 <= hi
    requires lo == Shl(q, l) && hi - lo <= Pow2(l) && mid == lo + Split(hi - lo)
    ensures ProvesRecord(r, d, ReadRecordProof(get, lo, hi, i), lo, hi, i)
    decreases hi - lo, 1
  {
    var n, k := Halves(r, get, d, lo, mid, hi, q, l);
    if i < mid {
      RecordInLeft(r, get, d, lo, mid, hi, i, n, k);
    } else {
      RecordInRight(r, get, d, lo, mid, hi, i, n + 1, k);
    }
  }

  lemma {:induction false} RecordInLeft(
      r: (nat, nat) -> Hash, get: Lookup, d: seq<Bytes>, lo: nat, mid: nat, hi: nat, i: nat, q: nat, l: nat)
    requires TreeLike(r, d) && Supplies(get, d) && lo <= i < mid < hi <= |d|
    requires mid - lo == Split(hi - lo) && Halved(r, get, lo, mid, hi) && lo == Shl(q, l) && mid - lo <= Pow2(l)
    ensures ProvesRecord(r, d, ReadRecordProof(get, lo, hi, i), lo, hi, i)
    decreases hi - lo, 0
  {
    RecordIsProved(r, get, d, lo, mid, i, q, l);
    RecordProofParts(get, lo, mid, hi, i);
    ProvesLeft(r, d, ReadRecordProof(get, lo, mid, i), ReadRange(get, mid, hi), lo, mid, hi, i);
  }

  lemma {:induction false} RecordInRight(
      r: (nat, nat) -> Hash, get: Lookup, d: seq<Bytes>, lo: nat, mid: nat, hi: nat, i: nat, q: nat, l: nat)
    requires TreeLike(r, d) && Supplies(get, d) && lo < mid <= i < hi <= |d|
    requires mid - lo == Split(hi - lo) && Halved(r, get, lo, mid, hi) && mid == Shl(q, l) && hi - mid <= Pow2(l)
    ensures ProvesRecord(r, d, ReadRecordProof(get, lo, hi, i), lo, hi, i)
    decreases hi - lo, 0
  {
    RecordIsProved(r, get, d, mid, hi, i, q, l);
    RecordProofParts(get, lo, mid, hi, i);
    ProvesRight(r, d, ReadRecordProof(get, mid, hi, i), ReadRange(get, lo, mid), lo, mid, hi, i);
  }

  // -------------------------------------------------------------- tree proofs

  ghost predicate ProvesTree(
      r: (nat, nat) -> Hash, prior: Hash, p: Option<seq<Hash>>, lo: nat, hi: nat, e: nat)
    requires lo < e <= hi
  {
    p.Some? && RunTreeProof(p.value, hi - lo, e - lo, prior, lo == 0) == Some((r(lo, e), r(lo, hi)))
  }

  /** One more hash at the end of a tree proof. */
  lemma RunTreeMore(p: seq<Hash>, h: Hash, t: nat, k: nat, n: nat, prior: Hash, atRoot: bool)
    requires 0 < n < t && k == Split(t)
    ensures n <= k ==>
              RunTreeProof(p + [h], t, n, prior, atRoot) == match RunTreeProof(p, k, n, prior, atRoot)
                                                            case None => None
                                                            case Some((oh, th)) => Some((oh, Node(th, h)))
    ensures n > k ==>
              RunTreeProof(p + [h], t, n, prior, atRoot) == match RunTreeProof(p, t - k, n - k, prior, false)
                                                            case None => None
                                                            case Some((oh, th)) => Some((Node(h, oh), Node(h, th)))
  {
    var q := p + [h];
    assert q[..|q| - 1] == p;
  }

  lemma ProvesTreeLeft(
      r: (nat, nat) -> Hash, prior: Hash, p: Option<seq<Hash>>, h: Option<Hash>, lo: nat, mid: nat, hi: nat, e: nat)
    requires lo < e <= mid < hi && mid - lo == Split(hi - lo) && r(lo, hi) == Node(r(lo, mid), r(mid, hi))
    requires ProvesTree(r, prior, p, lo, mid, e) && h == Some(r(mid, hi))
    ensures ProvesTree(r, prior, Append(p, h), lo, hi, e)
  {
    RunTreeMore(p.value, h.value, hi - lo, mid - lo, e - lo, prior, lo == 0);
  }

  lemma ProvesTreeRight(
      r: (nat, nat) -> Hash, prior: Hash, p: Option<seq<Hash>>, h: Option<Hash>, lo: nat, mid: nat, hi: nat, e: nat)
    requires lo < mid < e < hi && mid - lo == Split(hi - lo) && r(lo, hi) == Node(r(lo, mid), r(mid, hi))
    requires r(lo, e) == Node(r(lo, mid), r(mid, e))
    requires ProvesTree(r, prior, p, mid, hi, e) && h == Some(r(lo, mid))
    ensures ProvesTree(r, prior, Append(p, h), lo, hi, e)
  {
    RunTreeMore(p.value, h.value, hi - lo, mid - lo, e - lo, prior, lo == 0);
    assert (hi - lo) - (mid - lo) == hi - mid && (e - lo) - (mid - lo) == e - mid;
  }

  lemma TreeProofParts(get: Lookup, lo: nat, mid: nat, hi: nat, e: nat)
    requires lo < e < hi && mid == lo + Split(hi - lo)
    ensures e <= mid ==>
              ReadTreeProof(get, lo, hi, e) == Append(ReadTreeProof(get, lo, mid, e), ReadRange(get, mid, hi))
    ensures e > mid ==>
              ReadTreeProof(get, lo, hi, e) == Append(ReadTreeProof(get, mid, hi, e), ReadRange(get, lo, mid))
  {
  }

  lemma SplitsLower(r: (nat, nat) -> Hash, d: seq<Bytes>, lo: nat, mid: nat, hi: nat, e: nat)
    requires TreeLike(r, d) && lo + 2 <= hi <= |d| && mid == lo + Split(hi - lo) && mid < e <= hi
    ensures r(lo, e) == Node(r(lo, mid), r(mid, e))
  {
    SplitIsPower(hi - lo);
    JoinsRange(r, d, lo, mid, e, SplitLevel(hi - lo));
  }

  lemma TreeProofEnd(r: (nat, nat) -> Hash, get: Lookup, prior: Hash, lo: nat, hi: nat)
    requires lo < hi && (lo == 0 ==> prior == r(0, hi)) && ReadRange(get, lo, hi) == Some(r(lo, hi))
    ensures ProvesTree(r, prior, ReadTreeProof(get, lo, hi, hi), lo, hi, hi)
  {
  }

  lemma {:induction false} TreeIsProved(
      r: (nat, nat) -> Hash, get: Lookup, d: seq<Bytes>, prior: Hash, lo: nat, hi: nat, e: nat, q: nat, l: nat)
    requires TreeLike(r, d) && Supplies(get, d) && lo < e <= hi <= |d|
    requires lo == Shl(q, l) && hi - lo <= Pow2(l) && (lo == 0 ==> prior == r(0, e))
    ensures ProvesTree(r, prior, ReadTreeProof(get, lo, hi, e), lo, hi, e)
    decreases hi - lo, 2
  {
    if e == hi {
      RangeIsRead(r, get, d, lo, hi, q, l);
      TreeProofEnd(r, get, prior, lo, hi);
    } else {
      TreeInPart(r, get, d, prior, lo, lo + Split(hi - lo), hi, e, q, l);
    }
  }

  lemma {:induction false} TreeInPart(
      r: (nat, nat) -> Hash, get: Lookup, d: seq<Bytes>, prior: Hash,
      lo: nat, mid: nat, hi: nat, e: nat, q: nat, l: nat)
    requires TreeLike(r, d) && Supplies(get, d) && lo < e < hi <= |d| && mid == lo + Split(hi - lo)
    requires lo == Shl(q, l) && hi - lo <= Pow2(l) && (lo == 0 ==> prior == r(0, e))
    ensures ProvesTree(r, prior, ReadTreeProof(get, lo, hi, e), lo, hi, e)
    decreases hi - lo, 1
  {
    var n, k := Halves(r, get, d, lo, mid, hi, q, l);
    if e <= mid {
      TreeInLeft(r, get, d, prior, lo, mid, hi, e, n, k);
    } else {
      SplitsLower(r, d, lo, mid, hi, e);
      TreeInRight(r, get, d, prior, lo, mid, hi, e, n + 1, k);
    }
  }

  lemma {:induction false} TreeInLeft(
      r: (nat, nat) -> Hash, get: Lookup, d: seq<Bytes>, prior: Hash,
      lo: nat, mid: nat, hi: nat, e: nat, q: nat, l: nat)
    requires TreeLike(r, d) && Supplies(get, d) && lo < e <= mid < hi <= |d|
    requires mid - lo == Split(hi - lo) && Halved(r, get, lo, mid, hi) && lo == Shl(q, l) && mid - lo <= Pow2(l)
    requires lo == 0 ==> prior == r(0, e)
    ensures ProvesTree(r, prior, ReadTreeProof(get, lo, hi, e), lo, hi, e)
    decreases hi - lo, 0
  {
    TreeIsProved(r, get, d, prior, lo, mid, e, q, l);
    TreeProofParts(get, lo, mid, hi, e);
    ProvesTreeLeft(r, prior, ReadTreeProof(get, lo, mid, e), ReadRange(get, mid, hi), lo, mid, hi, e);
  }

  lemma {:induction false} TreeInRight(
      r: (nat, nat) -> Hash, get: Lookup, d: seq<Bytes>, prior: Hash,
      lo: nat, mid: nat, hi: nat, e: nat, q: nat, l: nat)
    requires TreeLike(r, d) && Supplies(get, d) && lo < mid < e < hi <= |d|
    requires mid - lo == Split(hi - lo) && Halved(r, get, lo, mid, hi) && mid == Shl(q, l) && hi - mid <= Pow2(l)
    requires r(lo, e) == Node(r(lo, mid), r(mid, e))
    ensures ProvesTree(r, prior, ReadTreeProof(get, lo, hi, e), lo, hi, e)
    decreases hi - lo, 0
  {
    TreeIsProved(r, get, d, prior, mid, hi, e, q, l);
    TreeProofParts(get, lo, mid, hi, e);
    ProvesTreeRight(r, prior, ReadTreeProof(get, mid, hi, e), ReadRange(get, lo, mid), lo, mid, hi, e);
  }

  lemma WholeRange(size: nat) returns (l: nat)
    requires size > 0
    ensures size <= Pow2(l) && Shl(0, l) == 0
  {
    l := TopLevel(size) + 1;
    ShlZero(l);
  }

  /** tlog.ProveRecord on the log's own hashes gives a proof that is accepted. */
  lemma ProveRecord(get: Lookup, d: seq<Bytes>, i: nat)
    requires Supplies(get, d) && i < |d|
    ensures var p := ReadRecordProof(get, 0, |d|, i);
            p.Some? && CheckRecord(p.value, |d|, TreeHash(d), i, Leaf(d[i]))
  {
    RangesTreeLike(d);
    var l := WholeRange(|d|);
    RecordIsProved(Ranges(d), get, d, 0, |d|, i, 0, l);
    assert d[0..|d|] == d;
  }

  /** tlog.ProveTree on the log's own hashes gives a proof that is accepted. */
  lemma ProveTree(get: Lookup, d: seq<Bytes>, n: nat)
    requires Supplies(get, d) && 0 < n <= |d|
    ensures var p := ReadTreeProof(get, 0, |d|, n);
            p.Some? && CheckTree(p.value, |d|, TreeHash(d), n, TreeHash(d[..n]))
  {
    RangesTreeLike(d);
    var l := WholeRange(|d|);
    assert d[0..|d|] == d && d[0..n] == d[..n];
    TreeIsProved(Ranges(d), get, d, TreeHash(d[..n]), 0, |d|, n, 0, l);
  }
}
