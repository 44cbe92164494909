/** Vectors of exact numbers, reduced. */
module Vectors {
  import opened Wrappers
  import opened Sets

  type Vector = seq<real>

  datatype Op = Sum | Mean | Max

  /** One element of reduceInto. */
  function Combine(op: Op, a: real, b: real): real {
    match op
    case Max => if b > a then b else a
    case _ => a + b
  }

  /** reduceInto on the elements of two vectors of one length. */
  function Reduce(op: Op, a: Vector, b: Vector): (r: Vector)
    requires |a| == |b|
    ensures |r| == |a|
  {
    seq(|a|, i requires 0 <= i < |a| => Combine(op, a[i], b[i]))
  }

  /** reduceInto, in place. */
  method ReduceInto(dst: array<real>, src: Vector, op: Op)
    requires |src| == dst.Length
    modifies dst
    ensures dst[..] == Reduce(op, old(dst[..]), src)
  {
    for i := 0 to |src|
      invariant forall j :: 0 <= j < i ==> dst[j] == Combine(op, old(dst[j]), src[j])
      invariant forall j :: i <= j < dst.Length ==> dst[j] == old(dst[j])
    {
      if op == Max {
        if src[i] > dst[i] {
          dst[i] := src[i];
        }
      } else {
        dst[i] := dst[i] + src[i];
      }
    }
  }

  /** The division of a mean by the number of members. */
  function Scale(op: Op, n: nat, v: Vector): (r: Vector)
    requires n > 0
    ensures |r| == |v|
  {
    if op == Mean then seq(|v|, i requires 0 <= i < |v| => v[i] / (n as real)) else v
  }

  lemma ReduceCommutes(op: Op, a: Vector, b: Vector)
    requires |a| == |b|
    ensures Reduce(op, a, b) == Reduce(op, b, a)
  {
  }

  lemma ReduceSwaps(op: Op, x: Vector, a: Vector, b: Vector)
    requires |x| == |a| == |b|
    ensures Reduce(op, Reduce(op, x, a), b) == Reduce(op, Reduce(op, x, b), a)
  {
  }

  // ------------------------------------------------------------ orders of ranks

  /** The vectors, all of them there. */
  function Filled(parts: seq<Option<Vector>>): (r: seq<Vector>)
    requires forall i :: 0 <= i < |parts| ==> parts[i].Some?
    ensures |r| == |parts| && forall i :: 0 <= i < |r| ==> r[i] == parts[i].value
  {
    seq(|parts|, i requires 0 <= i < |parts| => parts[i].value)
  }

  /** Every rank's vector, all of one length. */
  ghost predicate Even(vs: seq<Vector>, size: nat) {
    forall i :: 0 <= i < |vs| ==> |vs[i]| == size
  }

  ghost predicate Below(order: seq<nat>, n: nat) {
    forall i :: 0 <= i < |order| ==> order[i] < n
  }

  /** The vectors of these ranks reduced in this order. */
  function Folded(op: Op, vs: seq<Vector>, order: seq<nat>, size: nat): (r: Vector)
    requires order != [] && Even(vs, size) && Below(order, |vs|)
    ensures |r| == size
  {
    var last := order[|order| - 1];
    if |order| == 1 then vs[last] else Reduce(op, Folded(op, vs, order[..|order| - 1], size), vs[last])
  }

  function Without<T>(s: seq<T>, i: nat): (r: seq<T>)
    requires i < |s|
    ensures |r| == |s| - 1
  {
    s[..i] + s[i + 1..]
  }

  /** Any one rank may be moved to the end. */
  lemma {:induction false} FoldedLast(op: Op, vs: seq<Vector>, order: seq<nat>, size: nat, i: nat)
    requires |order| >= 2 && i < |order| && Even(vs, size) && Below(order, |vs|)
    ensures Below(Without(order, i), |vs|)
    ensures Folded(op, vs, order, size) == Reduce(op, Folded(op, vs, Without(order, i), size), vs[order[i]])
    decreases |order|
  {
    var n := |order| - 1;
    var front, rest := order[..n], Without(order, i);
    if i == n {
      assert rest == front;
    } else if n == 1 {
      assert rest == [order[1]] && front == [order[0]];
      ReduceCommutes(op, vs[order[0]], vs[order[1]]);
    } else {
      FoldedLast(op, vs, front, size, i);
      assert rest[..|rest| - 1] == Without(front, i) && rest[|rest| - 1] == order[n];
      ReduceSwaps(op, Folded(op, vs, Without(front, i), size), vs[order[i]], vs[order[n]]);
    }
  }

  ghost predicate Distinct(order: seq<nat>) {
    forall i, j :: 0 <= i < j < |order| ==> order[i] != order[j]
  }

  /** Each of the ranks below n once. */
  ghost predicate EachOnce(order: seq<nat>, n: nat) {
    |order| == n && Distinct(order) && Below(order, n)
  }

  function UpTo(n: nat): (r: seq<nat>)
    ensures |r| == n && forall i :: 0 <= i < n ==> r[i] == i
  {
    seq<nat>(n, i => i)
  }

  function AsSet(order: seq<nat>): set<nat> { set r | r in order }

  lemma {:induction false} DistinctCount(order: seq<nat>)
    requires Distinct(order)
    ensures |AsSet(order)| == |order|
  {
    if order != [] {
      DistinctCount(order[1..]);
      assert AsSet(order) == AsSet(order[1..]) + {order[0]};
    }
  }

  /** n different ranks below n are all of them. */
  lemma Pigeonhole(order: seq<nat>, n: nat)
    requires EachOnce(order, n)
    ensures forall r: nat :: r < n ==> r in order
  {
    DistinctCount(order);
    DistinctCount(UpTo(n));
    BelowIsSubset(order, n);
    SubsetSize(AsSet(order), AsSet(UpTo(n)));
    forall r: nat | r < n ensures r in order {
      assert UpTo(n)[r] in AsSet(UpTo(n));
    }
  }

  lemma BelowIsSubset(order: seq<nat>, n: nat)
    requires Below(order, n)
    ensures AsSet(order) <= AsSet(UpTo(n))
  {
    forall r | r in AsSet(order) ensures r in AsSet(UpTo(n)) {
      var i :| 0 <= i < |order| && order[i] == r;
      assert UpTo(n)[r] == r;
    }
  }

  /** Different ranks below n are at most n. */
  lemma AtMost(order: seq<nat>, n: nat)
    requires Distinct(order) && Below(order, n)
    ensures |order| <= n
  {
    DistinctCount(order);
    DistinctCount(UpTo(n));
    BelowIsSubset(order, n);
    SubsetSize(AsSet(order), AsSet(UpTo(n)));
  }

  lemma WithoutKeepsOnce(order: seq<nat>, n: nat, i: nat)
    requires EachOnce(order, n + 1) && i < |order| && order[i] == n
    ensures EachOnce(Without(order, i), n)
  {
    var rest := Without(order, i);
    forall j | 0 <= j < |rest| ensures rest[j] < n {
      var k := if j < i then j else j + 1;
      assert rest[j] == order[k] && order[k] != order[i];
    }
  }

  /** The order does not matter: folding each rank once gives the fold in rank order. */
  lemma {:induction false} AnyOrder(op: Op, vs: seq<Vector>, order: seq<nat>, n: nat, size: nat)
    requires Even(vs, size) && 0 < n <= |vs| && EachOnce(order, n)
    ensures Folded(op, vs, order, size) == Folded(op, vs, UpTo(n), size)
    decreases n
  {
    if n == 1 {
      assert order == UpTo(1);
    } else {
      Pigeonhole(order, n);
      assert n - 1 in order;
      var i :| 0 <= i < n && order[i] == n - 1;
      FoldedLast(op, vs, order, size, i);
      WithoutKeepsOnce(order, n - 1, i);
      AnyOrder(op, vs, Without(order, i), n - 1, size);
      assert UpTo(n)[..n - 1] == UpTo(n - 1);
    }
  }

  // ------------------------------------------------------- what is computed

  /** The i-th elements, added up rank after rank. */
  function Total(vs: seq<Vector>, i: nat): real
    requires forall r :: 0 <= r < |vs| ==> i < |vs[r]|
  {
    if vs == [] then 0.0 else Total(vs[..|vs| - 1], i) + vs[|vs| - 1][i]
  }

  /** Element i of the result, for each operation in its own terms. */
  ghost predicate ReducesAt(op: Op, vs: seq<Vector>, x: real, i: nat)
    requires forall r :: 0 <= r < |vs| ==> i < |vs[r]|
  {
    match op
    case Sum => x == Total(vs, i)
    case Mean => (|vs| as real) * x == Total(vs, i)
    case Max => (forall r :: 0 <= r < |vs| ==> vs[r][i] <= x) && exists r :: 0 <= r < |vs| && x == vs[r][i]
  }

  /** The vectors reduced element by element. */
  ghost predicate Reduces(op: Op, vs: seq<Vector>, out: Vector) {
    vs != [] && Even(vs, |out|) && forall i: nat :: i < |out| ==> ReducesAt(op, vs, out[i], i)
  }

  lemma {:induction false} FoldedElement(op: Op, vs: seq<Vector>, n: nat, size: nat, i: nat)
    requires Even(vs, size) && 0 < n <= |vs| && i < size
    ensures var x := Folded(op, vs, UpTo(n), size)[i];
            if op == Max then (forall r :: 0 <= r < n ==> vs[r][i] <= x) && exists r :: 0 <= r < n && x == vs[r][i]
            else x == Total(vs[..n], i)
  {
    var us := vs[..n];
    assert us[..n - 1] == vs[..n - 1] && us[n - 1] == vs[n - 1];
    if n == 1 {
      assert Total(us[..0], i) == 0.0;
      assert Folded(op, vs, UpTo(1), size) == vs[0];
    } else {
      FoldedElement(op, vs, n - 1, size, i);
      assert UpTo(n)[..n - 1] == UpTo(n - 1);
    }
  }

  /** Folding in rank order, and dividing for a mean, reduces the vectors. */
  lemma FoldedReduces(op: Op, vs: seq<Vector>, size: nat)
    requires Even(vs, size) && vs != []
    ensures Reduces(op, vs, Scale(op, |vs|, Folded(op, vs, UpTo(|vs|), size)))
  {
    var out := Scale(op, |vs|, Folded(op, vs, UpTo(|vs|), size));
    forall i: nat | i < size ensures ReducesAt(op, vs, out[i], i) {
      FoldedElement(op, vs, |vs|, size, i);
      assert vs[..|vs|] == vs;
      if op == Mean {
        TimesQuotient(Total(vs, i), |vs| as real);
      }
    }
  }

  lemma TimesQuotient(x: real, n: real)
    requires n != 0.0
    ensures n * (x / n) == x
  {
  }

  /** There is only one vector that these reduce to. */
  lemma ReducedOnce(op: Op, vs: seq<Vector>, a: Vector, b: Vector)
    requires Reduces(op, vs, a) && Reduces(op, vs, b)
    ensures a == b
  {
    assert |a| == |vs[0]| && |b| == |vs[0]|;
    forall i: nat | i < |a| ensures a[i] == b[i] {
      assert ReducesAt(op, vs, a[i], i) && ReducesAt(op, vs, b[i], i);
      if op == Mean {
        SameQuotient(|vs| as real, a[i], b[i], Total(vs, i));
      }
    }
  }

  lemma SameQuotient(n: real, x: real, y: real, t: real)
    requires n > 0.0 && n * x == t && n * y == t
    ensures x == y
  {
    assert n * (x - y) == 0.0;
  }

  // ------------------------------------------------------------- concatenation

  function Concat(parts: seq<Vector>): Vector {
    if parts == [] then [] else Concat(parts[..|parts| - 1]) + parts[|parts| - 1]
  }

  lemma ConcatMore(parts: seq<Vector>, p: Vector)
    ensures Concat(parts + [p]) == Concat(parts) + p
  {
    assert (parts + [p])[..|parts|] == parts;
  }

  /** Of vectors of one length, each is found at its rank's place. */
  lemma {:induction false} ConcatHas(parts: seq<Vector>, size: nat, r: nat)
    requires Even(parts, size) && r < |parts|
    ensures r * size + size <= |Concat(parts)| == |parts| * size && 0 <= r * size
    ensures Concat(parts)[r * size..r * size + size] == parts[r]
    decreases |parts|
  {
    var n := |parts| - 1;
    var front := parts[..n];
    ConcatLength(parts, size);
    ConcatLength(front, size);
    if r < n {
      ConcatHas(front, size, r);
      assert Concat(parts)[r * size..r * size + size] == Concat(front)[r * size..r * size + size];
    } else {
      assert Concat(parts)[|Concat(front)|..] == parts[n];
    }
  }

  lemma {:induction false} ConcatLength(parts: seq<Vector>, size: nat)
    requires Even(parts, size)
    ensures |Concat(parts)| == |parts| * size
    decreases |parts|
  {
    if parts != [] {
      ConcatLength(parts[..|parts| - 1], size);
      OneTimeMore(|parts| - 1, size);
    }
  }

  lemma OneTimeMore(a: nat, c: nat)
    ensures a * c + c == (a + 1) * c
  {
  }
}
