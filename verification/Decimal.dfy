/**
  Decimal numbers as strconv prints and parses them, and numbers of a fixed
  width with leading zeros, whose order as strings is their order as numbers:
  checkpoint keys rely on it.
*/
module Decimal {
  import opened Wrappers
  import opened Symbols

  const INT64_MAX := 0x7fff_ffff_ffff_ffff
  const UINT64_MAX := 0xffff_ffff_ffff_ffff

  function Digit(d: nat): Sym
    requires d < 10
  {
    Byte(48 + d)
  }

  predicate IsDigit(s: Sym) { s.Byte? && 48 <= s.b <= 57 }

  /** %d of a number that is not negative. */
  function Print(n: nat): (r: Bytes)
    ensures r != []
    ensures forall s :: s in r ==> IsDigit(s)
    ensures r[0] == Digit(0) ==> n == 0 && r == [Digit(0)]
  {
    if n < 10 then [Digit(n)] else Print(n / 10) + [Digit(n % 10)]
  }

  predicate AllDigits(s: Bytes) {
    s != [] && forall d :: d in s ==> IsDigit(d)
  }

  function Value(s: Bytes): nat
    requires forall d :: d in s ==> IsDigit(d)
  {
    if s == [] then 0 else
      assert IsDigit(s[|s| - 1]);
      10 * Value(s[..|s| - 1]) + (s[|s| - 1].b - 48)
  }

  lemma {:induction false} ValuePrint(n: nat)
    ensures AllDigits(Print(n)) && Value(Print(n)) == n
  {
    var p := Print(n);
    if n >= 10 {
      ValuePrint(n / 10);
      assert p[..|p| - 1] == Print(n / 10);
    } else {
      assert p[..0] == [];
    }
  }

  /** Printing undoes reading, leading zeros aside. */
  lemma {:induction false} PrintValue(s: Bytes)
    requires AllDigits(s) && (s[0] == Digit(0) ==> |s| == 1)
    ensures Print(Value(s)) == s
    ensures Value(s) == 0 ==> s == [Digit(0)]
  {
    var front, last := s[..|s| - 1], s[|s| - 1];
    assert last in s && s == front + [last];
    if front == [] {
      assert Value(front) == 0;
    } else {
      assert front[0] == s[0] && front[0] != Digit(0);
      PrintValue(front);
      PrintMore(Value(front), last.b - 48);
    }
  }

  lemma PrintMore(n: nat, d: nat)
    requires n > 0 && d < 10
    ensures Print(10 * n + d) == Print(n) + [Digit(d)]
  {
  }

  /** strconv.ParseUint(s, 10, 64) */
  function ParseUint(s: Bytes): Option<nat> {
    if AllDigits(s) && Value(s) <= UINT64_MAX then Some(Value(s)) else None
  }

  const PLUS: Sym := Byte(43)
  const MINUS: Sym := Byte(45)

  /** strconv.ParseInt(s, 10, 64): one optional sign, then digits. */
  function ParseInt(s: Bytes): Option<int> {
    if s == [] then None
    else if s[0] == MINUS then
      if AllDigits(s[1..]) && Value(s[1..]) <= INT64_MAX + 1 then Some(0 - Value(s[1..])) else None
    else
      var body := if s[0] == PLUS then s[1..] else s;
      if AllDigits(body) && Value(body) <= INT64_MAX then Some(Value(body)) else None
  }

  lemma ParseIntPrint(n: nat)
    requires n <= INT64_MAX
    ensures ParseInt(Print(n)) == Some(n)
  {
    ValuePrint(n);
    assert Print(n)[0] in Print(n);
  }

  lemma PrintParsed(s: Bytes)
    requires ParseInt(s).Some? && s != [] && IsDigit(s[0]) && (s[0] == Digit(0) ==> s == [Digit(0)])
    ensures ParseInt(s).value >= 0 && Print(ParseInt(s).value) == s
  {
    PrintValue(s);
  }

  // ------------------------------------------------------------ fixed width

  function Pow10(w: nat): (p: nat)
    ensures p >= 1
  {
    if w == 0 then 1 else 10 * Pow10(w - 1)
  }

  /** %0wd of a number that fits in w digits. */
  function Fixed(n: nat, w: nat): (r: Bytes)
    requires n < Pow10(w)
    ensures |r| == w
    ensures forall s :: s in r ==> IsDigit(s)
  {
    if w == 0 then [] else Fixed(n / 10, w - 1) + [Digit(n % 10)]
  }

  lemma {:induction false} ValueFixed(n: nat, w: nat)
    requires n < Pow10(w)
    ensures Value(Fixed(n, w)) == n
  {
    if w > 0 {
      ValueFixed(n / 10, w - 1);
      assert Fixed(n, w)[..w - 1] == Fixed(n / 10, w - 1);
    }
  }

  /** Byte-wise string order. */
  predicate Less(a: Bytes, b: Bytes) {
    && b != []
    && (a == [] || (a[0].Byte? && b[0].Byte? && a[0].b < b[0].b) || (a[0] == b[0] && Less(a[1..], b[1..])))
  }

  /** Numbers of one width compare as strings the way they compare as numbers. */
  lemma {:induction false} FixedOrder(m: nat, n: nat, w: nat)
    requires m < Pow10(w) && n < Pow10(w)
    ensures Less(Fixed(m, w), Fixed(n, w)) <==> m < n
  {
    if w > 0 {
      var a, b := Fixed(m / 10, w - 1), Fixed(n / 10, w - 1);
      FixedOrder(m / 10, n / 10, w - 1);
      LessAppend(a, b, Digit(m % 10), Digit(n % 10));
      ValueFixed(m / 10, w - 1);
      ValueFixed(n / 10, w - 1);
    }
  }

  lemma {:induction false} LessAppend(a: Bytes, b: Bytes, x: Sym, y: Sym)
    requires |a| == |b| && x.Byte? && y.Byte?
    requires forall s :: s in a + b ==> s.Byte?
    ensures Less(a + [x], b + [y]) <==> Less(a, b) || (a == b && x.b < y.b)
  {
    if a == [] {
      assert a + [x] == [x] && b + [y] == [y];
    } else {
      LessAppend(a[1..], b[1..], x, y);
      assert (a + [x])[1..] == a[1..] + [x] && (b + [y])[1..] == b[1..] + [y];
      assert a == b <==> a[0] == b[0] && a[1..] == b[1..];
    }
  }

  lemma {:induction false} LessPrefix(p: Bytes, a: Bytes, b: Bytes)
    ensures Less(p + a, p + b) <==> Less(a, b)
  {
    if p == [] {
      assert p + a == a && p + b == b;
    } else {
      LessPrefix(p[1..], a, b);
      assert (p + a)[1..] == p[1..] + a && (p + b)[1..] == p[1..] + b;
    }
  }
}
