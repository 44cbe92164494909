/** Length-prefixed encodings: binary.AppendUvarint, binary.Uvarint and fields. */
module Wire {
  import opened Wrappers
  import Seqs
  import opened Symbols
  import opened Decimal

  /** binary.AppendUvarint: seven bits a byte, low bits first, high bit on all but the last. */
  function Uvarint(n: nat): (r: Bytes)
    ensures r != []
  {
    if n < 128 then [Byte(n)] else [Byte(128 + n % 128)] + Uvarint(n / 128)
  }

  /**
    binary.Uvarint: the number and how many bytes it took.  None when the buffer
    ends too early or the number does not fit in 64 bits.
  */
  function ReadUvarint(b: Bytes): Option<(nat, nat)> {
    ReadUvarintAt(b, 0)
  }

  function ReadUvarintAt(b: Bytes, i: nat): (r: Option<(nat, nat)>)
    ensures r.Some? ==> 1 <= r.value.1 <= |b|
    decreases |b|
  {
    if b == [] || i == 10 || !b[0].Byte? then None
    else if b[0].b < 128 then
      if i == 9 && b[0].b > 1 then None else Some((b[0].b, 1))
    else
      match ReadUvarintAt(b[1..], i + 1)
      case None => None
      case Some((n, used)) => Some((b[0].b - 128 + 128 * n, used + 1))
  }

  /** What is left of 64 bits after i groups of seven. */
  function Room(i: nat): (r: nat)
    requires i <= 9
    ensures r >= 2
    decreases 9 - i
  {
    if i == 9 then 2 else 128 * Room(i + 1)
  }

  lemma {:induction false} ReadWritten(n: nat, rest: Bytes, i: nat)
    requires i <= 9 && n < Room(i)
    ensures ReadUvarintAt(Uvarint(n) + rest, i) == Some((n, |Uvarint(n)|))
    decreases 9 - i
  {
    var b := Uvarint(n) + rest;
    if n >= 128 {
      assert i < 9;
      ReadWritten(n / 128, rest, i + 1);
      assert b[1..] == Uvarint(n / 128) + rest;
    }
  }

  lemma ReadUvarintWritten(n: nat, rest: Bytes)
    requires n <= UINT64_MAX
    ensures ReadUvarint(Uvarint(n) + rest) == Some((n, |Uvarint(n)|))
  {
    RoomIs64Bits();
    ReadWritten(n, rest, 0);
  }

  lemma RoomIs64Bits()
    ensures Room(0) == UINT64_MAX + 1
  {
    assert Room(9) == 2 && Room(8) == 0x100 && Room(7) == 0x8000 && Room(6) == 0x40_0000;
    assert Room(5) == 0x2000_0000 && Room(4) == 0x10_0000_0000 && Room(3) == 0x800_0000_0000;
    assert Room(2) == 0x4_0000_0000_0000 && Room(1) == 0x200_0000_0000_0000;
    assert Room(0) == 0x1_0000_0000_0000_0000;
  }

  /** A number that does not fit in what is left of 64 bits is not read back. */
  lemma {:induction false} ReadTooBig(n: nat, rest: Bytes, i: nat)
    requires i <= 9 && n >= Room(i)
    ensures ReadUvarintAt(Uvarint(n) + rest, i).None?
    decreases 9 - i
  {
    var b := Uvarint(n) + rest;
    if n >= 128 {
      assert b[1..] == Uvarint(n / 128) + rest;
      if i < 9 {
        ReadTooBig(n / 128, rest, i + 1);
      } else {
        assert ReadUvarintAt(b[1..], i + 1).None?;
      }
    }
  }

  /** The same number with one byte more: the reader accepts leading zero groups. */
  function PaddedUvarint(n: nat): (r: Bytes)
    ensures |r| == |Uvarint(n)| + 1
  {
    if n < 128 then [Byte(128 + n), Byte(0)] else [Byte(128 + n % 128)] + PaddedUvarint(n / 128)
  }

  /** What is left of 63 bits after i groups of seven. */
  function HalfRoom(i: nat): nat
    requires i <= 9
    decreases 9 - i
  {
    if i == 9 then 1 else 128 * HalfRoom(i + 1)
  }

  lemma {:induction false} ReadPaddedAt(n: nat, rest: Bytes, i: nat)
    requires i <= 8 && n < HalfRoom(i)
    ensures ReadUvarintAt(PaddedUvarint(n) + rest, i) == Some((n, |PaddedUvarint(n)|))
    decreases 9 - i
  {
    var b := PaddedUvarint(n) + rest;
    if n < 128 {
      assert b[1..][0] == Byte(0);
    } else {
      assert i < 8;
      ReadPaddedAt(n / 128, rest, i + 1);
      assert b[1..] == PaddedUvarint(n / 128) + rest;
    }
  }

  /** Every length can also be written with a byte too many. */
  lemma ReadPadded(n: nat, rest: Bytes)
    requires n <= INT64_MAX
    ensures ReadUvarint(PaddedUvarint(n) + rest) == Some((n, |PaddedUvarint(n)|))
    ensures PaddedUvarint(n) != Uvarint(n)
  {
    assert HalfRoom(9) == 1 && HalfRoom(8) == 0x80 && HalfRoom(7) == 0x4000 && HalfRoom(6) == 0x20_0000;
    assert HalfRoom(5) == 0x1000_0000 && HalfRoom(4) == 0x8_0000_0000 && HalfRoom(3) == 0x400_0000_0000;
    assert HalfRoom(2) == 0x2_0000_0000_0000 && HalfRoom(1) == 0x100_0000_0000_0000;
    assert HalfRoom(0) == 0x8000_0000_0000_0000;
    ReadPaddedAt(n, rest, 0);
    assert |PaddedUvarint(n)| != |Uvarint(n)|;
  }

  /** A length-prefixed field. */
  function Field(f: Bytes): Bytes {
    Uvarint(|f|) + f
  }

  /** readUvarintBytes: the field and what follows it. */
  function ReadField(data: Bytes): (r: Option<(Bytes, Bytes)>)
    ensures r.Some? ==> |r.value.0| + |r.value.1| < |data|
  {
    match ReadUvarint(data)
    case None => None
    case Some((n, size)) =>
      if n > |data| - size then None
      else Some((data[size..size + n], data[size + n..]))
  }

  /** A slice length is an int, so it is below 2^63. */
  predicate Sized(f: Bytes) { |f| <= INT64_MAX }

  lemma ReadFieldWritten(f: Bytes, rest: Bytes)
    requires Sized(f)
    ensures ReadField(Field(f) + rest) == Some((f, rest))
  {
    var data := Field(f) + rest;
    var size := |Uvarint(|f|)|;
    assert data == Uvarint(|f|) + (f + rest);
    ReadUvarintWritten(|f|, f + rest);
    assert data[size..size + |f|] == f && data[size + |f|..] == rest;
  }

  /** No content of a field can shift the boundary to what follows it. */
  lemma FieldInjective(f: Bytes, g: Bytes, r: Bytes, s: Bytes)
    requires Sized(f) && Sized(g) && Field(f) + r == Field(g) + s
    ensures f == g && r == s
  {
    ReadFieldWritten(f, r);
    ReadFieldWritten(g, s);
  }

  /** The fields one after the other. */
  function Fields(fs: seq<Bytes>): Bytes {
    if fs == [] then [] else Field(fs[0]) + Fields(fs[1..])
  }

  predicate AllSized(fs: seq<Bytes>) { forall f :: f in fs ==> Sized(f) }

  /** Equally many fields followed by anything: equal bytes mean equal fields. */
  lemma {:induction false} FieldsInjective(fs: seq<Bytes>, gs: seq<Bytes>, r: Bytes, s: Bytes)
    requires |fs| == |gs| && AllSized(fs) && AllSized(gs)
    requires Fields(fs) + r == Fields(gs) + s
    ensures fs == gs && r == s
  {
    if fs == [] {
      assert Fields(fs) + r == r && Fields(gs) + s == s;
    } else {
      assert fs[0] in fs && gs[0] in gs;
      assert Fields(fs) + r == Field(fs[0]) + (Fields(fs[1..]) + r);
      assert Fields(gs) + s == Field(gs[0]) + (Fields(gs[1..]) + s);
      FieldInjective(fs[0], gs[0], Fields(fs[1..]) + r, Fields(gs[1..]) + s);
      FieldsInjective(fs[1..], gs[1..], r, s);
      assert fs == [fs[0]] + fs[1..] && gs == [gs[0]] + gs[1..];
    }
  }

  lemma FieldsCons(f: Bytes, fs: seq<Bytes>)
    ensures Fields([f] + fs) == Field(f) + Fields(fs)
  {
    assert ([f] + fs)[1..] == fs;
  }

  lemma {:induction false} FieldsConcat(a: seq<Bytes>, b: seq<Bytes>)
    ensures Fields(a + b) == Fields(a) + Fields(b)
    decreases |a|
  {
    if a == [] {
      assert a + b == b;
    } else {
      var f, rest := a[0], a[1..];
      FieldsConcat(rest, b);
      FieldsCons(f, rest + b);
      Seqs.Assoc(Field(f), Fields(rest), Fields(b));
      assert a + b == [f] + (rest + b);
    }
  }

  lemma FieldsOfTwo(a: Bytes, b: Bytes)
    ensures Fields([a, b]) == Field(a) + Field(b)
  {
    FieldsCons(b, []);
    FieldsCons(a, [b]);
    assert [a] + [b] == [a, b] && [b] + [] == [b];
  }

  lemma FieldsOfThree(a: Bytes, b: Bytes, c: Bytes)
    ensures Fields([a, b, c]) == Field(a) + Field(b) + Field(c)
  {
    FieldsOfTwo(b, c);
    FieldsCons(a, [b, c]);
    assert [a] + [b, c] == [a, b, c];
  }
}
