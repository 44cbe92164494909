/** Checkpoints: their text form and the merging of signed ones. */
module Checkpoints {
  import opened Wrappers
  import opened Symbols
  import opened Lines
  import opened Merkle
  import Decimal

  datatype Checkpoint = Checkpoint(origin: Bytes, tree: Tree)

  predicate ValidOrigin(origin: Bytes) { origin != [] && OneLine(origin) }

  /** tree.N is an int64; negative sizes are not representable here. */
  function MarshalText(c: Checkpoint): Option<Bytes> {
    if !ValidOrigin(c.origin) then None
    else Some(JoinLines([c.origin, Decimal.Print(c.tree.n), [Digest(c.tree.hash)]]))
  }

  /** tlog.ParseHash: the line is one base64 block of a hash. */
  function ParseHash(line: Bytes): Option<Hash> {
    if |line| == 1 && line[0].Digest? then Some(line[0].h) else None
  }

  function ParseCheckpoint(text: Bytes): Option<Checkpoint> {
    if text == [] || text[|text| - 1] != NL then None else
      var lines := SplitLines(text[..|text| - 1]);
      if |lines| != 3 || lines[0] == [] then None else
        var n := Decimal.ParseInt(lines[1]);
        if n.None? || n.value < 0 || (lines[1] != [Decimal.Digit(0)] && lines[1][0] == Decimal.Digit(0)) then None
        else
          match ParseHash(lines[2])
          case None => None
          case Some(h) => Some(Checkpoint(lines[0], Tree(n.value, h)))
  }

  /** Three good lines parse. */
  lemma ParseThree(origin: Bytes, size: Bytes, h: Hash, n: nat)
    requires ValidOrigin(origin) && OneLine(size)
    requires Decimal.ParseInt(size) == Some(n) && (size[0] == Decimal.Digit(0) ==> size == [Decimal.Digit(0)])
    ensures ParseCheckpoint(JoinLines([origin, size, [Digest(h)]])) == Some(Checkpoint(origin, Tree(n, h)))
  {
    var text := JoinLines([origin, size, [Digest(h)]]);
    var body := origin + [NL] + (size + [NL] + [Digest(h)]);
    JoinThree(origin, size, [Digest(h)]);
    SplitThree(origin, size, [Digest(h)]);
    assert text == body + [NL];
    assert text[..|text| - 1] == body;
  }

  lemma SplitThree(a: Bytes, b: Bytes, c: Bytes)
    requires OneLine(a) && OneLine(b) && OneLine(c)
    ensures SplitLines(a + [NL] + (b + [NL] + c)) == [a, b, c]
  {
    SplitFirst(a, b + [NL] + c);
    SplitFirst(b, c);
    assert SplitLines(c) == [c];
  }

  /** Parsing undoes printing, for every checkpoint that can be printed. */
  lemma ParseMarshal(c: Checkpoint)
    requires MarshalText(c).Some? && c.tree.n <= Decimal.INT64_MAX
    ensures ParseCheckpoint(MarshalText(c).value) == Some(c)
  {
    var size := Decimal.Print(c.tree.n);
    Decimal.ParseIntPrint(c.tree.n);
    assert OneLine(size);
    ParseThree(c.origin, size, c.tree.hash, c.tree.n);
  }

  /** The three lines of a text that parses. */
  lemma ParsedLines(text: Bytes)
    requires ParseCheckpoint(text).Some?
    ensures text != [] && text[|text| - 1] == NL
    ensures var ls := SplitLines(text[..|text| - 1]);
            |ls| == 3 && (forall l :: l in ls ==> OneLine(l)) && text == JoinLines(ls)
  {
    var body := text[..|text| - 1];
    var ls := SplitLines(body);
    assert ls == [ls[0], ls[1], ls[2]];
    JoinOfSplit(body);
    JoinThree(ls[0], ls[1], ls[2]);
    assert text == body + [NL];
  }

  lemma ParsedFields(text: Bytes, ls: seq<Bytes>)
    requires ParseCheckpoint(text).Some? && ls == SplitLines(text[..|text| - 1])
    ensures |ls| == 3 && ls[1] != []
    ensures var c := ParseCheckpoint(text).value;
            && ls == [c.origin, ls[1], [Digest(c.tree.hash)]] && ValidOrigin(c.origin)
            && Decimal.ParseInt(ls[1]) == Some(c.tree.n)
            && (ls[1][0] == Decimal.Digit(0) ==> ls[1] == [Decimal.Digit(0)])
  {
    var c := ParseCheckpoint(text).value;
    assert ls[2] == [ls[2][0]] && ls[2][0] == Digest(c.tree.hash);
    assert ls[0] in ls;
  }

  /** The size line of two printed checkpoints that agree otherwise decides whether they are equal. */
  lemma SizeLineDecides(origin: Bytes, a: Bytes, b: Bytes, h: Bytes)
    requires a != [] && b != []
    ensures a[0] != b[0] ==> JoinLines([origin, a, h]) != JoinLines([origin, b, h])
  {
    JoinThree(origin, a, h);
    JoinThree(origin, b, h);
    assert JoinLines([origin, a, h])[|origin| + 1] == a[0];
    assert JoinLines([origin, b, h])[|origin| + 1] == b[0];
  }

  /**
    Printing undoes parsing exactly when the size line starts with a digit: "+5",
    "+05", "-0" and "-00" are accepted too, and are printed without the sign.
  */
  lemma MarshalParseExactly(text: Bytes)
    requires ParseCheckpoint(text).Some?
    ensures text != []
    ensures var ls := SplitLines(text[..|text| - 1]);
            && |ls| == 3 && ls[1] != []
            && (MarshalText(ParseCheckpoint(text).value) == Some(text) <==> Decimal.IsDigit(ls[1][0]))
  {
    ParsedLines(text);
    var ls := SplitLines(text[..|text| - 1]);
    var c := ParseCheckpoint(text).value;
    var size := Decimal.Print(c.tree.n);
    ParsedFields(text, ls);
    if Decimal.IsDigit(ls[1][0]) {
      Decimal.PrintParsed(ls[1]);
    } else {
      assert size[0] in size;
      SizeLineDecides(c.origin, size, ls[1], [Digest(c.tree.hash)]);
    }
  }

  /** Two sizes that are accepted and printed otherwise. */
  lemma SignedSizesParse(origin: Bytes, h: Hash)
    requires ValidOrigin(origin)
    ensures ParseCheckpoint(JoinLines([origin, Str("+5"), [Digest(h)]])) == Some(Checkpoint(origin, Tree(5, h)))
    ensures ParseCheckpoint(JoinLines([origin, Str("-0"), [Digest(h)]])) == Some(Checkpoint(origin, Tree(0, h)))
  {
    var five, zero := [Decimal.Digit(5)], [Decimal.Digit(0)];
    assert Str("+5")[1..] == five && Str("-0")[1..] == zero && five[..0] == [] && zero[..0] == [];
    assert Decimal.Value(five) == 5 && Decimal.Value(zero) == 0;
    ParseThree(origin, Str("+5"), h, 5);
    ParseThree(origin, Str("-0"), h, 0);
  }

  /** A text that parses as a checkpoint has no blank line in it. */
  lemma CheckpointTextHasNoBlank(text: Bytes)
    requires ParseCheckpoint(text).Some?
    ensures text != [] && text[|text| - 1] == NL && NoBlank(text)
  {
    ParsedLines(text);
    var ls := SplitLines(text[..|text| - 1]);
    assert ls == [ls[0], ls[1], ls[2]];
    JoinThree(ls[0], ls[1], ls[2]);
    ThreeLinesHaveNoBlank(ls[0], ls[1], ls[2]);
  }

  lemma ThreeLinesHaveNoBlank(a: Bytes, b: Bytes, c: Bytes)
    requires a != [] && b != [] && c != [] && OneLine(a) && OneLine(b) && OneLine(c)
    ensures NoBlank(a + [NL] + b + [NL] + c + [NL])
  {
    var s := a + [NL] + b + [NL] + c + [NL];
    JoinedLinesHaveNoBlank([a, b, c]);
    var t := [NL] + JoinLines([a, b, c]);
    JoinThree(a, b, c);
    forall i ensures !BlankAt(s, i) {
      assert !BlankAt(t, i + 1);
    }
  }
}
