/**
  Splitting and joining of newline-separated text, and where its first and its
  last blank line are: signed notes are cut at the last one when they are
  opened, but at the first one when they are merged.
*/
module Lines {
  import opened Symbols
  import opened Seqs

  function IndexNL(s: Bytes): (i: nat)
    ensures i <= |s|
    ensures forall j :: 0 <= j < i ==> s[j] != NL
    ensures i < |s| ==> s[i] == NL
  {
    if s == [] || s[0] == NL then 0 else 1 + IndexNL(s[1..])
  }

  predicate OneLine(s: Bytes) { NL !in s }

  /** strings.Split(s, "\n"): always at least one piece, none with a newline. */
  function SplitLines(s: Bytes): (ls: seq<Bytes>)
    ensures |ls| >= 1
    ensures forall l :: l in ls ==> OneLine(l)
  {
    var i := IndexNL(s);
    if i == |s| then
      [s]
    else
      [s[..i]] + SplitLines(s[i + 1..])
  }

  /** The lines, each followed by a newline. */
  function JoinLines(ls: seq<Bytes>): Bytes {
    if ls == [] then [] else ls[0] + [NL] + JoinLines(ls[1..])
  }

  lemma {:induction false} SplitFirst(l: Bytes, rest: Bytes)
    requires OneLine(l)
    ensures SplitLines(l + [NL] + rest) == [l] + SplitLines(rest)
  {
    var s := l + [NL] + rest;
    var i := IndexNL(s);
    assert i == |l| by {
      assert s[|l|] == NL;
      assert forall j :: 0 <= j < |l| ==> s[j] == l[j];
    }
    assert s[..i] == l && s[i + 1..] == rest;
  }

  lemma {:induction false} SplitJoin(ls: seq<Bytes>)
    requires forall l :: l in ls ==> OneLine(l)
    ensures SplitLines(JoinLines(ls)) == ls + [[]]
  {
    if ls != [] {
      SplitJoin(ls[1..]);
      SplitFirst(ls[0], JoinLines(ls[1..]));
      assert ls + [[]] == [ls[0]] + (ls[1..] + [[]]);
    }
  }

  lemma JoinCons(l: Bytes, ls: seq<Bytes>)
    ensures JoinLines([l] + ls) == l + [NL] + JoinLines(ls)
  {
    assert ([l] + ls)[1..] == ls;
  }

  /** Any text, with a newline put after it, is the join of its pieces. */
  lemma {:induction false} JoinOfSplit(s: Bytes)
    ensures JoinLines(SplitLines(s)) == s + [NL]
  {
    var i := IndexNL(s);
    if i == |s| {
      assert SplitLines(s) == [s] + [];
      JoinCons(s, []);
    } else {
      var rest := s[i + 1..];
      JoinOfSplit(rest);
      JoinCons(s[..i], SplitLines(rest));
      assert s + [NL] == s[..i] + [NL] + (rest + [NL]);
    }
  }

  /** A text that ends in a newline is the join of its lines. */
  lemma JoinSplit(s: Bytes)
    requires s != [] && s[|s| - 1] == NL
    ensures var ls := SplitLines(s); |ls| >= 2 && ls[|ls| - 1] == [] && s == JoinLines(ls[..|ls| - 1])
  {
    var t := s[..|s| - 1];
    assert s == t + [NL];
    JoinOfSplit(t);
    SplitJoin(SplitLines(t));
    var ls := SplitLines(s);
    assert ls[..|ls| - 1] == SplitLines(t);
  }

  lemma {:induction false} JoinAppend(a: seq<Bytes>, b: seq<Bytes>)
    ensures JoinLines(a + b) == JoinLines(a) + JoinLines(b)
  {
    if a == [] {
      assert a + b == b;
    } else {
      var l, rest := a[0], a[1..];
      JoinAppend(rest, b);
      assert a + b == [l] + (rest + b);
      JoinCons(l, rest + b);
      Assoc(l + [NL], JoinLines(rest), JoinLines(b));
    }
  }

  lemma JoinThree(a: Bytes, b: Bytes, c: Bytes)
    ensures JoinLines([a, b, c]) == a + [NL] + b + [NL] + c + [NL]
  {
    assert [a, b, c][1..] == [b, c] && [b, c][1..] == [c] && [c][1..] == [];
    assert JoinLines([c]) == c + [NL];
    assert JoinLines([b, c]) == b + [NL] + JoinLines([c]);
  }

  // ------------------------------------------------------------ blank lines

  predicate BlankAt(s: Bytes, i: int) {
    0 <= i < |s| - 1 && s[i] == NL && s[i + 1] == NL
  }

  ghost predicate NoBlank(s: Bytes) {
    forall i :: !BlankAt(s, i)
  }

  /** bytes.Index(s, "\n\n"), or -1. */
  function FirstBlank(s: Bytes): (i: int)
    ensures -1 <= i
    ensures i >= 0 ==> BlankAt(s, i) && forall j :: j < i ==> !BlankAt(s, j)
    ensures i < 0 ==> NoBlank(s)
  {
    FirstBlankFrom(s, 0)
  }

  function FirstBlankFrom(s: Bytes, k: nat): (i: int)
    requires forall j :: j < k ==> !BlankAt(s, j)
    ensures -1 <= i
    ensures i >= 0 ==> BlankAt(s, i) && forall j :: j < i ==> !BlankAt(s, j)
    ensures i < 0 ==> NoBlank(s)
    decreases |s| - k
  {
    if BlankAt(s, k) then k
    else if k >= |s| then -1
    else FirstBlankFrom(s, k + 1)
  }

  /** bytes.LastIndex(s, "\n\n"), or -1. */
  function LastBlank(s: Bytes): (i: int)
    ensures -1 <= i
    ensures i >= 0 ==> BlankAt(s, i) && forall j :: j > i ==> !BlankAt(s, j)
    ensures i < 0 ==> NoBlank(s)
  {
    LastBlankUpTo(s, |s|)
  }

  function LastBlankUpTo(s: Bytes, k: nat): (i: int)
    requires forall j :: j > k ==> !BlankAt(s, j)
    ensures -1 <= i
    ensures i >= 0 ==> BlankAt(s, i) && forall j :: j > i ==> !BlankAt(s, j)
    ensures i < 0 ==> NoBlank(s)
  {
    if BlankAt(s, k) then k
    else if k == 0 then -1
    else LastBlankUpTo(s, k - 1)
  }

  /** A newline followed by non-empty lines holds no blank line. */
  lemma {:induction false} JoinedLinesHaveNoBlank(ls: seq<Bytes>)
    requires forall l :: l in ls ==> OneLine(l) && l != []
    ensures NoBlank([NL] + JoinLines(ls))
  {
    var s := [NL] + JoinLines(ls);
    if ls != [] {
      JoinedLinesHaveNoBlank(ls[1..]);
      var l := ls[0];
      assert l in ls;
      var t := [NL] + JoinLines(ls[1..]);
      assert s == [NL] + l + t;
      forall i ensures !BlankAt(s, i) {
        if 0 <= i < |s| - 1 {
          if i == 0 {
            assert s[1] == l[0];
          } else if i <= |l| {
            assert s[i] == l[i - 1];
          } else {
            assert s[i] == t[i - 1 - |l|] && s[i + 1] == t[i - |l|];
            assert !BlankAt(t, i - 1 - |l|);
          }
        }
      }
    }
  }
}
