/** splitNote and mergeSignedNotes, and why merging accumulates cosignatures. */
module Merging {
  import opened Wrappers
  import opened Symbols
  import opened Lines
  import opened Notes
  import opened Checkpoints

  /** splitNote: cut at the first blank line. */
  function SplitNote(msg: Bytes): Option<(Bytes, Bytes)> {
    var i := FirstBlank(msg);
    if i < 0 then None else Some((msg[..i + 1], msg[i + 2..]))
  }

  /** strings.Lines with the newlines trimmed: no empty piece after a final newline. */
  function TextLines(s: Bytes): seq<Bytes> {
    var ls := SplitLines(s);
    if ls[|ls| - 1] == [] then ls[..|ls| - 1] else ls
  }

  /** The lines that are neither empty nor already seen, first occurrences in order. */
  function Dedup(ls: seq<Bytes>, seen: set<Bytes>): seq<Bytes> {
    if ls == [] then []
    else if ls[0] == [] || ls[0] in seen then Dedup(ls[1..], seen)
    else [ls[0]] + Dedup(ls[1..], seen + {ls[0]})
  }

  function MergeNotes(a: Bytes, b: Bytes): Option<Bytes> {
    match (SplitNote(a), SplitNote(b))
    case (Some((textA, sigsA)), Some((textB, sigsB))) =>
      if textA != textB then None
      else Some(textA + [NL] + JoinLines(Dedup(TextLines(sigsA + sigsB), {})))
    case _ => None
  }

  method MergeSignedNotes(a: Bytes, b: Bytes) returns (r: Option<Bytes>)
    ensures r == MergeNotes(a, b)
  {
    var sa, sb := SplitNote(a), SplitNote(b);
    if sa.None? || sb.None? || sa.value.0 != sb.value.0 {
      return None;
    }
    var seen: set<Bytes> := {};
    var merged := sa.value.0 + [NL];
    var lines := TextLines(sa.value.1 + sb.value.1);
    ghost var whole := merged + JoinLines(Dedup(lines, {}));
    for i := 0 to |lines|
      invariant merged + JoinLines(Dedup(lines[i..], seen)) == whole
    {
      var line := lines[i];
      assert lines[i..][0] == line && lines[i..][1..] == lines[i + 1..];
      if line == [] || line in seen {
        continue;
      }
      ghost var rest := Dedup(lines[i + 1..], seen + {line});
      assert Dedup(lines[i..], seen) == [line] + rest;
      assert ([line] + rest)[1..] == rest;
      assert JoinLines([line] + rest) == line + [NL] + JoinLines(rest);
      seen := seen + {line};
      merged := merged + line + [NL];
    }
    assert merged + JoinLines(Dedup([], seen)) == merged;
    r := Some(merged);
  }

  // -------------------------------------------------- on messages that open

  lemma SplitAssembled(text: Bytes, lines: seq<SigLine>)
    requires text != [] && text[|text| - 1] == NL && NoBlank(text)
    requires WellFormed(lines)
    ensures SplitNote(Assemble(text, lines)) == Some((text, JoinLines(FormatSigLines(lines))))
  {
    var sigs := JoinLines(FormatSigLines(lines));
    var msg := Assemble(text, lines);
    assert BlankAt(msg, |text| - 1);
    assert forall j :: j < |text| - 1 ==> BlankAt(msg, j) ==> BlankAt(text, j);
    assert FirstBlank(msg) == |text| - 1;
    assert msg[..|text|] == text && msg[|text| + 1..] == sigs;
  }

  /**
    splitNote cuts at the first blank line and note.Open at the last; for a
    checkpoint they see the same text.
  */
  lemma SplitAgreesWithOpen(msg: Bytes)
    requires NoteParts(msg).Some? && ParseCheckpoint(NoteParts(msg).value.0).Some?
    ensures SplitNote(msg).Some? && SplitNote(msg).value.0 == NoteParts(msg).value.0
  {
    PartsAssemble(msg);
    var (text, lines) := NoteParts(msg).value;
    CheckpointTextHasNoBlank(text);
    SplitAssembled(text, lines);
  }

  function DedupLines(ls: seq<SigLine>, seen: set<SigLine>): seq<SigLine> {
    if ls == [] then []
    else if ls[0] in seen then DedupLines(ls[1..], seen)
    else [ls[0]] + DedupLines(ls[1..], seen + {ls[0]})
  }

  ghost predicate NoDuplicates(ls: seq<SigLine>) {
    forall i, j :: 0 <= i < j < |ls| ==> ls[i] != ls[j]
  }

  lemma {:induction false} DedupFacts(ls: seq<SigLine>, seen: set<SigLine>)
    ensures forall l :: l in DedupLines(ls, seen) <==> l in ls && l !in seen
    ensures NoDuplicates(DedupLines(ls, seen))
  {
    if ls != [] {
      var seen' := seen + {ls[0]};
      DedupFacts(ls[1..], if ls[0] in seen then seen else seen');
      assert forall l :: l in ls <==> l == ls[0] || l in ls[1..];
      if ls[0] !in seen {
        var r := DedupLines(ls[1..], seen');
        forall i, j | 0 <= i < j < |r| + 1 ensures ([ls[0]] + r)[i] != ([ls[0]] + r)[j] {
          assert r[j - 1] in r;
        }
      }
    }
  }

  /** Dropping repeats keeps the first line of every key. */
  lemma {:induction false} DedupKeepsFirst(ls: seq<SigLine>, seen: set<SigLine>, id: KeyId)
    requires forall l :: l in seen ==> l.id != id
    ensures FirstBy(DedupLines(ls, seen), id) == FirstBy(ls, id)
  {
    if ls != [] {
      if ls[0].id != id {
        DedupKeepsFirst(ls[1..], if ls[0] in seen then seen else seen + {ls[0]}, id);
      }
    }
  }

  lemma {:induction false} FirstByAppend(a: seq<SigLine>, b: seq<SigLine>, id: KeyId)
    ensures FirstBy(a + b, id) == if FirstBy(a, id).Some? then FirstBy(a, id) else FirstBy(b, id)
  {
    if a == [] {
      assert a + b == b;
    } else {
      FirstByAppend(a[1..], b, id);
      assert (a + b)[1..] == a[1..] + b;
    }
  }

  lemma FormatCons(l: SigLine, ls: seq<SigLine>)
    ensures FormatSigLines([l] + ls) == [FormatSigLine(l)] + FormatSigLines(ls)
  {
  }

  lemma {:induction false} DedupFormatted(ls: seq<SigLine>, seen: set<SigLine>, fseen: set<Bytes>)
    requires WellFormed(ls) && WellFormedSet(seen)
    requires forall l :: l in seen ==> FormatSigLine(l) in fseen
    requires forall f :: f in fseen ==> ParseSigLine(f).Some? && ParseSigLine(f).value in seen
    ensures Dedup(FormatSigLines(ls), fseen) == FormatSigLines(DedupLines(ls, seen))
  {
    if ls != [] {
      var l, f := ls[0], FormatSigLine(ls[0]);
      assert l in ls;
      ParseFormatSigLine(l);
      assert FormatSigLines(ls)[1..] == FormatSigLines(ls[1..]);
      assert f in fseen <==> l in seen;
      if l in seen {
        DedupFormatted(ls[1..], seen, fseen);
      } else {
        DedupFormatted(ls[1..], seen + {l}, fseen + {f});
        FormatCons(l, DedupLines(ls[1..], seen + {l}));
      }
    }
  }

  predicate WellFormedSet(ls: set<SigLine>) {
    forall l :: l in ls ==> ValidName(l.id.name)
  }

  lemma TextLinesOfJoined(ls: seq<SigLine>)
    requires WellFormed(ls)
    ensures TextLines(JoinLines(FormatSigLines(ls))) == FormatSigLines(ls)
  {
    var fs := FormatSigLines(ls);
    ParseFormatSigLines(ls);
    SplitJoin(fs);
    assert (fs + [[]])[..|fs|] == fs;
  }

  /** The message has a signature line claiming this key. */
  predicate Carries(msg: Bytes, id: KeyId) {
    NoteParts(msg).Some? && FirstBy(NoteParts(msg).value.1, id).Some?
  }

  lemma DedupJoined(la: seq<SigLine>, lb: seq<SigLine>)
    requires WellFormed(la) && WellFormed(lb)
    ensures var sigs := JoinLines(FormatSigLines(la)) + JoinLines(FormatSigLines(lb));
            Dedup(TextLines(sigs), {}) == FormatSigLines(DedupLines(la + lb, {}))
  {
    assert FormatSigLines(la + lb) == FormatSigLines(la) + FormatSigLines(lb);
    JoinAppend(FormatSigLines(la), FormatSigLines(lb));
    TextLinesOfJoined(la + lb);
    DedupFormatted(la + lb, {}, {});
  }

  lemma MergeOfSplit(a: Bytes, b: Bytes, text: Bytes, sa: Bytes, sb: Bytes, ls: seq<Bytes>)
    requires SplitNote(a) == Some((text, sa)) && SplitNote(b) == Some((text, sb))
    requires Dedup(TextLines(sa + sb), {}) == ls
    ensures MergeNotes(a, b) == Some(text + [NL] + JoinLines(ls))
  {
  }

  lemma MergeAssembled(text: Bytes, la: seq<SigLine>, lb: seq<SigLine>)
    requires text != [] && text[|text| - 1] == NL && NoBlank(text)
    requires WellFormed(la) && WellFormed(lb)
    ensures MergeNotes(Assemble(text, la), Assemble(text, lb)) == Some(Assemble(text, DedupLines(la + lb, {})))
  {
    SplitAssembled(text, la);
    SplitAssembled(text, lb);
    DedupJoined(la, lb);
    MergeOfSplit(Assemble(text, la), Assemble(text, lb), text,
                 JoinLines(FormatSigLines(la)), JoinLines(FormatSigLines(lb)),
                 FormatSigLines(DedupLines(la + lb, {})));
  }

  /** Two notes over one checkpoint text merge into the note of all their lines, each once. */
  lemma MergedParts(a: Bytes, b: Bytes)
    requires NoteParts(a).Some? && NoteParts(b).Some?
    requires NoteParts(a).value.0 == NoteParts(b).value.0
    requires ParseCheckpoint(NoteParts(a).value.0).Some?
    ensures MergeNotes(a, b).Some?
    ensures NoteParts(MergeNotes(a, b).value)
            == Some((NoteParts(a).value.0, DedupLines(NoteParts(a).value.1 + NoteParts(b).value.1, {})))
  {
    var (text, la) := NoteParts(a).value;
    var lb := NoteParts(b).value.1;
    PartsAssemble(a);
    PartsAssemble(b);
    CleanNamesOfParts(a);
    CleanNamesOfParts(b);
    CheckpointTextHasNoBlank(text);
    MergeAssembled(text, la, lb);
    DedupFacts(la + lb, {});
    var merged := DedupLines(la + lb, {});
    assert la[0] in la + lb;
    assert merged != [];
    AssembleParts(text, merged);
  }

  lemma FirstByMerged(la: seq<SigLine>, lb: seq<SigLine>, id: KeyId)
    ensures FirstBy(DedupLines(la + lb, {}), id)
            == if FirstBy(la, id).Some? then FirstBy(la, id) else FirstBy(lb, id)
  {
    DedupKeepsFirst(la + lb, {}, id);
    FirstByAppend(la, lb, id);
  }

  lemma MergedLinesOpen(text: Bytes, la: seq<SigLine>, lb: seq<SigLine>, known: seq<Verifier>)
    requires DistinctIds(known)
    requires OpenLines(text, la, known).Some? && OpenLines(text, lb, known).Some?
    ensures OpenLines(text, DedupLines(la + lb, {}), known).Some?
  {
    OpenLinesExactly(text, la, known);
    OpenLinesExactly(text, lb, known);
    OpenLinesExactly(text, DedupLines(la + lb, {}), known);
    forall id ensures FirstBy(DedupLines(la + lb, {}), id)
                      == if FirstBy(la, id).Some? then FirstBy(la, id) else FirstBy(lb, id)
    {
      FirstByMerged(la, lb, id);
    }
  }

  /**
    If two messages over one checkpoint text each open (the cap on signature
    lines aside), so does their merge; its verified keys are exactly the union,
    and no line occurs twice.
  */
  lemma MergeAccumulates(a: Bytes, b: Bytes, known: seq<Verifier>)
    requires DistinctIds(known)
    requires OpensUncapped(a, known) && OpensUncapped(b, known)
    requires NoteParts(a).value.0 == NoteParts(b).value.0
    requires ParseCheckpoint(NoteParts(a).value.0).Some?
    ensures MergeNotes(a, b).Some?
    ensures var m := MergeNotes(a, b).value;
            && OpensUncapped(m, known)
            && NoteParts(m).value.0 == NoteParts(a).value.0
            && NoDuplicates(NoteParts(m).value.1)
            && (NoteOpen(m, known).Some? <==> LineCount(m) <= MAX_SIGNATURES)
            && (forall id :: Carries(m, id) <==> Carries(a, id) || Carries(b, id))
  {
    var (text, la) := NoteParts(a).value;
    var lb := NoteParts(b).value.1;
    MergedParts(a, b);
    MergedLinesOpen(text, la, lb, known);
    DedupFacts(la + lb, {});
    forall id ensures Carries(MergeNotes(a, b).value, id) <==> Carries(a, id) || Carries(b, id) {
      FirstByMerged(la, lb, id);
    }
  }
}
