/**
  Where the promise that equivocation proofs verify fails: merging lines of
  unknown keys can push the stored head note over the cap of note.Open.
*/
module LongNotes {
  import opened Wrappers
  import opened Symbols
  import opened Lines
  import opened Merkle
  import opened Notes
  import opened Checkpoints
  import opened Merging
  import opened Equivocations
  import opened Policies
  import opened Clients

  // ------------------------------------------- messages with unknown signers

  function UnknownLine(name: Bytes, i: word32): SigLine { SigLine(KeyId(name, i), Sig(0, [])) }

  /** The operator's line, then lines of n keys with some other name. */
  function LinesFrom(mine: SigLine, name: Bytes, first: nat, n: nat): (r: seq<SigLine>)
    requires first + n < 1000
    ensures |r| == n + 1 && r[0] == mine
    ensures forall i :: 0 < i <= n ==> r[i] == UnknownLine(name, first + i - 1)
  {
    [mine] + seq(n, i requires 0 <= i < n => UnknownLine(name, first + i))
  }

  /** A policy that asks for the operator's signature only. */
  predicate OperatorOnly(p: Policy) {
    p.Valid() && p.witnesses == [] && p.k == 0 && ValidName(p.operator.id.name) && Clean(p.operator.id.name)
  }

  predicate Stranger(p: Policy, name: Bytes) {
    ValidName(name) && Clean(name) && name != p.operator.id.name
  }

  function OperatorLine(p: Policy, text: Bytes): SigLine { SigLine(p.operator.id, Sig(p.operator.key, text)) }

  lemma LinesAreGood(p: Policy, text: Bytes, name: Bytes, first: nat, n: nat)
    requires OperatorOnly(p) && Stranger(p, name) && first + n < 1000
    ensures var lines := LinesFrom(OperatorLine(p, text), name, first, n); WellFormed(lines) && CleanNames(lines)
  {
    var lines := LinesFrom(OperatorLine(p, text), name, first, n);
    forall l | l in lines ensures ValidName(l.id.name) && Clean(l.id.name) {
      var i :| 0 <= i < |lines| && lines[i] == l;
    }
  }

  lemma MessageAccepted(p: Policy, text: Bytes, cp: Checkpoint, name: Bytes, first: nat, n: nat)
    requires OperatorOnly(p) && Stranger(p, name) && first + n < 1000
    requires ParseCheckpoint(text) == Some(cp) && cp.origin == p.origin && Clean(text)
    ensures var lines := LinesFrom(OperatorLine(p, text), name, first, n);
            && NoteParts(Assemble(text, lines)) == Some((text, lines))
            && Accepts(p, Assemble(text, lines), cp)
  {
    var lines := LinesFrom(OperatorLine(p, text), name, first, n);
    LinesAreGood(p, text, name, first, n);
    CheckpointTextHasNoBlank(text);
    AssembleParts(text, lines);
    LinesOpen(p, text, lines);
  }

  lemma LinesOpen(p: Policy, text: Bytes, lines: seq<SigLine>)
    requires OperatorOnly(p) && lines != [] && lines[0] == OperatorLine(p, text)
    ensures OpenLines(text, lines, p.Verifiers()).Some?
  {
    OpenLinesExactly(text, lines, p.Verifiers());
    assert p.Verifiers() == [p.operator];
    assert p.operator in p.Verifiers();
    assert FirstBy(lines, p.operator.id) == Some(lines[0]);
  }

  /** A list with n different unknown keys has at least n lines. */
  lemma {:induction false} AtLeast(lines: seq<SigLine>, name: Bytes, n: nat)
    requires n < 1000
    requires forall i: word32 :: i < n ==> UnknownLine(name, i) in lines
    ensures |lines| >= n
  {
    if n > 0 {
      var last := UnknownLine(name, n - 1);
      var j :| 0 <= j < |lines| && lines[j] == last;
      var rest := lines[..j] + lines[j + 1..];
      forall i: word32 | i < n - 1 ensures UnknownLine(name, i) in rest {
        var m :| 0 <= m < |lines| && lines[m] == UnknownLine(name, i);
        assert rest[if m < j then m else m - 1] == UnknownLine(name, i);
      }
      AtLeast(rest, name, n - 1);
    }
  }

  lemma AllUnknown(la: seq<SigLine>, lb: seq<SigLine>, mine: SigLine, name: Bytes, i: word32)
    requires la == LinesFrom(mine, name, 0, 60) && lb == LinesFrom(mine, name, 60, 60) && i < 120
    ensures UnknownLine(name, i) in la + lb
  {
    if i < 60 {
      assert la[i + 1] == UnknownLine(name, i);
      assert (la + lb)[i + 1] == la[i + 1];
    } else {
      assert lb[i - 59] == UnknownLine(name, i);
      assert (la + lb)[|la| + i - 59] == lb[i - 59];
    }
  }

  lemma MergedIsLong(p: Policy, text: Bytes, cp: Checkpoint, name: Bytes)
    requires OperatorOnly(p) && Stranger(p, name)
    requires ParseCheckpoint(text) == Some(cp) && cp.origin == p.origin && Clean(text)
    ensures var a := Assemble(text, LinesFrom(OperatorLine(p, text), name, 0, 60));
            var b := Assemble(text, LinesFrom(OperatorLine(p, text), name, 60, 60));
            MergeNotes(a, b).Some? && LineCount(MergeNotes(a, b).value) > MAX_SIGNATURES
  {
    var mine := OperatorLine(p, text);
    var la, lb := LinesFrom(mine, name, 0, 60), LinesFrom(mine, name, 60, 60);
    MessageAccepted(p, text, cp, name, 0, 60);
    MessageAccepted(p, text, cp, name, 60, 60);
    MergedParts(Assemble(text, la), Assemble(text, lb));
    var merged := DedupLines(la + lb, {});
    DedupFacts(la + lb, {});
    forall i: word32 | i < 120 ensures UnknownLine(name, i) in merged {
      AllUnknown(la, lb, mine, name, i);
    }
    AtLeast(merged, name, 120);
  }

  // ----------------------------------------------------------- the failing run

  lemma AcceptedCall(p: Policy, h: Head, msg: Bytes, cp: Checkpoint)
    requires p.Valid() && Accepts(p, msg, cp) && LineCount(msg) <= MAX_SIGNATURES
    ensures UpdateSpec(p, h, msg, None) == AdvanceSpec(h, cp, msg, None)
  {
    PolicyOpenExactly(p, msg, cp);
  }

  /** Two accepted messages over one text leave their merge as head note. */
  lemma TwoUpdates(p: Policy, a: Bytes, b: Bytes, cp: Checkpoint)
    requires p.Valid() && Accepts(p, a, cp) && Accepts(p, b, cp)
    requires LineCount(a) <= MAX_SIGNATURES && LineCount(b) <= MAX_SIGNATURES
    requires MergeNotes(a, b).Some?
    ensures RunUpdates(p, NoHead, [Call(a, None), Call(b, None)]) == Head(MergeNotes(a, b).value, cp)
  {
    AcceptedCall(p, NoHead, a, cp);
    AcceptedCall(p, Head(a, cp), b, cp);
    RunTwo(p, NoHead, Call(a, None), Call(b, None));
  }

  lemma RunTwo(p: Policy, h: Head, x: Call, y: Call)
    requires p.Valid()
    ensures RunUpdates(p, h, [x, y])
            == UpdateSpec(p, UpdateSpec(p, h, x.msg, x.proof).head, y.msg, y.proof).head
  {
    assert [x, y][1..] == [y] && [y][1..] == [];
    var h1 := UpdateSpec(p, h, x.msg, x.proof).head;
    assert RunUpdates(p, h1, [y]) == RunUpdates(p, UpdateSpec(p, h1, y.msg, y.proof).head, []);
  }

  /** A conflict with a head note over the cap is reported with a proof that does not verify. */
  lemma LongHeadReports(p: Policy, h: Head, c: Bytes, cp: Checkpoint)
    requires p.Valid() && h.Head? && HeadValid(p, h) && LineCount(h.msg) > MAX_SIGNATURES
    requires Accepts(p, c, cp) && LineCount(c) <= MAX_SIGNATURES
    requires cp.tree.n == h.cp.tree.n && cp.tree.hash != h.cp.tree.hash
    ensures UpdateSpec(p, h, c, None).result == Err(Equivocated(Equivocation(h.msg, c)))
    ensures VerifyEquivocation(Equivocation(h.msg, c), p.origin, p.operator).None?
  {
    AcceptedCall(p, h, c, cp);
    AcceptedIsEvidence(p, h.msg, h.cp);
    EvidenceOpens(h.msg, p.origin, p.operator, h.cp);
  }

  /**
    A run of three updates, each message within the cap: the third is reported
    as an equivocation, but the proof does not verify.
  */
  lemma ReportedProofMayNotVerify(p: Policy, name: Bytes)
    requires OperatorOnly(p) && Stranger(p, name) && Clean(p.origin)
    ensures exists a, b, c, e ::
      UpdateSpec(p, RunUpdates(p, NoHead, [Call(a, None), Call(b, None)]), c, None).result == Err(Equivocated(e))
      && VerifyEquivocation(e, p.origin, p.operator).None?
  {
    var t, u := TextOf(p, 5, Empty), TextOf(p, 5, Opaque(0));
    var ct, cu := Checkpoint(p.origin, Tree(5, Empty)), Checkpoint(p.origin, Tree(5, Opaque(0)));
    var a := Assemble(t, LinesFrom(OperatorLine(p, t), name, 0, 60));
    var b := Assemble(t, LinesFrom(OperatorLine(p, t), name, 60, 60));
    var c := Assemble(u, LinesFrom(OperatorLine(p, u), name, 0, 0));
    TextParses(p, 5, Empty);
    TextParses(p, 5, Opaque(0));
    MessageAccepted(p, t, ct, name, 0, 60);
    MessageAccepted(p, t, ct, name, 60, 60);
    MessageAccepted(p, u, cu, name, 0, 0);
    MergedIsLong(p, t, ct, name);
    FailingRun(p, a, b, c, ct, cu);
  }

  lemma FailingRun(p: Policy, a: Bytes, b: Bytes, c: Bytes, ct: Checkpoint, cu: Checkpoint)
    requires p.Valid() && Accepts(p, a, ct) && Accepts(p, b, ct) && Accepts(p, c, cu)
    requires LineCount(a) <= MAX_SIGNATURES && LineCount(b) <= MAX_SIGNATURES && LineCount(c) <= MAX_SIGNATURES
    requires MergeNotes(a, b).Some? && LineCount(MergeNotes(a, b).value) > MAX_SIGNATURES
    requires ct.tree.n == cu.tree.n && ct.tree.hash != cu.tree.hash
    ensures exists e ::
      UpdateSpec(p, RunUpdates(p, NoHead, [Call(a, None), Call(b, None)]), c, None).result == Err(Equivocated(e))
      && VerifyEquivocation(e, p.origin, p.operator).None?
  {
    TwoUpdates(p, a, b, ct);
    MergedHeadAccepted(p, a, b, ct, ct);
    LongHeadReports(p, Head(MergeNotes(a, b).value, ct), c, cu);
  }

  function TextOf(p: Policy, n: nat, h: Hash): Bytes {
    JoinLines([p.origin, Decimal.Print(n), [Digest(h)]])
  }

  lemma CleanDigits(s: Bytes)
    requires forall d :: d in s ==> Decimal.IsDigit(d)
    ensures Clean(s)
  {
    assert forall i :: 0 <= i < |s| ==> s[i] in s;
  }

  lemma TextParses(p: Policy, n: nat, h: Hash)
    requires p.Valid() && Clean(p.origin) && n <= Decimal.INT64_MAX
    ensures ParseCheckpoint(TextOf(p, n, h)) == Some(Checkpoint(p.origin, Tree(n, h))) && Clean(TextOf(p, n, h))
  {
    var size := Decimal.Print(n);
    Decimal.ParseIntPrint(n);
    assert OneLine(size);
    ParseThree(p.origin, size, h, n);
    JoinThree(p.origin, size, [Digest(h)]);
    CleanDigits(size);
  }
}
