/** When setting a head keeps the log append-only. */
module Forks {
  // SetHead asks for no consistency proof, so an operator whose key and witnesses
  // sign a second history moves a client from one to the other.

  import opened Wrappers
  import opened Symbols
  import opened Lines
  import opened Merkle
  import opened Notes
  import opened Checkpoints
  import opened Policies
  import opened Clients
  import LongNotes

  // ------------------------------------------------- the same signers, another text

  /** The line with its key's signature over another text, if the key is a known one. */
  function ResignLine(l: SigLine, vs: seq<Verifier>, text: Bytes): SigLine {
    match FindVerifier(vs, l.id)
    case None => l
    case Some(v) => SigLine(l.id, Sig(v.key, text))
  }

  function Resign(lines: seq<SigLine>, vs: seq<Verifier>, text: Bytes): (r: seq<SigLine>)
    ensures |r| == |lines|
    ensures forall i :: 0 <= i < |r| ==> r[i] == ResignLine(lines[i], vs, text)
  {
    seq(|lines|, i requires 0 <= i < |lines| => ResignLine(lines[i], vs, text))
  }

  lemma ResignKeepsIds(lines: seq<SigLine>, vs: seq<Verifier>, text: Bytes)
    ensures Ids(Resign(lines, vs, text)) == Ids(lines)
    ensures WellFormed(lines) ==> WellFormed(Resign(lines, vs, text))
    ensures CleanNames(lines) ==> CleanNames(Resign(lines, vs, text))
  {
    var r := Resign(lines, vs, text);
    forall l | l in lines ensures ResignLine(l, vs, text) in r {
      var i :| 0 <= i < |lines| && lines[i] == l;
      assert r[i] == ResignLine(l, vs, text);
    }
    forall id ensures id in Ids(r) <==> id in Ids(lines) {
      if id in Ids(lines) {
        var l :| l in lines && l.id == id;
        assert ResignLine(l, vs, text) in r && ResignLine(l, vs, text).id == id;
      }
    }
  }

  lemma ResignedVerifies(lines: seq<SigLine>, vs: seq<Verifier>, text: Bytes, v: Verifier)
    requires DistinctIds(vs) && v in vs && FirstBy(Resign(lines, vs, text), v.id).Some?
    ensures v.Verify(text, FirstBy(Resign(lines, vs, text), v.id).value.sig)
  {
    var l := FirstBy(Resign(lines, vs, text), v.id).value;
    var w := FindVerifier(vs, v.id).value;
    var i :| 0 <= i < |vs| && vs[i] == v;
    var j :| 0 <= j < |vs| && vs[j] == w;
    assert i == j;
  }

  lemma SomeFirst(a: seq<SigLine>, b: seq<SigLine>, id: KeyId)
    requires Ids(a) == Ids(b) && FirstBy(a, id).Some?
    ensures FirstBy(b, id).Some?
  {
    assert id in Ids(a);
  }

  lemma ResignedOpens(lines: seq<SigLine>, vs: seq<Verifier>, text: Bytes, before: Bytes)
    requires DistinctIds(vs) && OpenLines(before, lines, vs).Some?
    ensures OpenLines(text, Resign(lines, vs, text), vs).Some?
  {
    var r := Resign(lines, vs, text);
    OpenLinesExactly(before, lines, vs);
    OpenLinesExactly(text, r, vs);
    var v :| v in vs && FirstBy(lines, v.id).Some?;
    ResignKeepsIds(lines, vs, text);
    SomeFirst(lines, r, v.id);
    forall v | v in vs && FirstBy(r, v.id).Some? ensures v.Verify(text, FirstBy(r, v.id).value.sig) {
      ResignedVerifies(lines, vs, text, v);
    }
  }

  lemma ResignedAccepted(p: Policy, base: Bytes, c: Checkpoint, text: Bytes, cp: Checkpoint)
    requires p.Valid() && Accepts(p, base, c)
    requires ParseCheckpoint(text) == Some(cp) && cp.origin == p.origin && Clean(text)
    ensures NoteParts(base).Some?
    ensures var lines := Resign(NoteParts(base).value.1, p.Verifiers(), text);
            && NoteParts(Assemble(text, lines)) == Some((text, lines))
            && Accepts(p, Assemble(text, lines), cp)
  {
    var (before, lines) := NoteParts(base).value;
    PartsAssemble(base);
    CleanNamesOfParts(base);
    ResignKeepsIds(lines, p.Verifiers(), text);
    CheckpointTextHasNoBlank(text);
    AssembleParts(text, Resign(lines, p.Verifiers(), text));
    ResignedOpens(lines, p.Verifiers(), text, before);
  }

  lemma AcceptedOriginIsClean(p: Policy, base: Bytes, c: Checkpoint)
    requires p.Valid() && Accepts(p, base, c)
    ensures Clean(p.origin)
  {
    PartsAssemble(base);
    OriginIsClean(NoteParts(base).value.0, c);
  }

  lemma OriginIsClean(text: Bytes, c: Checkpoint)
    requires ParseCheckpoint(text) == Some(c) && Clean(text)
    ensures Clean(c.origin)
  {
    ParsedLines(text);
    var ls := SplitLines(text[..|text| - 1]);
    ParsedFields(text, ls);
    JoinThree(ls[0], ls[1], ls[2]);
    assert forall i :: 0 <= i < |c.origin| ==> text[i] == c.origin[i];
  }

  /** A policy that accepts any message at all accepts one for a tree of any size and hash. */
  lemma AcceptsAnyTree(p: Policy, base: Bytes, t: Tree) returns (msg: Bytes)
    requires p.Valid() && PolicyOpen(p, base).Ok? && t.n <= Decimal.INT64_MAX
    ensures PolicyOpen(p, msg) == Ok(Checkpoint(p.origin, t))
  {
    var c := PolicyOpen(p, base).value;
    var text, cp := LongNotes.TextOf(p, t.n, t.hash), Checkpoint(p.origin, t);
    PolicyOpenExactly(p, base, c);
    AcceptedOriginIsClean(p, base, c);
    LongNotes.TextParses(p, t.n, t.hash);
    ResignedAccepted(p, base, c, text, cp);
    msg := Assemble(text, Resign(NoteParts(base).value.1, p.Verifiers(), text));
    PolicyOpenExactly(p, msg, cp);
  }

  // ------------------------------------------------------------------ SetHead

  /** SetHead accepts the message, and it is for a tree of this size. */
  ghost predicate SetsSize(p: Policy, h: Head, msg: Bytes, m: nat)
    requires p.Valid()
  {
    var o := SetHeadSpec(p, h, msg);
    o.result.Ok? && o.head.Head? && o.head.cp.tree.n == m
  }

  ghost predicate SetsExtension(p: Policy, h: Head, msg: Bytes)
    requires p.Valid() && h.Head?
  {
    var o := SetHeadSpec(p, h, msg);
    o.head.Head? && Prefix(h.cp.tree, o.head.cp.tree)
  }

  /** A message of the head's own size never moves a client to another tree, nor does any from an empty head. */
  lemma OwnSizeExtends(p: Policy, h: Head, msg: Bytes, m: nat)
    requires p.Valid() && h.Head? && SetsSize(p, h, msg, m) && (m == h.cp.tree.n || h.cp.tree.n == 0)
    ensures SetsExtension(p, h, msg)
  {
  }

  /** From any other head there is an accepted message of each larger size that drops what the head committed to. */
  lemma SetHeadForks(p: Policy, h: Head, base: Bytes, m: nat) returns (msg: Bytes)
    requires p.Valid() && h.Head? && PolicyOpen(p, base).Ok?
    requires 0 < h.cp.tree.n < m <= Decimal.INT64_MAX
    ensures SetsSize(p, h, msg, m) && !SetsExtension(p, h, msg)
  {
    msg := AcceptsAnyTree(p, base, Tree(m, Opaque(0)));
  }

  /**
    SetHead is append-only for messages of some size exactly if that is the head's
    own size or the head is of the empty tree.  The base is any message that the
    policy accepts; if there is none SetHead changes nothing.
  */
  lemma SetHeadExtendsExactly(p: Policy, h: Head, base: Bytes, m: nat)
    requires p.Valid() && h.Head? && PolicyOpen(p, base).Ok?
    requires h.cp.tree.n <= m <= Decimal.INT64_MAX
    ensures (forall msg :: SetsSize(p, h, msg, m) ==> SetsExtension(p, h, msg)) <==>
              m == h.cp.tree.n || h.cp.tree.n == 0
  {
    if m == h.cp.tree.n || h.cp.tree.n == 0 {
      forall msg | SetsSize(p, h, msg, m) ensures SetsExtension(p, h, msg) {
        OwnSizeExtends(p, h, msg, m);
      }
    } else {
      var msg := SetHeadForks(p, h, base, m);
    }
  }
}
