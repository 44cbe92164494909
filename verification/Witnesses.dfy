/** A witness: what it cosigns, and what its signatures say about the log. */
module Witnesses {
  import opened Wrappers
  import opened Seqs
  import opened Symbols
  import opened Lines
  import opened Merkle
  import opened Notes
  import opened Checkpoints
  import opened Merging
  import opened Equivocations
  import opened Policies
  import opened Clients

  datatype Config = Config(signer: Signer, origin: Bytes, operator: Verifier)

  /** One signature of the witness: the text it covers and what that text says. */
  datatype Signature = Signature(text: Bytes, cp: Checkpoint)

  /** The head after a call, what the call returned, and what it signed, if anything. */
  datatype Cosigned = Cosigned(head: Head, result: Result<Bytes, Error>, signed: Option<Signature>)

  /** The growth check against the stored head; None if the checkpoint may be signed. */
  function Refusal(h: Head, cp: Checkpoint, msg: Bytes, proof: Option<seq<Hash>>): Option<Error> {
    if h.NoHead? then None
    else if cp.tree.n < h.cp.tree.n then Some(Rollback)
    else if cp.tree.n == h.cp.tree.n then
      if cp.tree.hash != h.cp.tree.hash then Some(Equivocated(Equivocation(h.msg, msg))) else None
    else if h.cp.tree.n > 0 && proof.None? then Some(SourceStale)
    else if h.cp.tree.n > 0 && !CheckTree(proof.value, cp.tree.n, cp.tree.hash, h.cp.tree.n, h.cp.tree.hash) then
      Some(CheckFailed)
    else None
  }

  /** The opened note with the signatures of unknown keys kept as if verified. */
  function KeepUnknown(n: Note): Note {
    Note(n.text, n.sigs + n.unverified, [])
  }

  /** cosign; `proof` is what tlog.ProveTree made of the source. */
  function CosignSpec(w: Config, h: Head, msg: Bytes, proof: Option<seq<Hash>>): Cosigned {
    match NoteOpen(msg, [w.operator])
    case None => Cosigned(h, Err(NoteError), None)
    case Some(n) =>
      match ParseCheckpoint(n.text)
      case None => Cosigned(h, Err(ParseError), None)
      case Some(cp) =>
        if cp.origin != w.origin then Cosigned(h, Err(OriginMismatch), None)
        else
          match Refusal(h, cp, msg, proof)
          case Some(e) => Cosigned(h, Err(e), None)
          case None =>
            match NoteSign(KeepUnknown(n), w.signer)
            case None => Cosigned(h, Err(SignFailed), None)
            case Some(m) => Cosigned(Head(m, cp), Ok(m), Some(Signature(n.text, cp)))
  }

  class Witness {
    const config: Config
    var headMsg: Bytes
    var head: Checkpoint
    var hasHead: bool
    ghost var signed: seq<Signature>   // everything signed so far, oldest first

    /** The trees signed so far form one prefix chain that ends at the head. */
    ghost predicate Valid()
      reads this
    {
      SignedChain(signed, State())
    }

    function State(): Head
      reads this
    {
      if hasHead then Head(headMsg, head) else NoHead
    }

    constructor (config: Config)
      ensures Valid() && State() == NoHead && this.config == config && signed == []
    {
      this.config := config;
      headMsg, head, hasHead := [], Checkpoint([], Tree(0, Empty)), false;
      signed := [];
    }

    method Cosign(msg: Bytes, proof: Option<seq<Hash>>) returns (r: Result<Bytes, Error>)
      requires Valid()
      modifies this
      ensures Valid()
      ensures State() == CosignSpec(config, old(State()), msg, proof).head
      ensures r == CosignSpec(config, old(State()), msg, proof).result
      ensures signed == match CosignSpec(config, old(State()), msg, proof).signed
                        case None => old(signed)
                        case Some(s) => old(signed) + [s]
    {
      CosignKeepsChain(config, State(), msg, proof, signed);
      var n := NoteOpen(msg, [config.operator]);
      if n.None? {
        return Err(NoteError);
      }
      var cp := ParseCheckpoint(n.value.text);
      if cp.None? {
        return Err(ParseError);
      }
      if cp.value.origin != config.origin {
        return Err(OriginMismatch);
      }
      if hasHead {
        if cp.value.tree.n < head.tree.n {
          return Err(Rollback);
        } else if cp.value.tree.n == head.tree.n {
          if cp.value.tree.hash != head.tree.hash {
            return Err(Equivocated(Equivocation(headMsg, msg)));
          }
        } else if head.tree.n > 0 {
          if proof.None? {
            return Err(SourceStale);
          }
          if !CheckTree(proof.value, cp.value.tree.n, cp.value.tree.hash, head.tree.n, head.tree.hash) {
            return Err(CheckFailed);
          }
        }
      }
      var cosigned := NoteSign(KeepUnknown(n.value), config.signer);
      if cosigned.None? {
        return Err(SignFailed);
      }
      headMsg, head, hasHead := cosigned.value, cp.value, true;
      signed := signed + [Signature(n.value.text, cp.value)];
      r := Ok(cosigned.value);
    }
  }

  // ------------------------------------------------------- what is answered

  /**
    What a call answers, for a message the operator signed over a checkpoint of
    this log and for any other; and that the head moves only with a signature.
  */
  lemma CosignAnswers(w: Config, h: Head, msg: Bytes, proof: Option<seq<Hash>>)
    ensures var c := CosignSpec(w, h, msg, proof);
            match OpenOperatorCheckpoint(msg, w.origin, w.operator)
            case None => c.result in {Err(NoteError), Err(ParseError), Err(OriginMismatch)} && c.head == h
            case Some(cp) =>
              && (c.result == Err(Rollback) <==> h.Head? && cp.tree.n < h.cp.tree.n)
              && (forall e :: c.result == Err(Equivocated(e)) <==>
                    && h.Head? && cp.tree.n == h.cp.tree.n && cp.tree.hash != h.cp.tree.hash
                    && e == Equivocation(h.msg, msg))
              && (c.result == Err(SourceStale) <==> MustGrow(h, cp) && proof.None?)
              && (c.result == Err(CheckFailed) <==> MustGrow(h, cp) && proof.Some? && !Grown(h, cp, proof))
              && (c.result.Ok? <==> Takes(h, cp, proof) && ValidName(w.signer.id.name))
              && c.head == if c.result.Ok? then Head(c.result.value, cp) else h
  {
    match OpenOperatorCheckpoint(msg, w.origin, w.operator)
    case None =>
    case Some(cp) =>
      CosignOfOpened(w, h, msg, proof, cp);
      RefusesExactly(h, cp, msg, proof);
  }

  lemma CosignOfOpened(w: Config, h: Head, msg: Bytes, proof: Option<seq<Hash>>, cp: Checkpoint)
    requires OpenOperatorCheckpoint(msg, w.origin, w.operator) == Some(cp)
    ensures var c, e := CosignSpec(w, h, msg, proof), Refusal(h, cp, msg, proof);
            && (e.Some? ==> c.result == Err(e.value) && c.head == h)
            && (e.None? ==> (if ValidName(w.signer.id.name) then c.result.Ok? else c.result == Err(SignFailed)))
            && (c.result.Ok? ==> c.head == Head(c.result.value, cp))
            && (e.None? && c.result.Err? ==> c.head == h)
  {
    SignsExactly(w, msg, NoteOpen(msg, [w.operator]).value);
  }

  lemma SignsExactly(w: Config, msg: Bytes, n: Note)
    requires NoteOpen(msg, [w.operator]) == Some(n)
    ensures NoteSign(KeepUnknown(n), w.signer).Some? <==> ValidName(w.signer.id.name)
  {
    var (text, lines) := NoteParts(msg).value;
    PartsAssemble(msg);
    VerifiedFirst(lines, [w.operator], {});
  }

  lemma RefusesExactly(h: Head, cp: Checkpoint, msg: Bytes, proof: Option<seq<Hash>>)
    ensures var e := Refusal(h, cp, msg, proof);
            && (e == Some(Rollback) <==> h.Head? && cp.tree.n < h.cp.tree.n)
            && (forall x :: e == Some(Equivocated(x)) <==>
                  && h.Head? && cp.tree.n == h.cp.tree.n && cp.tree.hash != h.cp.tree.hash
                  && x == Equivocation(h.msg, msg))
            && (e == Some(SourceStale) <==> MustGrow(h, cp) && proof.None?)
            && (e == Some(CheckFailed) <==> MustGrow(h, cp) && proof.Some? && !Grown(h, cp, proof))
            && (e.None? <==> Takes(h, cp, proof))
            && e != Some(SignFailed)
  {
  }

  // ------------------------------------------------------- the signed chain

  ghost predicate SignedChain(signed: seq<Signature>, h: Head) {
    && (forall i, j :: 0 <= i < j < |signed| ==> Prefix(signed[i].cp.tree, signed[j].cp.tree))
    && (signed == [] <==> h.NoHead?)
    && (signed != [] ==> signed[|signed| - 1].cp == h.cp)
  }

  lemma NotRefusedExtends(h: Head, cp: Checkpoint, msg: Bytes, proof: Option<seq<Hash>>)
    requires h.Head? && Refusal(h, cp, msg, proof).None?
    ensures Prefix(h.cp.tree, cp.tree)
  {
    if proof.Some? && CheckTree(proof.value, cp.tree.n, cp.tree.hash, h.cp.tree.n, h.cp.tree.hash) {
      CheckTreeExactly(cp.tree.n, cp.tree.hash, h.cp.tree.n, h.cp.tree.hash);
    }
  }

  /** What a call signs is the text of its new head, which extends the old one. */
  lemma CosignFacts(w: Config, h: Head, msg: Bytes, proof: Option<seq<Hash>>)
    ensures var c := CosignSpec(w, h, msg, proof);
            && (c.signed.None? ==> c.head == h)
            && (c.signed.Some? ==>
                  && c.head.Head? && c.head.cp == c.signed.value.cp
                  && ParseCheckpoint(c.signed.value.text) == Some(c.head.cp)
                  && c.head.cp.origin == w.origin
                  && (h.Head? ==> Prefix(h.cp.tree, c.head.cp.tree)))
  {
    var c := CosignSpec(w, h, msg, proof);
    if c.signed.Some? && h.Head? {
      NotRefusedExtends(h, c.head.cp, msg, proof);
    }
  }

  lemma ExtendChain(signed: seq<Signature>, h: Head, s: Signature, h': Head)
    requires SignedChain(signed, h) && h'.Head? && s.cp == h'.cp
    requires h.Head? ==> Prefix(h.cp.tree, h'.cp.tree)
    ensures SignedChain(signed + [s], h')
  {
    forall i | 0 <= i < |signed| ensures Prefix(signed[i].cp.tree, s.cp.tree) {
      if i < |signed| - 1 {
        PrefixTransitive(signed[i].cp.tree, h.cp.tree, s.cp.tree);
      }
    }
  }

  function Log(c: Cosigned): seq<Signature> {
    if c.signed.Some? then [c.signed.value] else []
  }

  /** The next signature joins the chain: the invariant of every run of Cosign. */
  lemma CosignKeepsChain(w: Config, h: Head, msg: Bytes, proof: Option<seq<Hash>>, signed: seq<Signature>)
    requires SignedChain(signed, h)
    ensures var c := CosignSpec(w, h, msg, proof); SignedChain(signed + Log(c), c.head)
  {
    CosignFacts(w, h, msg, proof);
    var c := CosignSpec(w, h, msg, proof);
    if c.signed.Some? {
      ExtendChain(signed, h, c.signed.value, c.head);
    } else {
      Units(signed);
    }
  }

  /** Everything a run of Cosign signs, oldest first, and the final head. */
  function RunCosign(w: Config, h: Head, calls: seq<Call>): (Head, seq<Signature>)
    decreases |calls|
  {
    if calls == [] then (h, []) else
      var c := CosignSpec(w, h, calls[0].msg, calls[0].proof);
      var rest := RunCosign(w, c.head, calls[1..]);
      (rest.0, Log(c) + rest.1)
  }

  lemma {:induction false} RunExtendsChain(w: Config, h: Head, calls: seq<Call>, signed: seq<Signature>)
    requires SignedChain(signed, h)
    ensures var r := RunCosign(w, h, calls); SignedChain(signed + r.1, r.0)
    decreases |calls|
  {
    if calls == [] {
      Units(signed);
    } else {
      var c := CosignSpec(w, h, calls[0].msg, calls[0].proof);
      var log, rest := Log(c), RunCosign(w, c.head, calls[1..]);
      CosignKeepsChain(w, h, calls[0].msg, calls[0].proof, signed);
      RunExtendsChain(w, c.head, calls[1..], signed + log);
      Assoc(signed, log, rest.1);
    }
  }

  /**
    Over every run of a witness, on any messages and any source: of two trees it
    signed, the earlier is a prefix of the later one, equal sizes have equal
    hashes, and nothing smaller is ever signed after something larger.
  */
  lemma OneWitnessOneChain(w: Config, calls: seq<Call>, i: nat, j: nat)
    requires i < j < |RunCosign(w, NoHead, calls).1|
    ensures var a, b := RunCosign(w, NoHead, calls).1[i].cp.tree, RunCosign(w, NoHead, calls).1[j].cp.tree;
            && Prefix(a, b) && a.n <= b.n && (a.n == b.n ==> a == b)
  {
    RunIsChain(w, calls);
  }

  lemma RunIsChain(w: Config, calls: seq<Call>)
    ensures var r := RunCosign(w, NoHead, calls); SignedChain(r.1, r.0)
  {
    var r := RunCosign(w, NoHead, calls);
    RunExtendsChain(w, NoHead, calls, []);
    Units(r.1);
  }

  // ------------------------------------------------------ the cosigned note

  /** The witness signature does not spoil the note for those who check the operator. */
  predicate Compatible(w: Config) {
    Clean(w.signer.id.name) && (w.signer.id == w.operator.id ==> w.signer.key == w.operator.key)
  }

  lemma {:induction false} FirstByDropped(lines: seq<SigLine>, drop: KeyId, id: KeyId)
    requires drop != id
    ensures FirstBy(DropBy(lines, drop), id) == FirstBy(lines, id)
  {
    if lines != [] {
      FirstByDropped(lines[1..], drop, id);
    }
  }

  lemma {:induction false} VerifiedFirst(lines: seq<SigLine>, known: seq<Verifier>, seen: set<KeyId>)
    ensures forall l :: l in VerifiedLines(lines, known, seen) ==> l in lines
    ensures forall l :: l in UnverifiedLines(lines, known, {}) ==> l in lines
  {
    VerifiedAreFirst(lines, known, seen);
    UnverifiedAreLines(lines, known, {});
  }

  lemma {:induction false} UnverifiedAreLines(lines: seq<SigLine>, known: seq<Verifier>, seen: set<SigLine>)
    ensures forall l :: l in UnverifiedLines(lines, known, seen) ==> l in lines && FindVerifier(known, l.id).None?
  {
    if lines != [] {
      UnverifiedAreLines(lines[1..], known, seen);
      UnverifiedAreLines(lines[1..], known, seen + {lines[0]});
    }
  }

  /** The lines of a cosigned note, and the first one of the operator. */
  lemma CosignedLines(w: Config, text: Bytes, lines: seq<SigLine>, n: Note)
    requires OpenLines(text, lines, [w.operator]) == Some(n)
    ensures n.text == text
    ensures var out := SignedLines(KeepUnknown(n), w.signer);
            && (forall l :: l in out ==> l in lines || l.id == w.signer.id)
            && FirstBy(out, w.operator.id).Some?
            && (w.operator.Verify(text, FirstBy(out, w.operator.id).value.sig) <==>
                  (w.signer.id == w.operator.id ==> w.signer.key == w.operator.key))
  {
    VerifiedFirst(lines, [w.operator], {});
    OpenLinesExactly(text, lines, [w.operator]);
    var kept := n.sigs + n.unverified + [];
    var mine := SigLine(w.signer.id, w.signer.Sign(text));
    var id := w.operator.id;
    FirstByAppend(DropBy(kept, w.signer.id), [mine], id);
    assert FirstBy([mine], w.signer.id) == Some(mine);
    if w.signer.id != id {
      var v := FirstBy(lines, id).value;
      assert w.operator in [w.operator] && Known([w.operator], id);
      assert v in n.sigs;
      FirstByDropped(kept, w.signer.id, id);
      OnlyOne(n.sigs, n.unverified, v);
      assert kept == n.sigs + n.unverified;
    }
  }

  /** The operator's verified line is the only line of its key that is kept. */
  lemma OnlyOne(sigs: seq<SigLine>, unverified: seq<SigLine>, v: SigLine)
    requires v in sigs && forall l :: l in sigs && l.id == v.id ==> l == v
    ensures FirstBy(sigs + unverified, v.id) == Some(v)
  {
    FirstByAppend(sigs, unverified, v.id);
  }

  /** A cosigned note still proves what the operator signed, the line cap aside. */
  lemma CosignedIsEvidence(w: Config, h: Head, msg: Bytes, proof: Option<seq<Hash>>)
    requires CosignSpec(w, h, msg, proof).result.Ok?
    ensures var c := CosignSpec(w, h, msg, proof);
            && c.head == Head(c.result.value, c.head.cp)
            && (Evidence(c.result.value, w.origin, w.operator, c.head.cp) <==> Compatible(w))
  {
    var c := CosignSpec(w, h, msg, proof);
    CosignShape(w, h, msg, proof);
    var (text, lines) := NoteParts(msg).value;
    CosignedEvidence(w, msg, text, lines, OpenLines(text, lines, [w.operator]).value, c.result.value, c.head.cp);
  }

  /** A successful call opened the note, found a checkpoint of its log, and signed it. */
  lemma CosignShape(w: Config, h: Head, msg: Bytes, proof: Option<seq<Hash>>)
    requires CosignSpec(w, h, msg, proof).result.Ok?
    ensures NoteParts(msg).Some?
    ensures var c := CosignSpec(w, h, msg, proof);
            var (text, lines) := NoteParts(msg).value;
            && OpenLines(text, lines, [w.operator]).Some?
            && ParseCheckpoint(text) == Some(c.head.cp) && c.head.cp.origin == w.origin
            && NoteSign(KeepUnknown(OpenLines(text, lines, [w.operator]).value), w.signer) == Some(c.result.value)
            && c.head == Head(c.result.value, c.head.cp)
  {
  }

  lemma CosignedEvidence(w: Config, msg: Bytes, text: Bytes, lines: seq<SigLine>, n: Note, m: Bytes, cp: Checkpoint)
    requires NoteParts(msg) == Some((text, lines)) && OpenLines(text, lines, [w.operator]) == Some(n)
    requires ParseCheckpoint(text) == Some(cp) && cp.origin == w.origin
    requires NoteSign(KeepUnknown(n), w.signer) == Some(m)
    ensures Evidence(m, w.origin, w.operator, cp) <==> Compatible(w)
  {
    CosignedLines(w, text, lines, n);
    CosignedParts(w, msg, text, lines, n, m);
    if Clean(w.signer.id.name) {
      EvidenceOfParts(m, text, SignedLines(KeepUnknown(n), w.signer), w.origin, w.operator, cp);
    }
  }

  lemma EvidenceOfParts(m: Bytes, text: Bytes, lines: seq<SigLine>, origin: Bytes, operator: Verifier, cp: Checkpoint)
    requires NoteParts(m) == Some((text, lines))
    requires ParseCheckpoint(text) == Some(cp) && cp.origin == origin
    ensures Evidence(m, origin, operator, cp) <==>
              FirstBy(lines, operator.id).Some? && operator.Verify(text, FirstBy(lines, operator.id).value.sig)
  {
    OpenLinesExactly(text, lines, [operator]);
    assert operator in [operator];
  }

  lemma CosignedParts(w: Config, msg: Bytes, text: Bytes, lines: seq<SigLine>, n: Note, m: Bytes)
    requires NoteParts(msg) == Some((text, lines)) && OpenLines(text, lines, [w.operator]) == Some(n)
    requires NoteSign(KeepUnknown(n), w.signer) == Some(m)
    ensures var out := SignedLines(KeepUnknown(n), w.signer);
            if Clean(w.signer.id.name) then NoteParts(m) == Some((text, out)) else NoteParts(m).None?
  {
    PartsAssemble(msg);
    CleanNamesOfParts(msg);
    CosignedLines(w, text, lines, n);
    var out := SignedLines(KeepUnknown(n), w.signer);
    assert m == Assemble(text, out);
    if Clean(w.signer.id.name) {
      AssembleParts(text, out);
    } else {
      var mine := out[|out| - 1];
      assert mine.id == w.signer.id;
      NameInLines(out, mine);
      assert !Clean(m) by {
        var name := mine.id.name;
        var i :| 0 <= i < |name| && name[i].Byte? && !(name[i].b >= 32 || name[i].b == 10);
        var s := name[i];
        assert s in m;
      }
    }
  }

  lemma {:induction false} NameInLines(lines: seq<SigLine>, l: SigLine)
    requires l in lines
    ensures forall s :: s in l.id.name ==> s in JoinLines(FormatSigLines(lines))
  {
    assert FormatSigLines(lines)[1..] == FormatSigLines(lines[1..]);
    if lines[0] == l {
      assert forall s :: s in l.id.name ==> s in FormatSigLine(l);
    } else {
      NameInLines(lines[1..], l);
    }
  }

  ghost predicate WitnessHeadValid(w: Config, h: Head) {
    h.Head? ==> Evidence(h.msg, w.origin, w.operator, h.cp)
  }

  lemma CosignKeepsEvidence(w: Config, h: Head, msg: Bytes, proof: Option<seq<Hash>>)
    requires Compatible(w) && WitnessHeadValid(w, h)
    ensures WitnessHeadValid(w, CosignSpec(w, h, msg, proof).head)
  {
    if CosignSpec(w, h, msg, proof).result.Ok? {
      CosignedIsEvidence(w, h, msg, proof);
    } else {
      RefusalKeepsHead(w, h, msg, proof);
    }
  }

  lemma RefusalKeepsHead(w: Config, h: Head, msg: Bytes, proof: Option<seq<Hash>>)
    requires CosignSpec(w, h, msg, proof).result.Err?
    ensures CosignSpec(w, h, msg, proof).head == h
  {
  }

  /**
    Every equivocation a witness reports against a head it cosigned itself comes
    with a proof that verifies exactly when the head note has at most 100 lines.
  */
  lemma WitnessEquivocationVerifies(w: Config, h: Head, msg: Bytes, proof: Option<seq<Hash>>, e: Equivocation)
    requires WitnessHeadValid(w, h)
    requires CosignSpec(w, h, msg, proof).result == Err(Equivocated(e))
    ensures h.Head? && e == Equivocation(h.msg, msg)
    ensures VerifyEquivocation(e, w.origin, w.operator) == Some(h.cp.tree.n) <==> LineCount(h.msg) <= MAX_SIGNATURES
    ensures MarshalBinary(e).Some?
    ensures Wire.Sized(h.msg) && Wire.Sized(msg) ==> UnmarshalBinary(MarshalBinary(e).value) == Some(e)
  {
    var n := NoteOpen(msg, [w.operator]).value;
    var cp := ParseCheckpoint(n.text).value;
    ConflictVerifies(h.msg, msg, w.origin, w.operator, h.cp, cp);
    if Wire.Sized(h.msg) && Wire.Sized(msg) {
      UnmarshalMarshal(e);
    }
  }

  /** What a witness reports is a conflict between two checkpoints the operator signed. */
  lemma WitnessReportsConflict(w: Config, h: Head, msg: Bytes, proof: Option<seq<Hash>>, e: Equivocation)
    requires WitnessHeadValid(w, h)
    requires CosignSpec(w, h, msg, proof).result == Err(Equivocated(e))
    ensures h.Head? && e == Equivocation(h.msg, msg) && Conflict(e, w.origin, w.operator)
  {
    var cp := ParseCheckpoint(NoteOpen(msg, [w.operator]).value.text).value;
    assert OpenOperatorCheckpoint(msg, w.origin, w.operator) == Some(cp);
    OpenedIsEvidence(msg, w.origin, w.operator);
    assert ConflictOver(e, w.origin, w.operator, h.cp, cp);
  }
}
