/** Equivocation proofs: encoding, decoding and verification. */
module Equivocations {
  import opened Wrappers
  import opened Symbols
  import opened Notes
  import opened Checkpoints
  import opened Merging
  import opened Wire

  /** Two signed checkpoint messages that contradict each other. */
  datatype Equivocation = Equivocation(first: Bytes, second: Bytes)

  function MarshalBinary(e: Equivocation): Option<Bytes> {
    if e.first == [] || e.second == [] then None
    else Some(Uvarint(|e.first|) + e.first + Uvarint(|e.second|) + e.second)
  }

  function UnmarshalBinary(data: Bytes): Option<Equivocation> {
    match ReadField(data)
    case None => None
    case Some((first, rest)) =>
      match ReadField(rest)
      case None => None
      case Some((second, rest')) => if rest' != [] then None else Some(Equivocation(first, second))
  }

  lemma UnmarshalMarshal(e: Equivocation)
    requires MarshalBinary(e).Some? && Sized(e.first) && Sized(e.second)
    ensures UnmarshalBinary(MarshalBinary(e).value) == Some(e)
  {
    var data := MarshalBinary(e).value;
    assert data == Field(e.first) + (Field(e.second) + []);
    ReadFieldWritten(e.first, Field(e.second) + []);
    ReadFieldWritten(e.second, []);
  }

  /** These bytes are the encoding of whatever proof they decode to. */
  predicate Canonical(data: Bytes) {
    UnmarshalBinary(data).Some? ==> MarshalBinary(UnmarshalBinary(data).value) == Some(data)
  }

  /** A length over 64 bits is not read back, and any other one is. */
  lemma ReadFieldOf(f: Bytes, rest: Bytes)
    ensures ReadField(Field(f) + rest) == if |f| <= Decimal.UINT64_MAX then Some((f, rest)) else None
  {
    var data, size := Field(f) + rest, |Uvarint(|f|)|;
    assert data == Uvarint(|f|) + (f + rest);
    if |f| <= Decimal.UINT64_MAX {
      ReadUvarintWritten(|f|, f + rest);
      assert data[size..size + |f|] == f && data[size + |f|..] == rest;
    } else {
      RoomIs64Bits();
      ReadTooBig(|f|, f + rest, 0);
    }
  }

  lemma MarshalIsCanonical(e: Equivocation)
    requires MarshalBinary(e).Some?
    ensures Canonical(MarshalBinary(e).value)
  {
    assert MarshalBinary(e).value == Field(e.first) + (Field(e.second) + []);
    ReadFieldOf(e.first, Field(e.second) + []);
    ReadFieldOf(e.second, []);
  }

  /** Two encodings of one proof are equal if both are canonical. */
  lemma CanonicalDecides(a: Bytes, b: Bytes)
    requires UnmarshalBinary(a).Some? && UnmarshalBinary(a) == UnmarshalBinary(b)
    requires Canonical(a) && Canonical(b)
    ensures a == b
  {
  }

  lemma CanonicalIsMarshal(data: Bytes, made: Bytes, e: Equivocation)
    requires UnmarshalBinary(data) == Some(e) && MarshalBinary(e) == Some(made)
    ensures Canonical(data) <==> data == made
  {
  }

  /** The proof with the first length written with a byte too many. */
  function Padded(e: Equivocation): Bytes {
    PaddedUvarint(|e.first|) + e.first + Field(e.second)
  }

  /** Every proof has an encoding that is accepted and is not canonical. */
  lemma PaddedDecodes(e: Equivocation)
    requires Sized(e.first) && Sized(e.second) && MarshalBinary(e).Some?
    ensures UnmarshalBinary(Padded(e)) == Some(e) && !Canonical(Padded(e))
    ensures Padded(e) != [] && Padded(e) != MarshalBinary(e).value
  {
    var data, size := Padded(e), |PaddedUvarint(|e.first|)|;
    var rest := e.first + Field(e.second);
    assert data == PaddedUvarint(|e.first|) + rest;
    ReadPadded(|e.first|, rest);
    assert data[size..size + |e.first|] == e.first && data[size + |e.first|..] == Field(e.second) + [];
    ReadFieldWritten(e.second, []);
    assert |data| == |MarshalBinary(e).value| + 1;
  }

  // ----------------------------------------------------------- sending each once

  /** What was sent before, then of what comes each string of bytes at its first occurrence. */
  function EachFirst(sent: seq<Bytes>, offered: seq<Bytes>): seq<Bytes>
    decreases |offered|
  {
    if offered == [] then sent
    else EachFirst(if offered[0] in sent then sent else sent + [offered[0]], offered[1..])
  }

  lemma {:induction false} EachFirstFacts(sent: seq<Bytes>, offered: seq<Bytes>)
    requires forall i, j :: 0 <= i < j < |sent| ==> sent[i] != sent[j]
    ensures var r := EachFirst(sent, offered);
            && (forall d :: d in r <==> d in sent || d in offered)
            && forall i, j :: 0 <= i < j < |r| ==> r[i] != r[j]
    decreases |offered|
  {
    if offered != [] {
      EachFirstFacts(if offered[0] in sent then sent else sent + [offered[0]], offered[1..]);
      assert forall d :: d in offered <==> d == offered[0] || d in offered[1..];
    }
  }

  lemma {:induction false} EachFirstConcat(sent: seq<Bytes>, xs: seq<Bytes>, ys: seq<Bytes>)
    ensures EachFirst(sent, xs + ys) == EachFirst(EachFirst(sent, xs), ys)
    decreases |xs|
  {
    if xs == [] {
      assert xs + ys == ys;
    } else {
      assert (xs + ys)[1..] == xs[1..] + ys;
      EachFirstConcat(if xs[0] in sent then sent else sent + [xs[0]], xs[1..], ys);
    }
  }

  /** No proof is among these twice. */
  ghost predicate ProofsOnce(sent: seq<Bytes>) {
    forall i, j :: 0 <= i < j < |sent| && UnmarshalBinary(sent[i]).Some? ==>
      UnmarshalBinary(sent[i]) != UnmarshalBinary(sent[j])
  }

  /** No proof is among these in two encodings. */
  ghost predicate OneEncodingEach(offered: seq<Bytes>) {
    forall a, b :: a in offered && b in offered ==>
      UnmarshalBinary(a).Some? && UnmarshalBinary(a) == UnmarshalBinary(b) ==> a == b
  }

  lemma OnceExactly(offered: seq<Bytes>)
    ensures ProofsOnce(EachFirst([], offered)) <==> OneEncodingEach(offered)
  {
    var sent := EachFirst([], offered);
    EachFirstFacts([], offered);
    if ProofsOnce(sent) {
      forall a, b | a in offered && b in offered && UnmarshalBinary(a).Some? && UnmarshalBinary(a) == UnmarshalBinary(b)
        ensures a == b
      {
        assert a in sent && b in sent;
        var i :| 0 <= i < |sent| && sent[i] == a;
        var j :| 0 <= j < |sent| && sent[j] == b;
        assert i == j;
      }
    }
    if OneEncodingEach(offered) {
      forall i, j | 0 <= i < j < |sent| && UnmarshalBinary(sent[i]).Some?
        ensures UnmarshalBinary(sent[i]) != UnmarshalBinary(sent[j])
      {
        assert sent[i] in sent && sent[j] in sent;
      }
    }
  }

  /** openOperatorCheckpoint */
  function OpenOperatorCheckpoint(msg: Bytes, origin: Bytes, operator: Verifier): Option<Checkpoint> {
    match NoteOpen(msg, [operator])
    case None => None
    case Some(n) =>
      match ParseCheckpoint(n.text)
      case None => None
      case Some(c) => if c.origin != origin then None else Some(c)
  }

  /** The equivocated tree size if the proof verifies. */
  function VerifyEquivocation(e: Equivocation, origin: Bytes, operator: Verifier): Option<nat> {
    match (OpenOperatorCheckpoint(e.first, origin, operator), OpenOperatorCheckpoint(e.second, origin, operator))
    case (Some(a), Some(b)) => if a.tree.n != b.tree.n || a.tree.hash == b.tree.hash then None else Some(a.tree.n)
    case _ => None
  }

  /** The operator signed checkpoint c in this message; the line cap aside. */
  ghost predicate Evidence(msg: Bytes, origin: Bytes, operator: Verifier, c: Checkpoint) {
    && OpensUncapped(msg, [operator])
    && ParseCheckpoint(NoteParts(msg).value.0) == Some(c)
    && c.origin == origin
  }

  /** Evidence opens exactly when the message has at most 100 signature lines. */
  lemma EvidenceOpens(msg: Bytes, origin: Bytes, operator: Verifier, c: Checkpoint)
    requires Evidence(msg, origin, operator, c)
    ensures OpenOperatorCheckpoint(msg, origin, operator)
            == if LineCount(msg) <= MAX_SIGNATURES then Some(c) else None
    ensures msg != []
  {
  }

  /** A message that opens under a list that holds the operator opens under the operator alone. */
  lemma OpensForOperator(msg: Bytes, known: seq<Verifier>, operator: Verifier)
    requires DistinctIds(known) && operator in known
    requires OpensUncapped(msg, known) && Carries(msg, operator.id)
    ensures OpensUncapped(msg, [operator])
  {
    var (text, lines) := NoteParts(msg).value;
    OpenLinesExactly(text, lines, known);
    OpenLinesExactly(text, lines, [operator]);
    assert operator in [operator];
  }

  /** The operator signed two checkpoints of one size with different hashes; the cap on the first message aside. */
  ghost predicate Conflict(e: Equivocation, origin: Bytes, operator: Verifier) {
    LineCount(e.second) <= MAX_SIGNATURES && exists a, b :: ConflictOver(e, origin, operator, a, b)
  }

  ghost predicate ConflictOver(e: Equivocation, origin: Bytes, operator: Verifier, a: Checkpoint, b: Checkpoint) {
    && Evidence(e.first, origin, operator, a) && Evidence(e.second, origin, operator, b)
    && a.tree.n == b.tree.n && a.tree.hash != b.tree.hash
  }

  /** A proof verifies if and only if it is a conflict and the first message is within the cap. */
  lemma VerifiesExactly(e: Equivocation, origin: Bytes, operator: Verifier)
    ensures VerifyEquivocation(e, origin, operator).Some? <==>
              Conflict(e, origin, operator) && LineCount(e.first) <= MAX_SIGNATURES
    ensures Conflict(e, origin, operator) ==> MarshalBinary(e).Some?
  {
    if VerifyEquivocation(e, origin, operator).Some? {
      var a := OpenOperatorCheckpoint(e.first, origin, operator).value;
      var b := OpenOperatorCheckpoint(e.second, origin, operator).value;
      OpenedIsEvidence(e.first, origin, operator);
      OpenedIsEvidence(e.second, origin, operator);
      assert ConflictOver(e, origin, operator, a, b);
    }
    if Conflict(e, origin, operator) {
      var a, b :| ConflictOver(e, origin, operator, a, b);
      ConflictVerifies(e.first, e.second, origin, operator, a, b);
    }
  }

  lemma OpenedIsEvidence(msg: Bytes, origin: Bytes, operator: Verifier)
    requires OpenOperatorCheckpoint(msg, origin, operator).Some?
    ensures LineCount(msg) <= MAX_SIGNATURES
    ensures Evidence(msg, origin, operator, OpenOperatorCheckpoint(msg, origin, operator).value)
  {
  }

  /** Two conflicting pieces of evidence make a proof that verifies exactly when both stay short. */
  lemma ConflictVerifies(a: Bytes, b: Bytes, origin: Bytes, operator: Verifier, ca: Checkpoint, cb: Checkpoint)
    requires Evidence(a, origin, operator, ca) && Evidence(b, origin, operator, cb)
    requires ca.tree.n == cb.tree.n && ca.tree.hash != cb.tree.hash
    ensures VerifyEquivocation(Equivocation(a, b), origin, operator) == Some(ca.tree.n)
            <==> LineCount(a) <= MAX_SIGNATURES && LineCount(b) <= MAX_SIGNATURES
    ensures MarshalBinary(Equivocation(a, b)).Some?
  {
    EvidenceOpens(a, origin, operator, ca);
    EvidenceOpens(b, origin, operator, cb);
  }
}
