/** Policies: which signed checkpoints a client accepts. */
module Policies {
  import opened Wrappers
  import opened Symbols
  import opened Notes
  import opened Checkpoints
  import opened Merging
  import opened Equivocations

  datatype Error =
    | InvalidPolicy
    | NoteError
    | ParseError
    | OriginMismatch
    | MissingOperator
    | WitnessThreshold
    | Rollback
    | Equivocated(proof: Equivocation)
    | SourceStale
    | CheckFailed
    | NoCheckpoint
    | OutOfRange
    | SignFailed

  datatype Policy = Policy(origin: Bytes, operator: Verifier, witnesses: seq<Verifier>, k: nat) {
    function Verifiers(): seq<Verifier> { [operator] + witnesses }

    /** What NewPolicy guarantees. */
    predicate Valid() {
      ValidOrigin(origin) && k <= |witnesses| && DistinctIds(Verifiers())
    }
  }

  // ---------------------------------------------------------------- key ids

  function HexDigit(d: nat): Sym
    requires d < 16
  {
    Byte(if d < 10 then 48 + d else 87 + d)
  }

  function Pow16(w: nat): (p: nat) ensures p >= 1 { if w == 0 then 1 else 16 * Pow16(w - 1) }

  function Hex(n: nat, w: nat): (r: Bytes)
    requires n < Pow16(w)
    ensures |r| == w
  {
    if w == 0 then [] else Hex(n / 16, w - 1) + [HexDigit(n % 16)]
  }

  /** keyID and sigID: name, plus sign, key hash in eight hex digits. */
  function KeyString(id: KeyId): Bytes {
    assert Pow16(8) == 0x1_0000_0000 by { Pow16Eight(); }
    id.name + [Byte(43)] + Hex(id.hash, 8)
  }

  lemma Pow16Eight()
    ensures Pow16(8) == 0x1_0000_0000
  {
    assert Pow16(2) == 256 && Pow16(4) == 0x1_0000 && Pow16(6) == 0x100_0000;
  }

  lemma {:induction false} HexInjective(m: nat, n: nat, w: nat)
    requires m < Pow16(w) && n < Pow16(w) && Hex(m, w) == Hex(n, w)
    ensures m == n
  {
    if w > 0 {
      var a, b := Hex(m, w), Hex(n, w);
      assert a[..w - 1] == Hex(m / 16, w - 1) && b[..w - 1] == Hex(n / 16, w - 1);
      assert a[w - 1] == HexDigit(m % 16) && b[w - 1] == HexDigit(n % 16);
      HexInjective(m / 16, n / 16, w - 1);
    }
  }

  /** The printed key id determines name and hash, whatever the name contains. */
  lemma KeyStringInjective(a: KeyId, b: KeyId)
    requires KeyString(a) == KeyString(b)
    ensures a == b
  {
    Pow16Eight();
    var s, t := KeyString(a), KeyString(b);
    assert |a.name| == |b.name|;
    assert s[..|a.name|] == a.name && t[..|b.name|] == b.name;
    assert s[|a.name| + 1..] == Hex(a.hash, 8) && t[|b.name| + 1..] == Hex(b.hash, 8);
    HexInjective(a.hash, b.hash, 8);
  }

  /** NewPolicy; a nil verifier is None. */
  method NewPolicy(origin: Bytes, operator: Option<Verifier>, witnesses: seq<Option<Verifier>>, k: int)
    returns (r: Result<Policy, Error>)
    ensures r.Ok? <==>
              && ValidOrigin(origin) && operator.Some? && 0 <= k <= |witnesses|
              && (forall i :: 0 <= i < |witnesses| ==> witnesses[i].Some?)
              && (forall i :: 0 <= i < |witnesses| ==> witnesses[i].value.id != operator.value.id)
              && (forall i, j :: 0 <= i < j < |witnesses| ==> witnesses[i].value.id != witnesses[j].value.id)
    ensures r.Ok? ==>
              && r.value.Valid()
              && r.value.origin == origin && r.value.operator == operator.value && r.value.k == k
              && |r.value.witnesses| == |witnesses|
              && (forall i :: 0 <= i < |witnesses| ==> r.value.witnesses[i] == witnesses[i].value)
  {
    if !ValidOrigin(origin) || operator.None? || k < 0 || k > |witnesses| {
      return Err(InvalidPolicy);
    }
    var keys := {KeyString(operator.value.id)};
    var ws: seq<Verifier> := [];
    for i := 0 to |witnesses|
      invariant |ws| == i
      invariant forall j :: 0 <= j < i ==> witnesses[j].Some? && ws[j] == witnesses[j].value
      invariant forall s :: s in keys <==>
                  s == KeyString(operator.value.id) || exists j :: 0 <= j < i && s == KeyString(ws[j].id)
      invariant forall j :: 0 <= j < i ==> ws[j].id != operator.value.id
      invariant forall j, l :: 0 <= j < l < i ==> ws[j].id != ws[l].id
    {
      if witnesses[i].None? {
        return Err(InvalidPolicy);
      }
      var w := witnesses[i].value;
      var id := KeyString(w.id);
      if id in keys {
        if id == KeyString(operator.value.id) {
          KeyStringInjective(w.id, operator.value.id);
        } else {
          var j :| 0 <= j < i && id == KeyString(ws[j].id);
          KeyStringInjective(w.id, ws[j].id);
        }
        return Err(InvalidPolicy);
      }
      ws := ws + [w];
      keys := keys + {id};
    }
    r := Ok(Policy(origin, operator.value, ws, k));
  }

  // ---------------------------------------------------------------- opening

  /** How many of the verifiers have their key in the set. */
  function Count(ws: seq<Verifier>, ids: set<KeyId>): (c: nat)
    ensures c <= |ws|
  {
    if ws == [] then 0 else (if ws[0].id in ids then 1 else 0) + Count(ws[1..], ids)
  }

  function Ids(lines: seq<SigLine>): set<KeyId> {
    set l | l in lines :: l.id
  }

  /** Policy.Open as a function; the method below is proved equal to it. */
  function PolicyOpen(p: Policy, msg: Bytes): Result<Checkpoint, Error>
    requires p.Valid()
  {
    match NoteOpen(msg, p.Verifiers())
    case None => Err(NoteError)
    case Some(n) =>
      match ParseCheckpoint(n.text)
      case None => Err(ParseError)
      case Some(c) =>
        if c.origin != p.origin then Err(OriginMismatch)
        else if p.operator.id !in Ids(n.sigs) then Err(MissingOperator)
        else if Count(p.witnesses, Ids(n.sigs)) < p.k then Err(WitnessThreshold)
        else Ok(c)
  }

  method Open(p: Policy, msg: Bytes) returns (r: Result<Checkpoint, Error>)
    requires p.Valid()
    ensures r == PolicyOpen(p, msg)
  {
    var n := NoteOpen(msg, p.Verifiers());
    if n.None? {
      return Err(NoteError);
    }
    var c := ParseCheckpoint(n.value.text);
    if c.None? {
      return Err(ParseError);
    }
    if c.value.origin != p.origin {
      return Err(OriginMismatch);
    }
    var signed: set<KeyId> := {};
    for i := 0 to |n.value.sigs|
      invariant signed == Ids(n.value.sigs[..i])
    {
      assert n.value.sigs[..i + 1] == n.value.sigs[..i] + [n.value.sigs[i]];
      signed := signed + {n.value.sigs[i].id};
    }
    assert n.value.sigs[..|n.value.sigs|] == n.value.sigs;
    if p.operator.id !in signed {
      return Err(MissingOperator);
    }
    var cosigned := 0;
    for i := 0 to |p.witnesses|
      invariant cosigned + Count(p.witnesses[i..], signed) == Count(p.witnesses, signed)
    {
      assert p.witnesses[i..][1..] == p.witnesses[i + 1..];
      if p.witnesses[i].id in signed {
        cosigned := cosigned + 1;
      }
    }
    if cosigned < p.k {
      return Err(WitnessThreshold);
    }
    r := Ok(c.value);
  }

  // ------------------------------------------------- what acceptance means

  /** The keys claimed by some signature line of the message. */
  function CarriedIds(msg: Bytes): set<KeyId> {
    match NoteParts(msg)
    case None => {}
    case Some((_, lines)) => Ids(lines)
  }

  /** Everything Policy.Open asks for except the cap on signature lines. */
  ghost predicate Accepts(p: Policy, msg: Bytes, c: Checkpoint)
    requires p.Valid()
  {
    && OpensUncapped(msg, p.Verifiers())
    && ParseCheckpoint(NoteParts(msg).value.0) == Some(c)
    && c.origin == p.origin
    && p.operator.id in CarriedIds(msg)
    && Count(p.witnesses, CarriedIds(msg)) >= p.k
  }

  lemma {:induction false} CountAgrees(ws: seq<Verifier>, a: set<KeyId>, b: set<KeyId>)
    requires forall w :: w in ws ==> (w.id in a <==> w.id in b)
    ensures Count(ws, a) == Count(ws, b)
  {
    if ws != [] {
      assert ws[0] in ws;
      CountAgrees(ws[1..], a, b);
    }
  }

  /** A known key is among the verified ones exactly when some line claims it. */
  lemma VerifiedIffCarried(p: Policy, msg: Bytes, v: Verifier)
    requires p.Valid() && NoteOpen(msg, p.Verifiers()).Some? && v in p.Verifiers()
    ensures v.id in Ids(NoteOpen(msg, p.Verifiers()).value.sigs) <==> v.id in CarriedIds(msg)
  {
    var (text, lines) := NoteParts(msg).value;
    OpenLinesExactly(text, lines, p.Verifiers());
    var sigs := NoteOpen(msg, p.Verifiers()).value.sigs;
    assert Known(p.Verifiers(), v.id);
    if v.id in Ids(lines) {
      var l := FirstBy(lines, v.id).value;
      assert l in sigs;
    }
  }

  /** Policy.Open accepts exactly: the message is acceptable and short enough. */
  lemma PolicyOpenExactly(p: Policy, msg: Bytes, c: Checkpoint)
    requires p.Valid()
    ensures PolicyOpen(p, msg) == Ok(c) <==> Accepts(p, msg, c) && LineCount(msg) <= MAX_SIGNATURES
  {
    var open := NoteOpen(msg, p.Verifiers());
    if open.Some? {
      var sigs := open.value.sigs;
      forall v | v in p.Verifiers() ensures v.id in Ids(sigs) <==> v.id in CarriedIds(msg) {
        VerifiedIffCarried(p, msg, v);
      }
      assert p.operator == p.Verifiers()[0];
      forall w | w in p.witnesses ensures w in p.Verifiers() {
      }
      CountAgrees(p.witnesses, Ids(sigs), CarriedIds(msg));
    }
  }

  /** A threshold or later failure means the operator did sign a checkpoint of this log. */
  lemma ThresholdMeansSigned(p: Policy, msg: Bytes)
    requires p.Valid() && PolicyOpen(p, msg) == Err(WitnessThreshold)
    ensures OpensUncapped(msg, p.Verifiers()) && LineCount(msg) <= MAX_SIGNATURES
    ensures p.operator.id in CarriedIds(msg)
    ensures ParseCheckpoint(NoteParts(msg).value.0).Some?
    ensures ParseCheckpoint(NoteParts(msg).value.0).value.origin == p.origin
  {
    assert p.operator == p.Verifiers()[0];
    VerifiedIffCarried(p, msg, p.operator);
  }

  /** Everything but the threshold: a note of this log that opens and carries the operator's signature. */
  ghost predicate Circulating(p: Policy, msg: Bytes, c: Checkpoint)
    requires p.Valid()
  {
    && OpensUncapped(msg, p.Verifiers())
    && ParseCheckpoint(NoteParts(msg).value.0) == Some(c) && c.origin == p.origin
    && p.operator.id in CarriedIds(msg)
  }

  /** Open complains about the threshold exactly for a note that lacks nothing but cosignatures. */
  lemma BelowThresholdExactly(p: Policy, msg: Bytes)
    requires p.Valid()
    ensures PolicyOpen(p, msg) == Err(WitnessThreshold) <==>
              && (exists c :: Circulating(p, msg, c)) && LineCount(msg) <= MAX_SIGNATURES
              && Count(p.witnesses, CarriedIds(msg)) < p.k
  {
    var open := NoteOpen(msg, p.Verifiers());
    if open.Some? {
      VerifiedIffCarried(p, msg, p.operator);
      VerifiedCountsAgree(p, msg);
      if ParseCheckpoint(open.value.text).Some? {
        var c := ParseCheckpoint(open.value.text).value;
        assert p.operator == p.Verifiers()[0];
        assert (exists x :: Circulating(p, msg, x)) <==> Circulating(p, msg, c);
      }
    }
  }

  lemma VerifiedCountsAgree(p: Policy, msg: Bytes)
    requires p.Valid() && NoteOpen(msg, p.Verifiers()).Some?
    ensures Count(p.witnesses, Ids(NoteOpen(msg, p.Verifiers()).value.sigs)) == Count(p.witnesses, CarriedIds(msg))
  {
    forall w | w in p.witnesses
      ensures w.id in Ids(NoteOpen(msg, p.Verifiers()).value.sigs) <==> w.id in CarriedIds(msg)
    {
      VerifiedIffCarried(p, msg, w);
    }
    CountAgrees(p.witnesses, Ids(NoteOpen(msg, p.Verifiers()).value.sigs), CarriedIds(msg));
  }

  lemma CarriedIsCarries(msg: Bytes, id: KeyId)
    ensures id in CarriedIds(msg) <==> Carries(msg, id)
  {
  }

  /**
    Merging accumulates cosignatures: the merge of two notes over one text meets
    the policy exactly when the union of their signers does and it stays short.
  */
  lemma MergeMeetsPolicy(p: Policy, a: Bytes, b: Bytes, c: Checkpoint)
    requires p.Valid()
    requires OpensUncapped(a, p.Verifiers()) && OpensUncapped(b, p.Verifiers())
    requires NoteParts(a).value.0 == NoteParts(b).value.0
    requires ParseCheckpoint(NoteParts(a).value.0) == Some(c) && c.origin == p.origin
    ensures MergeNotes(a, b).Some?
    ensures CarriedIds(MergeNotes(a, b).value) == CarriedIds(a) + CarriedIds(b)
    ensures Accepts(p, MergeNotes(a, b).value, c) <==>
              && p.operator.id in CarriedIds(a) + CarriedIds(b)
              && Count(p.witnesses, CarriedIds(a) + CarriedIds(b)) >= p.k
    ensures PolicyOpen(p, MergeNotes(a, b).value) == Ok(c) <==>
              Accepts(p, MergeNotes(a, b).value, c) && LineCount(MergeNotes(a, b).value) <= MAX_SIGNATURES
  {
    MergeAccumulates(a, b, p.Verifiers());
    MergeCarriesUnion(a, b);
    PolicyOpenExactly(p, MergeNotes(a, b).value, c);
  }

  lemma MergeCarriesUnion(a: Bytes, b: Bytes)
    requires MergeNotes(a, b).Some?
    requires forall id :: Carries(MergeNotes(a, b).value, id) <==> Carries(a, id) || Carries(b, id)
    ensures CarriedIds(MergeNotes(a, b).value) == CarriedIds(a) + CarriedIds(b)
  {
    var m := MergeNotes(a, b).value;
    forall id ensures id in CarriedIds(m) <==> id in CarriedIds(a) + CarriedIds(b) {
      CarriedIsCarries(m, id);
      CarriedIsCarries(a, id);
      CarriedIsCarries(b, id);
    }
  }

  lemma {:induction false} CountMonotone(ws: seq<Verifier>, a: set<KeyId>, b: set<KeyId>)
    requires a <= b
    ensures Count(ws, a) <= Count(ws, b)
  {
    if ws != [] {
      CountMonotone(ws[1..], a, b);
    }
  }

  /** Merging an acceptable note with any note over its text keeps it acceptable. */
  lemma MergeKeepsAccepted(p: Policy, a: Bytes, b: Bytes, c: Checkpoint)
    requires p.Valid() && Accepts(p, a, c)
    requires OpensUncapped(b, p.Verifiers()) && NoteParts(a).value.0 == NoteParts(b).value.0
    ensures MergeNotes(a, b).Some? && Accepts(p, MergeNotes(a, b).value, c)
  {
    MergeMeetsPolicy(p, a, b, c);
    CountMonotone(p.witnesses, CarriedIds(a), CarriedIds(a) + CarriedIds(b));
  }
}
