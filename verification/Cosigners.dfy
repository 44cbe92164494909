/** Notes that witnesses cosign in turn. */
module Cosigners {
  import opened Wrappers
  import opened Symbols
  import opened Notes
  import opened Checkpoints
  import opened Merging
  import opened Equivocations
  import opened Policies
  import opened Clients
  import opened Witnesses

  // ------------------------------------------------------------- one signature

  function LineOf(w: Config, text: Bytes): SigLine { SigLine(w.signer.id, Sig(w.signer.key, text)) }

  /**
    The signature lines after one cosigning: the witness's own line is the only
    one of its key, the first line of every other key is the one it was, lines of
    keys the witness does not know are all kept, and nothing else is added.
  */
  ghost predicate AddsOne(w: Config, text: Bytes, lines: seq<SigLine>, out: seq<SigLine>) {
    && LineOf(w, text) in out && (forall l :: l in out && l.id == w.signer.id ==> l == LineOf(w, text))
    && (forall id :: id != w.signer.id ==> FirstBy(out, id) == FirstBy(lines, id))
    && (forall l :: l in lines && l.id != w.operator.id && l.id != w.signer.id ==> l in out)
    && (forall l :: l in out ==> l in lines || l == LineOf(w, text))
    && |out| <= |lines| + 1
  }

  lemma {:induction false} UnknownKept(lines: seq<SigLine>, known: seq<Verifier>, seen: set<SigLine>, id: KeyId)
    requires FindVerifier(known, id).None? && forall l :: l in seen ==> l.id != id
    ensures FirstBy(UnverifiedLines(lines, known, seen), id) == FirstBy(lines, id)
  {
    if lines != [] && lines[0].id != id {
      UnknownKept(lines[1..], known, seen, id);
      UnknownKept(lines[1..], known, seen + {lines[0]}, id);
    }
  }

  lemma {:induction false} AllUnknownKept(lines: seq<SigLine>, known: seq<Verifier>, seen: set<SigLine>)
    ensures forall l :: l in lines && FindVerifier(known, l.id).None? ==>
              l in UnverifiedLines(lines, known, seen) || l in seen
  {
    if lines != [] {
      AllUnknownKept(lines[1..], known, seen);
      AllUnknownKept(lines[1..], known, seen + {lines[0]});
      assert forall l :: l in lines <==> l == lines[0] || l in lines[1..];
    }
  }

  lemma {:induction false} NoneTwice(lines: seq<SigLine>, known: seq<Verifier>, ids: set<KeyId>, seen: set<SigLine>)
    ensures |VerifiedLines(lines, known, ids)| + |UnverifiedLines(lines, known, seen)| <= |lines|
  {
    if lines != [] {
      var id := lines[0].id;
      NoneTwice(lines[1..], known, ids, seen);
      NoneTwice(lines[1..], known, ids + {id}, seen);
      NoneTwice(lines[1..], known, ids, seen + {lines[0]});
    }
  }

  /** The lines of the opened note, those of unknown keys after the operator's. */
  ghost predicate Opened(operator: Verifier, lines: seq<SigLine>, kept: seq<SigLine>) {
    && (forall id :: FirstBy(kept, id) == FirstBy(lines, id))
    && (forall l :: l in lines && l.id != operator.id ==> l in kept)
    && (forall l :: l in kept ==> l in lines)
    && |kept| <= |lines|
  }

  lemma OpenedKeeps(operator: Verifier, text: Bytes, lines: seq<SigLine>, n: Note)
    requires OpenLines(text, lines, [operator]) == Some(n)
    ensures Opened(operator, lines, n.sigs + n.unverified)
  {
    VerifiedFirst(lines, [operator], {});
    AllUnknownKept(lines, [operator], {});
    NoneTwice(lines, [operator], {}, {});
    forall id ensures FirstBy(n.sigs + n.unverified, id) == FirstBy(lines, id) {
      FirstOfOpened(operator, text, lines, n, id);
    }
    forall l | l in lines && l.id != operator.id ensures l in n.unverified {
      OnlyOperatorKnown(operator, l.id);
    }
  }

  lemma OnlyOperatorKnown(operator: Verifier, id: KeyId)
    ensures FindVerifier([operator], id).Some? <==> id == operator.id
  {
    assert operator in [operator];
  }

  lemma FirstOfOpened(operator: Verifier, text: Bytes, lines: seq<SigLine>, n: Note, id: KeyId)
    requires OpenLines(text, lines, [operator]) == Some(n)
    ensures FirstBy(n.sigs + n.unverified, id) == FirstBy(lines, id)
  {
    OpenLinesExactly(text, lines, [operator]);
    OnlyOperatorKnown(operator, id);
    FirstByAppend(n.sigs, n.unverified, id);
    if id == operator.id {
      var v := FirstBy(lines, id).value;
      assert operator in [operator] && Known([operator], id);
      assert v in n.sigs;
      OnlyOne(n.sigs, n.unverified, v);
    } else {
      UnknownKept(lines, [operator], {}, id);
    }
  }

  lemma SigningAddsOne(w: Config, text: Bytes, lines: seq<SigLine>, n: Note)
    requires OpenLines(text, lines, [w.operator]) == Some(n)
    ensures n.text == text && AddsOne(w, text, lines, SignedLines(KeepUnknown(n), w.signer))
  {
    var kept, mine := n.sigs + n.unverified, LineOf(w, text);
    OpenLinesExactly(text, lines, [w.operator]);
    OpenedKeeps(w.operator, text, lines, n);
    var out := DropBy(kept, w.signer.id) + [mine];
    assert kept + [] == kept;
    assert SignedLines(KeepUnknown(n), w.signer) == out;
    forall id | id != w.signer.id ensures FirstBy(out, id) == FirstBy(lines, id) {
      FirstByAppend(DropBy(kept, w.signer.id), [mine], id);
      FirstByDropped(kept, w.signer.id, id);
    }
  }

  /**
    What a witness returns, line by line: its own valid signature, every line of
    the message by a key that is neither the operator's nor its own, the first
    line of every other key, and nothing else.
  */
  lemma CosignedCarries(w: Config, h: Head, msg: Bytes, proof: Option<seq<Hash>>)
    requires Compatible(w) && CosignSpec(w, h, msg, proof).result.Ok?
    ensures var m := CosignSpec(w, h, msg, proof).result.value;
            && NoteParts(msg).Some? && NoteParts(m).Some?
            && NoteParts(m).value.0 == NoteParts(msg).value.0
            && AddsOne(w, NoteParts(msg).value.0, NoteParts(msg).value.1, NoteParts(m).value.1)
            && CarriedIds(m) == CarriedIds(msg) + {w.signer.id}
            && LineCount(m) <= LineCount(msg) + 1
  {
    CosignShape(w, h, msg, proof);
    var m := CosignSpec(w, h, msg, proof).result.value;
    var (text, lines) := NoteParts(msg).value;
    var n := OpenLines(text, lines, [w.operator]).value;
    SigningAddsOne(w, text, lines, n);
    CosignedParts(w, msg, text, lines, n, m);
    IdsOfAdded(w, text, lines, NoteParts(m).value.1);
  }

  lemma IdsOfAdded(w: Config, text: Bytes, lines: seq<SigLine>, out: seq<SigLine>)
    requires AddsOne(w, text, lines, out)
    ensures Ids(out) == Ids(lines) + {w.signer.id}
  {
    forall id ensures id in Ids(out) <==> id in Ids(lines) || id == w.signer.id {
      IdsAreFirsts(out, id);
      IdsAreFirsts(lines, id);
      assert LineOf(w, text).id == w.signer.id;
    }
  }

  lemma IdsAreFirsts(lines: seq<SigLine>, id: KeyId)
    ensures id in Ids(lines) <==> FirstBy(lines, id).Some?
  {
  }

  // --------------------------------------------------------- one after the other

  /** One witness's turn: who, its head at that time and what its source gives. */
  datatype Turn = Turn(w: Config, h: Head, proof: Option<seq<Hash>>)

  /** The notes as they are handed on: each witness cosigns what the one before it returned. */
  ghost predicate Handed(turns: seq<Turn>, notes: seq<Bytes>) {
    && |notes| == |turns| + 1
    && forall i :: 0 <= i < |turns| ==> Cosigns(turns[i], notes[i], notes[i + 1])
  }

  ghost predicate Cosigns(t: Turn, msg: Bytes, m: Bytes) {
    CosignSpec(t.w, t.h, msg, t.proof).result == Ok(m)
  }

  /** A witness of this log that the policy lists. */
  ghost predicate Listed(p: Policy, w: Config) {
    && w.operator == p.operator && w.origin == p.origin
    && Clean(w.signer.id.name) && Verifier(w.signer.id, w.signer.key) in p.witnesses
  }

  ghost predicate AllListed(p: Policy, turns: seq<Turn>) {
    forall t :: t in turns ==> Listed(p, t.w)
  }

  function SignerIds(turns: seq<Turn>): set<KeyId> { set t | t in turns :: t.w.signer.id }

  lemma ListedIsCompatible(p: Policy, w: Config)
    requires p.Valid() && Listed(p, w)
    ensures Compatible(w) && w.signer.id != p.operator.id
  {
    var i :| 0 <= i < |p.witnesses| && p.witnesses[i] == Verifier(w.signer.id, w.signer.key);
    assert p.Verifiers()[i + 1].id != p.Verifiers()[0].id;
  }

  /** A verified key's line stays the first, and the witness's own verifies, so the note still opens. */
  lemma StillOpens(p: Policy, w: Config, text: Bytes, lines: seq<SigLine>, out: seq<SigLine>)
    requires p.Valid() && Listed(p, w) && OpenLines(text, lines, p.Verifiers()).Some? && AddsOne(w, text, lines, out)
    ensures OpenLines(text, out, p.Verifiers()).Some?
  {
    var me := Verifier(w.signer.id, w.signer.key);
    assert me in p.Verifiers();
    OpenLinesExactly(text, lines, p.Verifiers());
    OpenLinesExactly(text, out, p.Verifiers());
    IdsAreFirsts(out, me.id);
    forall v | v in p.Verifiers() && FirstBy(out, v.id).Some? ensures v.Verify(text, FirstBy(out, v.id).value.sig) {
      if v.id == me.id {
        SameVerifier(p.Verifiers(), v, me);
      }
    }
  }

  lemma SameVerifier(vs: seq<Verifier>, v: Verifier, w: Verifier)
    requires DistinctIds(vs) && v in vs && w in vs && v.id == w.id
    ensures v == w
  {
    var i :| 0 <= i < |vs| && vs[i] == v;
    var j :| 0 <= j < |vs| && vs[j] == w;
    assert i == j;
  }

  lemma OneTurn(p: Policy, cp: Checkpoint, t: Turn, msg: Bytes, next: Bytes)
    requires p.Valid() && Circulating(p, msg, cp) && Listed(p, t.w) && Cosigns(t, msg, next)
    ensures Circulating(p, next, cp)
    ensures CarriedIds(next) == CarriedIds(msg) + {t.w.signer.id} && LineCount(next) <= LineCount(msg) + 1
  {
    ListedIsCompatible(p, t.w);
    CosignedCarries(t.w, t.h, msg, t.proof);
    StillOpens(p, t.w, NoteParts(msg).value.0, NoteParts(msg).value.1, NoteParts(next).value.1);
  }

  /** One signer more, and one line at most, for any notion of a good note, of its signers and of its length. */
  ghost predicate OneMore(
      good: Bytes -> bool, ids: Bytes -> set<KeyId>, size: Bytes -> nat, a: Bytes, id: KeyId, b: Bytes)
  {
    good(a) ==> good(b) && ids(b) == ids(a) + {id} && size(b) <= size(a) + 1
  }

  lemma {:induction false} AllTurns(
      good: Bytes -> bool, ids: Bytes -> set<KeyId>, size: Bytes -> nat, who: seq<KeyId>, notes: seq<Bytes>, k: nat)
    requires k <= |who| && |notes| == |who| + 1 && good(notes[0])
    requires forall i :: 0 <= i < |who| ==> OneMore(good, ids, size, notes[i], who[i], notes[i + 1])
    ensures good(notes[k]) && size(notes[k]) <= size(notes[0]) + k
    ensures forall id :: id in ids(notes[k]) <==> id in ids(notes[0]) || id in who[..k]
  {
    if k > 0 {
      AllTurns(good, ids, size, who, notes, k - 1);
      assert OneMore(good, ids, size, notes[k - 1], who[k - 1], notes[(k - 1) + 1]);
      assert who[..k] == who[..k - 1] + [who[k - 1]];
    }
  }

  function Who(turns: seq<Turn>): (r: seq<KeyId>)
    ensures |r| == |turns| && forall i :: 0 <= i < |r| ==> r[i] == turns[i].w.signer.id
  {
    seq(|turns|, i requires 0 <= i < |turns| => turns[i].w.signer.id)
  }

  lemma WhoSigned(turns: seq<Turn>, k: nat)
    requires k <= |turns|
    ensures forall id :: id in Who(turns)[..k] <==> id in SignerIds(turns[..k])
  {
    var who, first := Who(turns), turns[..k];
    forall id | id in who[..k] ensures id in SignerIds(first) {
      var i :| 0 <= i < k && who[i] == id;
      assert first[i] in first;
    }
    forall id | id in SignerIds(first) ensures id in who[..k] {
      var i :| 0 <= i < k && first[i].w.signer.id == id;
      assert who[..k][i] == id;
    }
  }

  lemma InTurnSigns(p: Policy, cp: Checkpoint, turns: seq<Turn>, notes: seq<Bytes>, k: nat)
    requires p.Valid() && Handed(turns, notes) && k <= |turns|
    requires Circulating(p, notes[0], cp) && AllListed(p, turns)
    ensures Circulating(p, notes[k], cp)
    ensures CarriedIds(notes[k]) == CarriedIds(notes[0]) + SignerIds(turns[..k])
    ensures LineCount(notes[k]) <= LineCount(notes[0]) + k
  {
    var good, ids, size := b => Circulating(p, b, cp), b => CarriedIds(b), b => LineCount(b);
    forall i | 0 <= i < |turns| ensures OneMore(good, ids, size, notes[i], Who(turns)[i], notes[i + 1]) {
      if Circulating(p, notes[i], cp) {
        assert turns[i] in turns;
        OneTurn(p, cp, turns[i], notes[i], notes[i + 1]);
      }
    }
    AllTurns(good, ids, size, Who(turns), notes, k);
    WhoSigned(turns, k);
    SameSet(ids(notes[k]), ids(notes[0]), SignerIds(turns[..k]));
  }

  lemma SameSet(a: set<KeyId>, b: set<KeyId>, c: set<KeyId>)
    requires forall id :: id in a <==> id in b || id in c
    ensures a == b + c
  {
  }

  /** A witness whose head lets it sign this checkpoint does sign it. */
  lemma CanTurn(p: Policy, cp: Checkpoint, t: Turn, msg: Bytes) returns (next: Bytes)
    requires p.Valid() && Circulating(p, msg, cp) && Listed(p, t.w) && LineCount(msg) <= MAX_SIGNATURES
    requires ValidName(t.w.signer.id.name) && Takes(t.h, cp, t.proof)
    ensures Cosigns(t, msg, next)
  {
    assert p.operator == p.Verifiers()[0];
    CarriedIsCarries(msg, p.operator.id);
    OpensForOperator(msg, p.Verifiers(), p.operator);
    EvidenceOpens(msg, t.w.origin, t.w.operator, cp);
    CosignAnswers(t.w, t.h, msg, t.proof);
    next := CosignSpec(t.w, t.h, msg, t.proof).result.value;
  }

  /** Any of these can take its turn on a good note that is not too long, and gives another. */
  ghost predicate AllCan(
      good: Bytes -> bool, size: Bytes -> nat, step: (Turn, Bytes, Bytes) -> bool, turns: seq<Turn>, limit: nat)
  {
    forall t, a :: t in turns && good(a) && size(a) <= limit ==> CanStep(good, size, step, t, a)
  }

  ghost predicate CanStep(
      good: Bytes -> bool, size: Bytes -> nat, step: (Turn, Bytes, Bytes) -> bool, t: Turn, a: Bytes)
  {
    exists b :: step(t, a, b) && good(b) && size(b) <= size(a) + 1
  }

  lemma {:induction false} AllGoRound(
      good: Bytes -> bool, size: Bytes -> nat, step: (Turn, Bytes, Bytes) -> bool,
      turns: seq<Turn>, limit: nat, msg: Bytes, k: nat) returns (notes: seq<Bytes>)
    requires AllCan(good, size, step, turns, limit) && k <= |turns| && good(msg) && size(msg) + |turns| <= limit
    ensures |notes| == k + 1 && notes[0] == msg && good(notes[k]) && size(notes[k]) <= size(msg) + k
    ensures forall i :: 0 <= i < k ==> step(turns[i], notes[i], notes[i + 1])
  {
    if k == 0 {
      notes := [msg];
    } else {
      var before := AllGoRound(good, size, step, turns, limit, msg, k - 1);
      assert turns[k - 1] in turns && CanStep(good, size, step, turns[k - 1], before[k - 1]);
      var b :| step(turns[k - 1], before[k - 1], b) && good(b) && size(b) <= size(before[k - 1]) + 1;
      notes := before + [b];
    }
  }

  /** So a note goes round among such witnesses, as far as the cap on lines lets it. */
  lemma GoesRound(p: Policy, cp: Checkpoint, turns: seq<Turn>, msg: Bytes) returns (notes: seq<Bytes>)
    requires p.Valid() && Circulating(p, msg, cp) && AllListed(p, turns)
    requires forall t :: t in turns ==> ValidName(t.w.signer.id.name) && Takes(t.h, cp, t.proof)
    requires LineCount(msg) + |turns| <= MAX_SIGNATURES
    ensures Handed(turns, notes) && notes[0] == msg
  {
    var good, size := b => Circulating(p, b, cp), b => LineCount(b);
    var step := (t, a, b) => Cosigns(t, a, b);
    forall t, a | t in turns && good(a) && size(a) <= MAX_SIGNATURES ensures CanStep(good, size, step, t, a) {
      var b := CanTurn(p, cp, t, a);
      OneTurn(p, cp, t, a, b);
      assert step(t, a, b);
    }
    notes := AllGoRound(good, size, step, turns, MAX_SIGNATURES, msg, |turns|);
  }

  /** As many of the listed keys as a set holds count. */
  lemma {:induction false} CountsAll(ws: seq<Verifier>, ids: set<KeyId>)
    requires forall id :: id in ids ==> exists w :: w in ws && w.id == id
    ensures |ids| <= Count(ws, ids)
    decreases |ws|
  {
    if ws != [] {
      var rest := ids - {ws[0].id};
      forall id | id in rest ensures exists w :: w in ws[1..] && w.id == id {
        var w :| w in ws && w.id == id;
        assert w == ws[0] || w in ws[1..];
      }
      CountsAll(ws[1..], rest);
      CountMonotone(ws[1..], rest, ids);
    }
  }

  /**
    Cosigning in turn reaches the threshold: a note that k different listed
    witnesses have signed one after the other, whatever it carried before, meets
    the policy, and is accepted if and only if it stays within the line cap; it
    does if its lines and the witnesses together are at most one hundred.
  */
  lemma WitnessesInTurnSuffice(p: Policy, cp: Checkpoint, turns: seq<Turn>, notes: seq<Bytes>)
    requires p.Valid() && Handed(turns, notes) && Circulating(p, notes[0], cp) && AllListed(p, turns)
    requires |SignerIds(turns)| >= p.k
    ensures PolicyOpen(p, notes[|turns|]) == Ok(cp) <==> LineCount(notes[|turns|]) <= MAX_SIGNATURES
    ensures LineCount(notes[0]) + |turns| <= MAX_SIGNATURES ==> PolicyOpen(p, notes[|turns|]) == Ok(cp)
  {
    var m := notes[|turns|];
    InTurnSigns(p, cp, turns, notes, |turns|);
    assert turns[..|turns|] == turns;
    forall id | id in SignerIds(turns) ensures exists w :: w in p.witnesses && w.id == id {
      var t :| t in turns && t.w.signer.id == id;
      assert Verifier(t.w.signer.id, t.w.signer.key) in p.witnesses;
    }
    CountsAll(p.witnesses, SignerIds(turns));
    CountMonotone(p.witnesses, SignerIds(turns), CarriedIds(m));
    PolicyOpenExactly(p, m, cp);
  }
}
