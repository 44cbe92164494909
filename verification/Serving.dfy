/**
  Witness.Run, the witness's event loop.  It cosigns announced checkpoints,
  retries parked ones and floods equivocation proofs.  Other callers may use the
  same witness between any two events.
*/
module Serving {
  import opened Wrappers
  import opened Symbols
  import opened Notes
  import opened Checkpoints
  import opened Merging
  import opened Equivocations
  import opened Policies
  import opened Clients
  import opened Witnesses
  import opened Watching

  /** Local variables of the loop, the witness's head, and what the loop has broadcast. */
  datatype Server = Server(
    head: Head,
    pending: map<Bytes, Bytes>,
    flooded: set<Bytes>,
    cosigned: seq<Bytes>,
    proofs: seq<Bytes>)

  datatype ServerEvent =
    | Again(text: Bytes, proof: Option<seq<Hash>>)        // one parked message on a tick
    | Announced(content: Bytes, proof: Option<seq<Hash>>) // one gossip message
    | OtherCosign(msg: Bytes, proof: Option<seq<Hash>>)   // another caller of the witness

  function StartedServer(h: Head): Server { Server(h, map[], {}, [], []) }

  function FloodProof(s: Server, data: Bytes): Server {
    if data in s.flooded then s else s.(flooded := s.flooded + {data}, proofs := s.proofs + [data])
  }

  /** process, given what Cosign made of the message. */
  function ServedSpec(s: Server, text: Bytes, payload: Bytes, h: Head, r: Result<Bytes, Error>): Server {
    var gone := s.(head := h, pending := s.pending - {text});
    match r
    case Ok(m) => gone.(cosigned := s.cosigned + [m])
    case Err(SourceStale) => s.(head := h, pending := s.pending[text := payload])
    case Err(Equivocated(e)) => if MarshalBinary(e).None? then gone else FloodProof(gone, MarshalBinary(e).value)
    case Err(_) => gone
  }

  lemma ServedIgnoresHead(s: Server, h: Head, text: Bytes, payload: Bytes, r: Result<Bytes, Error>)
    ensures ServedSpec(s.(head := h), text, payload, h, r) == ServedSpec(s, text, payload, h, r)
  {
  }

  function ServeSpec(w: Config, s: Server, text: Bytes, payload: Bytes, proof: Option<seq<Hash>>): Server {
    var c := CosignSpec(w, s.head, payload, proof);
    ServedSpec(s, text, payload, c.head, c.result)
  }

  function AnnouncedProofSpec(w: Config, s: Server, payload: Bytes): Server {
    match UnmarshalBinary(payload)
    case None => s
    case Some(e) => if VerifyEquivocation(e, w.origin, w.operator).None? then s else FloodProof(s, payload)
  }

  function AnnouncedSpec(w: Config, s: Server, content: Bytes, proof: Option<seq<Hash>>): Server {
    match OpenEnvelope(content)
    case None => s
    case Some((EquivocationEnvelope, payload)) => AnnouncedProofSpec(w, s, payload)
    case Some((CheckpointEnvelope, payload)) =>
      match SplitNote(payload)
      case None => s
      case Some((text, _)) => ServeSpec(w, s, text, payload, proof)
  }

  function NextServer(w: Config, s: Server, ev: ServerEvent): Server {
    match ev
    case Again(text, proof) => if text in s.pending then ServeSpec(w, s, text, s.pending[text], proof) else s
    case Announced(content, proof) => AnnouncedSpec(w, s, content, proof)
    case OtherCosign(msg, proof) => s.(head := CosignSpec(w, s.head, msg, proof).head)
  }

  function RunServer(w: Config, s: Server, evs: seq<ServerEvent>): Server
    decreases |evs|
  {
    if evs == [] then s else RunServer(w, NextServer(w, s, evs[0]), evs[1..])
  }

  /** Trying one message parks, drops or changes no other. */
  lemma OthersStay(w: Config, s: Server, text: Bytes, payload: Bytes, proof: Option<seq<Hash>>)
    ensures SameBut(text, s.pending, ServeSpec(w, s, text, payload, proof).pending)
  {
    var c := CosignSpec(w, s.head, payload, proof);
    ServedPending(s, text, payload, c.head, c.result);
  }

  lemma ServedPending(s: Server, text: Bytes, payload: Bytes, h: Head, r: Result<Bytes, Error>)
    ensures SameBut(text, s.pending, ServedSpec(s, text, payload, h, r).pending)
  {
  }

  /** One retry of the tick, seen from the run. */
  lemma AgainStep(w: Config, s: Server, order: seq<Bytes>, answers: seq<Option<seq<Hash>>>, i: nat)
    requires i < |order| == |answers| && order[i] in s.pending
    ensures RunServer(w, s, Agains(order, answers)[i..])
            == RunServer(w, ServeSpec(w, s, order[i], s.pending[order[i]], answers[i]), Agains(order, answers)[i + 1..])
  {
    var evs := Agains(order, answers);
    assert evs[i..][0] == Again(order[i], answers[i]) && evs[i..][1..] == evs[i + 1..];
  }

  class Loop {
    const cosigner: Witness
    var pending: map<Bytes, Bytes>
    var flooded: set<Bytes>
    var cosigned: seq<Bytes>
    var proofs: seq<Bytes>

    function State(): Server
      reads this, cosigner
    {
      Server(cosigner.State(), pending, flooded, cosigned, proofs)
    }

    constructor (cosigner: Witness)
      ensures this.cosigner == cosigner && State() == StartedServer(cosigner.State())
    {
      this.cosigner := cosigner;
      pending, flooded, cosigned, proofs := map[], {}, [], [];
    }

    method Process(text: Bytes, payload: Bytes, proof: Option<seq<Hash>>)
      requires cosigner.Valid()
      modifies this, cosigner
      ensures cosigner.Valid()
      ensures State() == ServeSpec(cosigner.config, old(State()), text, payload, proof)
    {
      ghost var s := State();
      var r := cosigner.Cosign(payload, proof);
      ServedIgnoresHead(s, cosigner.State(), text, payload, r);
      Served(text, payload, r, State());
    }

    /** The switch on what Cosign returned. */
    method Served(text: Bytes, payload: Bytes, r: Result<Bytes, Error>, ghost s: Server)
      requires s == State()
      modifies this
      ensures State() == ServedSpec(s, text, payload, s.head, r)
    {
      match r
      case Ok(m) =>
        pending := pending - {text};
        cosigned := cosigned + [m];
      case Err(SourceStale) => pending := pending[text := payload];
      case Err(Equivocated(e)) =>
        pending := pending - {text};
        var data := MarshalBinary(e);
        if data.Some? && data.value !in flooded {
          flooded := flooded + {data.value};
          proofs := proofs + [data.value];
        }
      case Err(_) => pending := pending - {text};
    }

    method Received(content: Bytes, proof: Option<seq<Hash>>)
      requires cosigner.Valid()
      modifies this, cosigner
      ensures cosigner.Valid()
      ensures State() == AnnouncedSpec(cosigner.config, old(State()), content, proof)
    {
      var env := OpenEnvelope(content);
      if env.None? {
        return;
      }
      var payload := env.value.1;
      if env.value.0.EquivocationEnvelope? {
        ReceivedProof(payload);
        return;
      }
      var parts := SplitNote(payload);
      if parts.Some? {
        Process(parts.value.0, payload, proof);
      }
    }

    method ReceivedProof(payload: Bytes)
      modifies this
      ensures State() == AnnouncedProofSpec(cosigner.config, old(State()), payload)
    {
      var e := UnmarshalBinary(payload);
      if e.None? || VerifyEquivocation(e.value, cosigner.config.origin, cosigner.config.operator).None? {
        return;
      }
      if payload !in flooded {
        flooded := flooded + {payload};
        proofs := proofs + [payload];
      }
    }

    /** A tick: every parked message is tried once, in any order of the map's keys. */
    method Tick(order: seq<Bytes>, answers: seq<Option<seq<Hash>>>)
      requires cosigner.Valid() && |order| == |answers| && Lists(order, pending.Keys)
      modifies this, cosigner
      ensures cosigner.Valid()
      ensures State() == RunServer(cosigner.config, old(State()), Agains(order, answers))
    {
      ghost var w, evs, start := cosigner.config, Agains(order, answers), pending;
      ghost var goal := RunServer(w, State(), evs);
      for i := 0 to |order|
        invariant cosigner.Valid() && Waiting(order, i, start, pending)
        invariant RunServer(w, State(), evs[i..]) == goal
      {
        AgainStep(w, State(), order, answers, i);
        OthersStay(w, State(), order[i], pending[order[i]], answers[i]);
        ghost var before := pending;
        Process(order[i], pending[order[i]], answers[i]);
        WaitingNext(order, i, start, before, pending);
      }
      assert evs[|order|..] == [];
    }
  }

  function Agains(order: seq<Bytes>, answers: seq<Option<seq<Hash>>>): (r: seq<ServerEvent>)
    requires |order| == |answers|
    ensures |r| == |order|
    ensures forall i :: 0 <= i < |r| ==> r[i] == Again(order[i], answers[i])
  {
    seq(|order|, i requires 0 <= i < |order| => Again(order[i], answers[i]))
  }

  // ------------------------------------------------------------ the invariant

  /** A parked message carries a valid operator signature on its own text, which is a checkpoint of this log. */
  ghost predicate ParkedForWitness(w: Config, text: Bytes, msg: Bytes) {
    exists cp :: && OpenOperatorCheckpoint(msg, w.origin, w.operator) == Some(cp)
                 && NoteParts(msg).Some? && NoteParts(msg).value.0 == text && ParseCheckpoint(text) == Some(cp)
  }

  /** The proof is of two signed and conflicting checkpoints, and verifies if its first message is within the cap. */
  ghost predicate SoundFor(w: Config, e: Equivocation) {
    && Conflict(e, w.origin, w.operator)
    && (VerifyEquivocation(e, w.origin, w.operator).Some? <==> LineCount(e.first) <= MAX_SIGNATURES)
  }

  /** These bytes encode such a proof. */
  ghost predicate SoundData(w: Config, data: Bytes) {
    exists e :: SoundFor(w, e) && (MarshalBinary(e) == Some(data) || UnmarshalBinary(data) == Some(e))
  }

  /** The operator's signature in this note is still good evidence. */
  ghost predicate StillEvidence(w: Config, msg: Bytes) {
    exists cp :: Evidence(msg, w.origin, w.operator, cp)
  }

  /** The loop's own invariant, for any notion of a parked message, of sound bytes and of a good note. */
  ghost predicate ServerInv(parked: (Bytes, Bytes) -> bool, sound: Bytes -> bool, good: Bytes -> bool, s: Server) {
    && (forall t :: t in s.pending ==> parked(t, s.pending[t]))
    && (forall d :: d in s.proofs ==> d in s.flooded && sound(d))
    && (forall i, j :: 0 <= i < j < |s.proofs| ==> s.proofs[i] != s.proofs[j])
    && (forall m :: m in s.cosigned ==> good(m))
  }

  ghost predicate ServingOk(w: Config, s: Server) {
    && WitnessHeadValid(w, s.head)
    && ServerInv((t, m) => ParkedForWitness(w, t, m), d => SoundData(w, d), m => StillEvidence(w, m), s)
  }

  lemma FloodProofKeeps(
      parked: (Bytes, Bytes) -> bool, sound: Bytes -> bool, good: Bytes -> bool, s: Server, data: Bytes)
    requires ServerInv(parked, sound, good, s) && sound(data)
    ensures ServerInv(parked, sound, good, FloodProof(s, data))
  {
  }

  lemma ServedKeeps(parked: (Bytes, Bytes) -> bool, sound: Bytes -> bool, good: Bytes -> bool,
                    s: Server, text: Bytes, payload: Bytes, h: Head, r: Result<Bytes, Error>)
    requires ServerInv(parked, sound, good, s)
    requires r.Ok? ==> good(r.value)
    requires r == Err(SourceStale) ==> parked(text, payload)
    requires forall e :: r == Err(Equivocated(e)) && MarshalBinary(e).Some? ==> sound(MarshalBinary(e).value)
    ensures ServerInv(parked, sound, good, ServedSpec(s, text, payload, h, r))
    ensures ServedSpec(s, text, payload, h, r).head == h
  {
    match r
    case Err(Equivocated(e)) =>
      if MarshalBinary(e).Some? {
        FloodProofKeeps(parked, sound, good, s.(head := h, pending := s.pending - {text}), MarshalBinary(e).value);
      }
    case _ =>
  }

  /** The message is filed under the text it will open with. */
  ghost predicate OwnText(text: Bytes, msg: Bytes) {
    SplitNote(msg).Some? && SplitNote(msg).value.0 == text
  }

  lemma StaleIsParked(w: Config, h: Head, text: Bytes, msg: Bytes, proof: Option<seq<Hash>>)
    requires OwnText(text, msg) && CosignSpec(w, h, msg, proof).result == Err(SourceStale)
    ensures ParkedForWitness(w, text, msg)
  {
    var cp := ParseCheckpoint(NoteOpen(msg, [w.operator]).value.text).value;
    assert OpenOperatorCheckpoint(msg, w.origin, w.operator) == Some(cp);
    SplitAgreesWithOpen(msg);
  }

  lemma ParkedHasOwnText(w: Config, text: Bytes, msg: Bytes)
    requires ParkedForWitness(w, text, msg)
    ensures OwnText(text, msg)
  {
    SplitAgreesWithOpen(msg);
  }

  lemma ReportedIsSound(w: Config, h: Head, msg: Bytes, proof: Option<seq<Hash>>, e: Equivocation)
    requires WitnessHeadValid(w, h) && CosignSpec(w, h, msg, proof).result == Err(Equivocated(e))
    ensures MarshalBinary(e).Some? && SoundData(w, MarshalBinary(e).value)
  {
    WitnessReportsConflict(w, h, msg, proof, e);
    VerifiesExactly(e, w.origin, w.operator);
    assert SoundFor(w, e);
  }

  lemma CosignedIsGood(w: Config, h: Head, msg: Bytes, proof: Option<seq<Hash>>)
    requires Compatible(w) && CosignSpec(w, h, msg, proof).result.Ok?
    ensures StillEvidence(w, CosignSpec(w, h, msg, proof).result.value)
  {
    CosignedIsEvidence(w, h, msg, proof);
  }

  lemma ServeKeeps(w: Config, s: Server, text: Bytes, payload: Bytes, proof: Option<seq<Hash>>)
    requires Compatible(w) && ServingOk(w, s) && OwnText(text, payload)
    ensures ServingOk(w, ServeSpec(w, s, text, payload, proof))
  {
    var c := CosignSpec(w, s.head, payload, proof);
    CosignKeepsEvidence(w, s.head, payload, proof);
    if c.result.Ok? {
      CosignedIsGood(w, s.head, payload, proof);
    }
    if c.result == Err(SourceStale) {
      StaleIsParked(w, s.head, text, payload, proof);
    }
    forall e | c.result == Err(Equivocated(e)) ensures MarshalBinary(e).Some? && SoundData(w, MarshalBinary(e).value) {
      ReportedIsSound(w, s.head, payload, proof, e);
    }
    ServedKeeps((t, m) => ParkedForWitness(w, t, m), d => SoundData(w, d), m => StillEvidence(w, m),
                s, text, payload, c.head, c.result);
  }

  lemma AgainKeeps(w: Config, s: Server, text: Bytes, proof: Option<seq<Hash>>)
    requires Compatible(w) && ServingOk(w, s) && text in s.pending
    ensures ServingOk(w, ServeSpec(w, s, text, s.pending[text], proof))
  {
    ParkedHasOwnText(w, text, s.pending[text]);
    ServeKeeps(w, s, text, s.pending[text], proof);
  }

  lemma NextServerKeeps(w: Config, s: Server, ev: ServerEvent)
    requires Compatible(w) && ServingOk(w, s)
    ensures ServingOk(w, NextServer(w, s, ev))
  {
    match ev
    case Again(text, proof) =>
      if text in s.pending {
        AgainKeeps(w, s, text, proof);
      }
    case OtherCosign(msg, proof) => OtherKeeps(w, s, msg, proof);
    case Announced(content, proof) => AnnouncedKeeps(w, s, content, proof);
  }

  lemma OtherKeeps(w: Config, s: Server, msg: Bytes, proof: Option<seq<Hash>>)
    requires Compatible(w) && ServingOk(w, s)
    ensures ServingOk(w, s.(head := CosignSpec(w, s.head, msg, proof).head))
  {
    CosignKeepsEvidence(w, s.head, msg, proof);
  }

  lemma AnnouncedKeeps(w: Config, s: Server, content: Bytes, proof: Option<seq<Hash>>)
    requires Compatible(w) && ServingOk(w, s)
    ensures ServingOk(w, AnnouncedSpec(w, s, content, proof))
  {
    match OpenEnvelope(content)
    case None =>
    case Some((EquivocationEnvelope, payload)) => AnnouncedProofKeeps(w, s, payload);
    case Some((CheckpointEnvelope, payload)) =>
      match SplitNote(payload)
      case None =>
      case Some((text, _)) => ServeKeeps(w, s, text, payload, proof);
  }

  lemma AnnouncedProofKeeps(w: Config, s: Server, payload: Bytes)
    requires ServingOk(w, s)
    ensures ServingOk(w, AnnouncedProofSpec(w, s, payload))
  {
    var e := UnmarshalBinary(payload);
    if e.Some? && VerifyEquivocation(e.value, w.origin, w.operator).Some? {
      VerifiesExactly(e.value, w.origin, w.operator);
      assert SoundFor(w, e.value);
      assert SoundData(w, payload);
      FloodProofKeeps((t, m) => ParkedForWitness(w, t, m), d => SoundData(w, d), m => StillEvidence(w, m), s, payload);
    }
  }

  /**
    Over every sequence of events of a witness whose own signature does no harm:
    parked messages carry a valid operator signature and are filed under their own
    text, no encoding of a proof is broadcast twice, what is broadcast encodes two
    checkpoints of one size and different hashes that the operator signed and
    verifies exactly when its first message is within the cap on signature lines,
    and every cosigned note that went out is still evidence of what the operator
    signed.
  */
  lemma {:induction false} ServerIsSafe(w: Config, s: Server, evs: seq<ServerEvent>)
    requires Compatible(w) && ServingOk(w, s)
    ensures ServingOk(w, RunServer(w, s, evs))
    decreases |evs|
  {
    if evs != [] {
      NextServerKeeps(w, s, evs[0]);
      ServerIsSafe(w, NextServer(w, s, evs[0]), evs[1..]);
    }
  }

  // ----------------------------------------------------------- repeated proofs

  /** A received proof, if there is one, is encoded as MarshalBinary would. */
  predicate CanonicalAnnounced(ev: ServerEvent) {
    match ev
    case Announced(content, _) =>
      (match OpenEnvelope(content)
       case Some((EquivocationEnvelope, payload)) => Canonical(payload)
       case _ => true)
    case _ => true
  }

  lemma ServedKeepsCanonical(s: Server, text: Bytes, payload: Bytes, h: Head, r: Result<Bytes, Error>)
    requires AllCanonical(s.proofs)
    ensures AllCanonical(ServedSpec(s, text, payload, h, r).proofs)
  {
    match r
    case Err(Equivocated(e)) =>
      if MarshalBinary(e).Some? {
        MarshalIsCanonical(e);
      }
    case _ =>
  }

  lemma ServeKeepsCanonical(w: Config, s: Server, text: Bytes, payload: Bytes, proof: Option<seq<Hash>>)
    requires AllCanonical(s.proofs)
    ensures AllCanonical(ServeSpec(w, s, text, payload, proof).proofs)
  {
    var c := CosignSpec(w, s.head, payload, proof);
    ServedKeepsCanonical(s, text, payload, c.head, c.result);
  }

  lemma AnnouncedKeepsCanonical(w: Config, s: Server, payload: Bytes)
    requires AllCanonical(s.proofs) && Canonical(payload)
    ensures AllCanonical(AnnouncedProofSpec(w, s, payload).proofs)
  {
  }

  lemma NextServerKeepsCanonical(w: Config, s: Server, ev: ServerEvent)
    requires AllCanonical(s.proofs) && CanonicalAnnounced(ev)
    ensures AllCanonical(NextServer(w, s, ev).proofs)
  {
    match ev
    case Again(text, proof) =>
      if text in s.pending {
        ServeKeepsCanonical(w, s, text, s.pending[text], proof);
      }
    case Announced(content, proof) =>
      match OpenEnvelope(content) {
        case None =>
        case Some((EquivocationEnvelope, payload)) => AnnouncedKeepsCanonical(w, s, payload);
        case Some((CheckpointEnvelope, payload)) =>
          match SplitNote(payload)
          case None =>
          case Some((text, _)) => ServeKeepsCanonical(w, s, text, payload, proof);
      }
    case _ =>
  }

  lemma {:induction false} RunServerKeepsCanonical(w: Config, s: Server, evs: seq<ServerEvent>)
    requires AllCanonical(s.proofs) && forall ev :: ev in evs ==> CanonicalAnnounced(ev)
    ensures AllCanonical(RunServer(w, s, evs).proofs)
    decreases |evs|
  {
    if evs != [] {
      NextServerKeepsCanonical(w, s, evs[0]);
      RunServerKeepsCanonical(w, NextServer(w, s, evs[0]), evs[1..]);
    }
  }

  /** Two broadcasts are of one proof only if one of them is not its MarshalBinary. */
  lemma BroadcastAgainOnlyIfPadded(w: Config, h: Head, evs: seq<ServerEvent>, i: nat, j: nat)
    requires Compatible(w) && WitnessHeadValid(w, h) && i < j < |RunServer(w, StartedServer(h), evs).proofs|
    ensures var sent := RunServer(w, StartedServer(h), evs).proofs;
            UnmarshalBinary(sent[i]).Some? && UnmarshalBinary(sent[i]) == UnmarshalBinary(sent[j]) ==>
              !Canonical(sent[i]) || !Canonical(sent[j])
  {
    ServerIsSafe(w, StartedServer(h), evs);
    var sent := RunServer(w, StartedServer(h), evs).proofs;
    if UnmarshalBinary(sent[i]).Some? && UnmarshalBinary(sent[i]) == UnmarshalBinary(sent[j]) {
      if Canonical(sent[i]) && Canonical(sent[j]) {
        CanonicalDecides(sent[i], sent[j]);
      }
    }
  }

  /** A run that receives no proof in a padded encoding broadcasts each proof at most once. */
  lemma EachProofServedOnce(w: Config, h: Head, evs: seq<ServerEvent>, i: nat, j: nat)
    requires Compatible(w) && WitnessHeadValid(w, h) && forall ev :: ev in evs ==> CanonicalAnnounced(ev)
    requires i < j < |RunServer(w, StartedServer(h), evs).proofs|
    ensures var sent := RunServer(w, StartedServer(h), evs).proofs;
            UnmarshalBinary(sent[i]).Some? ==> UnmarshalBinary(sent[i]) != UnmarshalBinary(sent[j])
  {
    RunServerKeepsCanonical(w, StartedServer(h), evs);
    BroadcastAgainOnlyIfPadded(w, h, evs, i, j);
  }

  /** The gossip message that carries these bytes as a proof. */
  function ProofAnnounced(data: Bytes): ServerEvent {
    Announced(Envelope(EquivocationEnvelope, data), None)
  }

  lemma AnnouncedProofFloods(w: Config, s: Server, data: Bytes, e: Equivocation)
    requires data != [] && UnmarshalBinary(data) == Some(e) && VerifyEquivocation(e, w.origin, w.operator).Some?
    ensures NextServer(w, s, ProofAnnounced(data)) == FloodProof(s, data)
  {
    OpenMadeEnvelope(EquivocationEnvelope, data);
  }

  lemma ServerRunOfTwo(w: Config, s: Server, a: ServerEvent, b: ServerEvent)
    ensures RunServer(w, s, [a, b]) == NextServer(w, NextServer(w, s, a), b)
  {
    assert [a, b][1..] == [b] && [b][1..] == [];
    assert RunServer(w, NextServer(w, s, a), [b]) == NextServer(w, NextServer(w, s, a), b);
  }

  lemma FloodedTwice(h: Head, data: Bytes, again: Bytes)
    ensures FloodProof(FloodProof(StartedServer(h), data), again).proofs
            == if again == data then [data] else [data, again]
  {
  }

  /**
    After a verifying proof was received, another encoding of it is broadcast
    again exactly when that encoding is not the canonical one.
  */
  lemma ServedAgainExactly(w: Config, h: Head, e: Equivocation, data: Bytes, again: Bytes)
    requires VerifyEquivocation(e, w.origin, w.operator).Some?
    requires MarshalBinary(e) == Some(data) && UnmarshalBinary(data) == Some(e)
    requires again != [] && UnmarshalBinary(again) == Some(e)
    ensures RunServer(w, StartedServer(h), [ProofAnnounced(data), ProofAnnounced(again)]).proofs
            == if Canonical(again) then [data] else [data, again]
  {
    AnnouncedProofFloods(w, StartedServer(h), data, e);
    AnnouncedProofFloods(w, FloodProof(StartedServer(h), data), again, e);
    ServerRunOfTwo(w, StartedServer(h), ProofAnnounced(data), ProofAnnounced(again));
    CanonicalIsMarshal(again, data, e);
    FloodedTwice(h, data, again);
  }

  /** A witness, too, broadcasts every verifying proof twice if its first length is padded the second time. */
  lemma PaddedProofServedAgain(w: Config, h: Head, e: Equivocation)
    requires VerifyEquivocation(e, w.origin, w.operator).Some?
    requires Wire.Sized(e.first) && Wire.Sized(e.second)
    ensures MarshalBinary(e).Some? && UnmarshalBinary(Padded(e)) == Some(e)
    ensures var data := MarshalBinary(e).value;
            && data != Padded(e)
            && RunServer(w, StartedServer(h), [ProofAnnounced(data), ProofAnnounced(Padded(e))]).proofs
               == [data, Padded(e)]
  {
    VerifiesExactly(e, w.origin, w.operator);
    UnmarshalMarshal(e);
    PaddedDecodes(e);
    ServedAgainExactly(w, h, e, MarshalBinary(e).value, Padded(e));
  }

  // --------------------------------------------------- what a whole run broadcasts

  /** The proof that a call of Cosign reports, encoded. */
  function ReportedBy(r: Result<Bytes, Error>): seq<Bytes> {
    match r
    case Err(Equivocated(e)) => if MarshalBinary(e).Some? then [MarshalBinary(e).value] else []
    case _ => []
  }

  function VerifiedProof(w: Config, payload: Bytes): seq<Bytes> {
    match UnmarshalBinary(payload)
    case None => []
    case Some(e) => if VerifyEquivocation(e, w.origin, w.operator).Some? then [payload] else []
  }

  /** What an event gives the loop to flood: an own report, or a received proof that verifies. */
  function OfferedTo(w: Config, s: Server, ev: ServerEvent): seq<Bytes> {
    match ev
    case Again(text, proof) =>
      if text in s.pending then ReportedBy(CosignSpec(w, s.head, s.pending[text], proof).result) else []
    case Announced(content, proof) =>
      (match OpenEnvelope(content)
       case None => []
       case Some((EquivocationEnvelope, payload)) => VerifiedProof(w, payload)
       case Some((CheckpointEnvelope, payload)) =>
         if SplitNote(payload).None? then [] else ReportedBy(CosignSpec(w, s.head, payload, proof).result))
    case _ => []
  }

  function OfferedToRun(w: Config, s: Server, evs: seq<ServerEvent>): seq<Bytes>
    decreases |evs|
  {
    if evs == [] then [] else OfferedTo(w, s, evs[0]) + OfferedToRun(w, NextServer(w, s, evs[0]), evs[1..])
  }

  /** What was flooded is what was broadcast. */
  ghost predicate Remembers(s: Server) { s.flooded == set d | d in s.proofs }

  lemma FloodsProof(s: Server, data: Bytes)
    requires Remembers(s)
    ensures Remembers(FloodProof(s, data)) && FloodProof(s, data).proofs == EachFirst(s.proofs, [data])
  {
    assert [data][1..] == [];
  }

  lemma ServedFloods(s: Server, text: Bytes, payload: Bytes, h: Head, r: Result<Bytes, Error>)
    requires Remembers(s)
    ensures Remembers(ServedSpec(s, text, payload, h, r))
    ensures ServedSpec(s, text, payload, h, r).proofs == EachFirst(s.proofs, ReportedBy(r))
  {
    var rest := ReportedBy(r);
    assert rest != [] ==> rest[1..] == [];
  }

  lemma ServeFloods(w: Config, s: Server, text: Bytes, payload: Bytes, proof: Option<seq<Hash>>)
    requires Remembers(s)
    ensures Remembers(ServeSpec(w, s, text, payload, proof))
    ensures ServeSpec(w, s, text, payload, proof).proofs
            == EachFirst(s.proofs, ReportedBy(CosignSpec(w, s.head, payload, proof).result))
  {
    var c := CosignSpec(w, s.head, payload, proof);
    ServedFloods(s, text, payload, c.head, c.result);
  }

  lemma VerifiedFloods(w: Config, s: Server, payload: Bytes)
    requires Remembers(s)
    ensures Remembers(AnnouncedProofSpec(w, s, payload))
    ensures AnnouncedProofSpec(w, s, payload).proofs == EachFirst(s.proofs, VerifiedProof(w, payload))
  {
    FloodsProof(s, payload);
  }

  lemma NextServerFloods(w: Config, s: Server, ev: ServerEvent)
    requires Remembers(s)
    ensures Remembers(NextServer(w, s, ev))
    ensures NextServer(w, s, ev).proofs == EachFirst(s.proofs, OfferedTo(w, s, ev))
  {
    match ev
    case Again(text, proof) =>
      if text in s.pending {
        ServeFloods(w, s, text, s.pending[text], proof);
      }
    case Announced(content, proof) =>
      match OpenEnvelope(content) {
        case None =>
        case Some((EquivocationEnvelope, payload)) => VerifiedFloods(w, s, payload);
        case Some((CheckpointEnvelope, payload)) =>
          match SplitNote(payload)
          case None =>
          case Some((text, _)) => ServeFloods(w, s, text, payload, proof);
      }
    case _ =>
  }

  /** Over every run the broadcasts are all that was offered, each string of bytes at its first occurrence. */
  lemma {:induction false} ProofsAreOffered(w: Config, s: Server, evs: seq<ServerEvent>)
    requires Remembers(s)
    ensures RunServer(w, s, evs).proofs == EachFirst(s.proofs, OfferedToRun(w, s, evs))
    decreases |evs|
  {
    if evs != [] {
      var next := NextServer(w, s, evs[0]);
      NextServerFloods(w, s, evs[0]);
      ProofsAreOffered(w, next, evs[1..]);
      EachFirstConcat(s.proofs, OfferedTo(w, s, evs[0]), OfferedToRun(w, next, evs[1..]));
    }
  }

  /** A run broadcasts no proof twice if and only if no proof was offered to it in two encodings. */
  lemma NoProofServedTwiceExactly(w: Config, h: Head, evs: seq<ServerEvent>)
    ensures ProofsOnce(RunServer(w, StartedServer(h), evs).proofs)
            <==> OneEncodingEach(OfferedToRun(w, StartedServer(h), evs))
  {
    ProofsAreOffered(w, StartedServer(h), evs);
    OnceExactly(OfferedToRun(w, StartedServer(h), evs));
  }
}
