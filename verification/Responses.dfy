/** What a witness's loop answers. */
module Responses {
  import opened Wrappers
  import opened Symbols
  import opened Notes
  import opened Checkpoints
  import opened Merging
  import opened Equivocations
  import opened Policies
  import opened Clients
  import opened Witnesses
  import opened Watching
  import opened Serving
  import opened Cosigners

  /** The conflict with the head, as it is encoded for the others. */
  function ConflictData(h: Head, msg: Bytes): Bytes
    requires h.Head? && h.msg != [] && msg != []
  {
    MarshalBinary(Equivocation(h.msg, msg)).value
  }

  /** A message the witness may sign is cosigned, broadcast and no longer parked. */
  lemma ServesAdmitted(w: Config, s: Server, text: Bytes, payload: Bytes, proof: Option<seq<Hash>>, cp: Checkpoint)
    requires OpenOperatorCheckpoint(payload, w.origin, w.operator) == Some(cp)
    requires Takes(s.head, cp, proof) && ValidName(w.signer.id.name)
    ensures var s' := ServeSpec(w, s, text, payload, proof);
            && s'.head.Head? && s'.head.cp == cp && s'.cosigned == s.cosigned + [s'.head.msg]
            && s'.pending == s.pending - {text} && s'.proofs == s.proofs
            && CosignSpec(w, s.head, payload, proof).result == Ok(s'.head.msg)
  {
    CosignAnswers(w, s.head, payload, proof);
    var c := CosignSpec(w, s.head, payload, proof);
    ServedCosigned(s, text, payload, c.head, c.result);
  }

  lemma ServedCosigned(s: Server, text: Bytes, payload: Bytes, h: Head, r: Result<Bytes, Error>)
    requires r.Ok?
    ensures ServedSpec(s, text, payload, h, r)
            == s.(head := h, pending := s.pending - {text}, cosigned := s.cosigned + [r.value])
  {
  }

  /** One that its source has not caught up to is parked, and nothing else is done. */
  lemma ServesStale(w: Config, s: Server, text: Bytes, payload: Bytes, proof: Option<seq<Hash>>, cp: Checkpoint)
    requires OpenOperatorCheckpoint(payload, w.origin, w.operator) == Some(cp) && MustGrow(s.head, cp) && proof.None?
    ensures ServeSpec(w, s, text, payload, proof) == s.(pending := s.pending[text := payload])
  {
    CosignAnswers(w, s.head, payload, proof);
  }

  /** A conflict with the head is flooded. */
  lemma ServesConflict(w: Config, s: Server, text: Bytes, payload: Bytes, proof: Option<seq<Hash>>, cp: Checkpoint)
    requires OpenOperatorCheckpoint(payload, w.origin, w.operator) == Some(cp) && WitnessHeadValid(w, s.head)
    requires s.head.Head? && cp.tree.n == s.head.cp.tree.n && cp.tree.hash != s.head.cp.tree.hash
    ensures s.head.msg != [] && payload != []
    ensures var s', data := ServeSpec(w, s, text, payload, proof), ConflictData(s.head, payload);
            && s'.head == s.head && s'.cosigned == s.cosigned && s'.pending == s.pending - {text}
            && data in s'.flooded && (data !in s.flooded ==> s'.proofs == s.proofs + [data])
  {
    var e := Equivocation(s.head.msg, payload);
    CosignAnswers(w, s.head, payload, proof);
    WitnessReportsConflict(w, s.head, payload, proof, e);
    VerifiesExactly(e, w.origin, w.operator);
    var c := CosignSpec(w, s.head, payload, proof);
    ServedConflict(s, text, payload, c.head, c.result, e);
  }

  lemma ServedConflict(s: Server, text: Bytes, payload: Bytes, h: Head, r: Result<Bytes, Error>, e: Equivocation)
    requires r == Err(Equivocated(e)) && MarshalBinary(e).Some?
    ensures ServedSpec(s, text, payload, h, r)
            == FloodProof(s.(head := h, pending := s.pending - {text}), MarshalBinary(e).value)
  {
  }

  /** Anything else is dropped. */
  lemma ServesNothing(w: Config, s: Server, text: Bytes, payload: Bytes, proof: Option<seq<Hash>>)
    requires match OpenOperatorCheckpoint(payload, w.origin, w.operator)
             case None => true
             case Some(cp) =>
               && s.head.Head? && !Takes(s.head, cp, proof) && !(MustGrow(s.head, cp) && proof.None?)
               && cp.tree.n != s.head.cp.tree.n
    ensures ServeSpec(w, s, text, payload, proof) == s.(pending := s.pending - {text})
  {
    CosignAnswers(w, s.head, payload, proof);
    var c := CosignSpec(w, s.head, payload, proof);
    ServedRefusal(s, text, payload, c.head, c.result);
  }

  lemma ServedRefusal(s: Server, text: Bytes, payload: Bytes, h: Head, r: Result<Bytes, Error>)
    requires r.Err? && r != Err(SourceStale) && !r.error.Equivocated?
    ensures ServedSpec(s, text, payload, h, r) == s.(head := h, pending := s.pending - {text})
  {
  }

  function AnnouncedNote(payload: Bytes, proof: Option<seq<Hash>>): ServerEvent {
    Announced(Envelope(CheckpointEnvelope, payload), proof)
  }

  lemma AnnouncedIsServed(w: Config, s: Server, text: Bytes, payload: Bytes, proof: Option<seq<Hash>>)
    requires SplitNote(payload).Some? && SplitNote(payload).value.0 == text
    ensures NextServer(w, s, AnnouncedNote(payload, proof)) == ServeSpec(w, s, text, payload, proof)
  {
    assert payload != [];
    OpenMadeEnvelope(CheckpointEnvelope, payload);
  }

  lemma OpenedIsCut(w: Config, payload: Bytes)
    requires OpenOperatorCheckpoint(payload, w.origin, w.operator).Some?
    ensures NoteParts(payload).Some? && ParseCheckpoint(NoteParts(payload).value.0).Some?
    ensures SplitNote(payload).Some? && SplitNote(payload).value.0 == NoteParts(payload).value.0
  {
    SplitAgreesWithOpen(payload);
  }

  /**
    An announced checkpoint that a witness may sign goes out again with its
    signature, and with all the cosignatures it had; one it could not prove yet
    is kept, and goes out on a tick once its source has caught up.
  */
  lemma AnnouncedIsCosigned(w: Config, s: Server, payload: Bytes, proof: Option<seq<Hash>>, cp: Checkpoint)
    requires Compatible(w) && ValidName(w.signer.id.name)
    requires OpenOperatorCheckpoint(payload, w.origin, w.operator) == Some(cp) && Takes(s.head, cp, proof)
    ensures var s' := NextServer(w, s, AnnouncedNote(payload, proof));
            && s'.head.Head? && s'.head.cp == cp && s'.cosigned == s.cosigned + [s'.head.msg]
            && CarriedIds(s'.head.msg) == CarriedIds(payload) + {w.signer.id}
  {
    OpenedIsCut(w, payload);
    var text := NoteParts(payload).value.0;
    AnnouncedIsServed(w, s, text, payload, proof);
    ServesAdmitted(w, s, text, payload, proof, cp);
    CosignedCarries(w, s.head, payload, proof);
  }

  lemma StaleIsCosignedLater(w: Config, s: Server, payload: Bytes, cp: Checkpoint, proof: Option<seq<Hash>>)
    requires Compatible(w) && ValidName(w.signer.id.name)
    requires OpenOperatorCheckpoint(payload, w.origin, w.operator) == Some(cp)
    requires MustGrow(s.head, cp) && Grown(s.head, cp, proof)
    ensures var text := NoteParts(payload).value.0;
            var s' := RunServer(w, s, [AnnouncedNote(payload, None), Again(text, proof)]);
            && s'.head.Head? && s'.head.cp == cp && s'.cosigned == s.cosigned + [s'.head.msg]
            && CarriedIds(s'.head.msg) == CarriedIds(payload) + {w.signer.id} && text !in s'.pending
  {
    OpenedIsCut(w, payload);
    var text := NoteParts(payload).value.0;
    var t := s.(pending := s.pending[text := payload]);
    AnnouncedIsServed(w, s, text, payload, None);
    ServesStale(w, s, text, payload, None, cp);
    ServerRunOfTwo(w, s, AnnouncedNote(payload, None), Again(text, proof));
    ServesAdmitted(w, t, text, payload, proof, cp);
    CosignedCarries(w, s.head, payload, proof);
  }
}
