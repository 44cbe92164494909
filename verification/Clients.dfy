/** A client: head storage, SetHead, Update and Entry. */
module Clients {
  import opened Wrappers
  import opened Symbols
  import opened Merkle
  import opened Notes
  import opened Checkpoints
  import opened Merging
  import opened Equivocations
  import opened Policies

  /** headMsg, head and hasHead as one value. */
  datatype Head = NoHead | Head(msg: Bytes, cp: Checkpoint)

  /** What one call did to the head, and what it returned. */
  datatype Outcome = Outcome(head: Head, result: Result<Checkpoint, Error>)

  function SetHeadSpec(p: Policy, h: Head, msg: Bytes): Outcome
    requires p.Valid()
  {
    match PolicyOpen(p, msg)
    case Err(e) => Outcome(h, Err(e))
    case Ok(cp) =>
      if h.Head? && cp.tree.n < h.cp.tree.n then Outcome(h, Err(Rollback))
      else if h.Head? && cp.tree.n == h.cp.tree.n && cp.tree.hash != h.cp.tree.hash then
        Outcome(h, Err(Equivocated(Equivocation(h.msg, msg))))
      else Outcome(Head(msg, cp), Ok(cp))
  }

  /**
    Update.  `proof` is what tlog.ProveTree returned when it read the source:
    None if a tile was missing, otherwise any list of hashes.
  */
  function UpdateSpec(p: Policy, h: Head, msg: Bytes, proof: Option<seq<Hash>>): Outcome
    requires p.Valid()
  {
    match PolicyOpen(p, msg)
    case Err(e) => Outcome(h, Err(e))
    case Ok(cp) => AdvanceSpec(h, cp, msg, proof)
  }

  function AdvanceSpec(h: Head, cp: Checkpoint, msg: Bytes, proof: Option<seq<Hash>>): Outcome {
    if h.NoHead? then Outcome(Head(msg, cp), Ok(cp))
    else if cp.tree.n < h.cp.tree.n then Outcome(h, Err(Rollback))
    else if cp.tree.n == h.cp.tree.n then
      if cp.tree.hash != h.cp.tree.hash then Outcome(h, Err(Equivocated(Equivocation(h.msg, msg))))
      else
        match MergeNotes(h.msg, msg)
        case Some(merged) => Outcome(Head(merged, h.cp), Ok(h.cp))
        case None => Outcome(h, Ok(h.cp))
    else if h.cp.tree.n > 0 && proof.None? then Outcome(h, Err(SourceStale))
    else if h.cp.tree.n > 0 && !CheckTree(proof.value, cp.tree.n, cp.tree.hash, h.cp.tree.n, h.cp.tree.hash) then
      Outcome(h, Err(CheckFailed))
    else Outcome(Head(msg, cp), Ok(cp))
  }

  /** Entry: `data` is the blob the source returned, `proof` what tlog.ProveRecord returned. */
  function EntrySpec(h: Head, index: int, data: Option<Bytes>, proof: Option<seq<Hash>>): Result<Bytes, Error> {
    if h.NoHead? then Err(NoCheckpoint)
    else if index < 0 || index >= h.cp.tree.n then Err(OutOfRange)
    else if data.None? || proof.None? then Err(SourceStale)
    else if !CheckRecord(proof.value, h.cp.tree.n, h.cp.tree.hash, index, Leaf(data.value)) then Err(CheckFailed)
    else Ok(data.value)
  }

  class Client {
    const policy: Policy
    var headMsg: Bytes
    var head: Checkpoint
    var hasHead: bool

    ghost predicate Valid()
      reads this
    {
      policy.Valid() && HeadValid(policy, State())
    }

    function State(): Head
      reads this
    {
      if hasHead then Head(headMsg, head) else NoHead
    }

    constructor (policy: Policy)
      requires policy.Valid()
      ensures Valid() && State() == NoHead && this.policy == policy
    {
      this.policy := policy;
      headMsg, head, hasHead := [], Checkpoint([], Tree(0, Empty)), false;
    }

    method SetHead(msg: Bytes) returns (r: Result<Checkpoint, Error>)
      requires Valid()
      modifies this
      ensures Valid()
      ensures Outcome(State(), r) == SetHeadSpec(policy, old(State()), msg)
    {
      SetHeadKeepsValid(policy, State(), msg);
      var checked := Open(policy, msg);
      if checked.Err? {
        return checked;
      }
      var cp := checked.value;
      if hasHead {
        if cp.tree.n < head.tree.n {
          return Err(Rollback);
        }
        if cp.tree.n == head.tree.n && cp.tree.hash != head.tree.hash {
          return Err(Equivocated(Equivocation(headMsg, msg)));
        }
      }
      headMsg, head, hasHead := msg, cp, true;
      r := Ok(cp);
    }

    method Update(msg: Bytes, proof: Option<seq<Hash>>) returns (r: Result<Checkpoint, Error>)
      requires Valid()
      modifies this
      ensures Valid()
      ensures Outcome(State(), r) == UpdateSpec(policy, old(State()), msg, proof)
    {
      UpdateKeepsValid(policy, State(), msg, proof);
      var checked := Open(policy, msg);
      if checked.Err? {
        return checked;
      }
      r := Advance(checked.value, msg, proof);
    }

    /** update: the part of Update that runs with the lock held. */
    method Advance(cp: Checkpoint, msg: Bytes, proof: Option<seq<Hash>>) returns (r: Result<Checkpoint, Error>)
      modifies this
      ensures Outcome(State(), r) == AdvanceSpec(old(State()), cp, msg, proof)
    {
      if hasHead {
        if cp.tree.n < head.tree.n {
          return Err(Rollback);
        } else if cp.tree.n == head.tree.n {
          if cp.tree.hash != head.tree.hash {
            return Err(Equivocated(Equivocation(headMsg, msg)));
          }
          var merged := MergeSignedNotes(headMsg, msg);
          if merged.Some? {
            headMsg := merged.value;
          }
          return Ok(head);
        } else if head.tree.n > 0 {
          if proof.None? {
            return Err(SourceStale);
          }
          if !CheckTree(proof.value, cp.tree.n, cp.tree.hash, head.tree.n, head.tree.hash) {
            return Err(CheckFailed);
          }
        }
      }
      headMsg, head, hasHead := msg, cp, true;
      r := Ok(cp);
    }

    method Entry(index: int, data: Option<Bytes>, proof: Option<seq<Hash>>) returns (r: Result<Bytes, Error>)
      ensures r == EntrySpec(State(), index, data, proof)
    {
      if !hasHead {
        return Err(NoCheckpoint);
      }
      if index < 0 || index >= head.tree.n {
        return Err(OutOfRange);
      }
      if data.None? || proof.None? {
        return Err(SourceStale);
      }
      if !CheckRecord(proof.value, head.tree.n, head.tree.hash, index, Leaf(data.value)) {
        return Err(CheckFailed);
      }
      r := Ok(data.value);
    }
  }

  // ----------------------------------------------------------- the head note

  /** The stored note still carries what the policy asked for, and it says what the head is. */
  ghost predicate HeadValid(p: Policy, h: Head)
    requires p.Valid()
  {
    h.Head? ==> Accepts(p, h.msg, h.cp)
  }

  lemma SetHeadKeepsValid(p: Policy, h: Head, msg: Bytes)
    requires p.Valid() && HeadValid(p, h)
    ensures HeadValid(p, SetHeadSpec(p, h, msg).head)
  {
    var open := PolicyOpen(p, msg);
    if open.Ok? {
      PolicyOpenExactly(p, msg, open.value);
    }
  }

  /** Messages that merge have one text, so a merge never mixes two checkpoints. */
  lemma MergedHeadAccepted(p: Policy, a: Bytes, b: Bytes, ca: Checkpoint, cb: Checkpoint)
    requires p.Valid() && Accepts(p, a, ca) && Accepts(p, b, cb) && MergeNotes(a, b).Some?
    ensures Accepts(p, MergeNotes(a, b).value, ca)
  {
    SplitAgreesWithOpen(a);
    SplitAgreesWithOpen(b);
    MergeKeepsAccepted(p, a, b, ca);
  }

  lemma AdvanceCases(h: Head, cp: Checkpoint, msg: Bytes, proof: Option<seq<Hash>>)
    ensures var h' := AdvanceSpec(h, cp, msg, proof).head;
            || h' == h
            || h' == Head(msg, cp)
            || (h.Head? && MergeNotes(h.msg, msg).Some? && h' == Head(MergeNotes(h.msg, msg).value, h.cp))
    ensures var o := AdvanceSpec(h, cp, msg, proof); o.result.Ok? ==> o.head.Head? && o.result.value == o.head.cp
  {
  }

  lemma AdvanceKeepsValid(p: Policy, h: Head, cp: Checkpoint, msg: Bytes, proof: Option<seq<Hash>>)
    requires p.Valid() && HeadValid(p, h) && Accepts(p, msg, cp)
    ensures HeadValid(p, AdvanceSpec(h, cp, msg, proof).head)
  {
    AdvanceCases(h, cp, msg, proof);
    var h' := AdvanceSpec(h, cp, msg, proof).head;
    if h' != h && h' != Head(msg, cp) {
      MergedHeadAccepted(p, h.msg, msg, h.cp, cp);
    }
  }

  lemma UpdateKeepsValid(p: Policy, h: Head, msg: Bytes, proof: Option<seq<Hash>>)
    requires p.Valid() && HeadValid(p, h)
    ensures HeadValid(p, UpdateSpec(p, h, msg, proof).head)
  {
    match PolicyOpen(p, msg)
    case Err(_) =>
    case Ok(cp) =>
      PolicyOpenExactly(p, msg, cp);
      AdvanceKeepsValid(p, h, cp, msg, proof);
  }

  lemma AcceptedIsEvidence(p: Policy, msg: Bytes, c: Checkpoint)
    requires p.Valid() && Accepts(p, msg, c)
    ensures Evidence(msg, p.origin, p.operator, c)
  {
    assert p.operator == p.Verifiers()[0];
    CarriedIsCarries(msg, p.operator.id);
    OpensForOperator(msg, p.Verifiers(), p.operator);
  }

  /**
    A head note written by HeadNote can be restored by SetHead, and gives the
    same head, exactly when it has at most 100 signature lines.
  */
  lemma HeadNoteRestores(p: Policy, h: Head)
    requires p.Valid() && HeadValid(p, h) && h.Head?
    ensures SetHeadSpec(p, NoHead, h.msg) == Outcome(h, Ok(h.cp)) <==> LineCount(h.msg) <= MAX_SIGNATURES
  {
    PolicyOpenExactly(p, h.msg, h.cp);
    var open := PolicyOpen(p, h.msg);
    if open.Ok? {
      PolicyOpenExactly(p, h.msg, open.value);
    }
  }

  /**
    Every equivocation a client reports names two tree heads of one size signed
    by the operator; its proof verifies, also after encoding and decoding,
    exactly when the stored head note has at most 100 signature lines.
  */
  lemma ReportedEquivocationVerifies(p: Policy, h: Head, msg: Bytes, proof: Option<seq<Hash>>, e: Equivocation)
    requires p.Valid() && HeadValid(p, h)
    requires || UpdateSpec(p, h, msg, proof).result == Err(Equivocated(e))
             || SetHeadSpec(p, h, msg).result == Err(Equivocated(e))
    ensures h.Head? && e == Equivocation(h.msg, msg)
    ensures VerifyEquivocation(e, p.origin, p.operator) == Some(h.cp.tree.n) <==> LineCount(h.msg) <= MAX_SIGNATURES
    ensures MarshalBinary(e).Some?
    ensures Wire.Sized(h.msg) && Wire.Sized(msg) ==> UnmarshalBinary(MarshalBinary(e).value) == Some(e)
  {
    ReportedIsConflict(p, h, msg, proof, e);
    var cp := PolicyOpen(p, msg).value;
    PolicyOpenExactly(p, msg, cp);
    ConflictingHeadVerifies(p, h, msg, cp);
    if Wire.Sized(h.msg) && Wire.Sized(msg) {
      UnmarshalMarshal(e);
    }
  }

  lemma ReportedIsConflict(p: Policy, h: Head, msg: Bytes, proof: Option<seq<Hash>>, e: Equivocation)
    requires p.Valid()
    requires || UpdateSpec(p, h, msg, proof).result == Err(Equivocated(e))
             || SetHeadSpec(p, h, msg).result == Err(Equivocated(e))
    ensures h.Head? && e == Equivocation(h.msg, msg) && PolicyOpen(p, msg).Ok?
    ensures var t := PolicyOpen(p, msg).value.tree; t.n == h.cp.tree.n && t.hash != h.cp.tree.hash
  {
  }

  /** What a client reports is a conflict between two checkpoints the operator signed. */
  lemma ReportedIsRealConflict(p: Policy, h: Head, msg: Bytes, proof: Option<seq<Hash>>, e: Equivocation)
    requires p.Valid() && HeadValid(p, h)
    requires || UpdateSpec(p, h, msg, proof).result == Err(Equivocated(e))
             || SetHeadSpec(p, h, msg).result == Err(Equivocated(e))
    ensures Conflict(e, p.origin, p.operator)
  {
    ReportedIsConflict(p, h, msg, proof, e);
    var cp := PolicyOpen(p, msg).value;
    PolicyOpenExactly(p, msg, cp);
    AcceptedIsEvidence(p, h.msg, h.cp);
    AcceptedIsEvidence(p, msg, cp);
    assert ConflictOver(e, p.origin, p.operator, h.cp, cp);
  }

  lemma ConflictingHeadVerifies(p: Policy, h: Head, msg: Bytes, cp: Checkpoint)
    requires p.Valid() && h.Head? && HeadValid(p, h) && Accepts(p, msg, cp) && LineCount(msg) <= MAX_SIGNATURES
    requires cp.tree.n == h.cp.tree.n && cp.tree.hash != h.cp.tree.hash
    ensures var e := Equivocation(h.msg, msg);
            && (VerifyEquivocation(e, p.origin, p.operator) == Some(h.cp.tree.n) <==>
                  LineCount(h.msg) <= MAX_SIGNATURES)
            && MarshalBinary(e).Some?
  {
    AcceptedIsEvidence(p, h.msg, h.cp);
    AcceptedIsEvidence(p, msg, cp);
    ConflictVerifies(h.msg, msg, p.origin, p.operator, h.cp, cp);
  }

  /** A call either leaves the head's checkpoint or moves to the one it accepted, and returns the head's. */
  lemma ClientOutcome(p: Policy, h: Head, msg: Bytes, proof: Option<seq<Hash>>, o: Outcome)
    requires p.Valid() && (o == UpdateSpec(p, h, msg, proof) || o == SetHeadSpec(p, h, msg))
    ensures o.result.Ok? ==> o.head.Head? && o.result.value == o.head.cp
    ensures o.head == h || (o.head.Head? && h.Head? && o.head.cp == h.cp)
            || (o.head.Head? && PolicyOpen(p, msg) == Ok(o.head.cp))
  {
    match PolicyOpen(p, msg)
    case Err(_) =>
    case Ok(cp) =>
      AdvanceCases(h, cp, msg, proof);
      if o == UpdateSpec(p, h, msg, proof) {
        assert o == AdvanceSpec(h, cp, msg, proof);
      }
  }

  // -------------------------------------------------------- what is answered

  /** A checkpoint of more records than the head, which is not of the empty tree. */
  predicate MustGrow(h: Head, cp: Checkpoint) { h.Head? && 0 < h.cp.tree.n < cp.tree.n }

  predicate Grown(h: Head, cp: Checkpoint, proof: Option<seq<Hash>>)
    requires h.Head?
  {
    proof.Some? && CheckTree(proof.value, cp.tree.n, cp.tree.hash, h.cp.tree.n, h.cp.tree.hash)
  }

  /** The head lets this checkpoint be taken: it has none, the same tree, or growth that is proved or from nothing. */
  ghost predicate Takes(h: Head, cp: Checkpoint, proof: Option<seq<Hash>>) {
    h.Head? ==>
      || cp.tree == h.cp.tree
      || (h.cp.tree.n < cp.tree.n && (h.cp.tree.n == 0 || Grown(h, cp, proof)))
  }

  /** The policy accepts the message, within the line cap, as this checkpoint. */
  ghost predicate Admits(p: Policy, msg: Bytes, cp: Checkpoint)
    requires p.Valid()
  {
    Accepts(p, msg, cp) && LineCount(msg) <= MAX_SIGNATURES
  }

  /** What both calls answer to a smaller tree, and to another tree of the same size; then nothing changes. */
  ghost predicate RefusesRightly(h: Head, cp: Checkpoint, msg: Bytes, o: Outcome) {
    && (o.result == Err(Rollback) <==> h.Head? && cp.tree.n < h.cp.tree.n)
    && (forall e :: o.result == Err(Equivocated(e)) <==>
          && h.Head? && cp.tree.n == h.cp.tree.n && cp.tree.hash != h.cp.tree.hash && e == Equivocation(h.msg, msg))
    && (o.result.Err? ==> o.head == h)
  }

  /** The errors that a call has from the policy. */
  predicate PolicyError(r: Result<Checkpoint, Error>) {
    r.Err? && (r.error.NoteError? || r.error.ParseError? || r.error.OriginMismatch? || r.error.MissingOperator?
               || r.error.WitnessThreshold?)
  }

  lemma NotAdmitted(p: Policy, msg: Bytes)
    requires p.Valid() && forall cp :: !Admits(p, msg, cp)
    ensures PolicyError(PolicyOpen(p, msg))
  {
    if PolicyOpen(p, msg).Ok? {
      OkIsAdmitted(p, msg);
    } else {
      OpenErrors(p, msg);
    }
  }

  lemma OkIsAdmitted(p: Policy, msg: Bytes)
    requires p.Valid() && PolicyOpen(p, msg).Ok?
    ensures Admits(p, msg, PolicyOpen(p, msg).value)
  {
    PolicyOpenExactly(p, msg, PolicyOpen(p, msg).value);
  }

  lemma OpenErrors(p: Policy, msg: Bytes)
    requires p.Valid() && PolicyOpen(p, msg).Err?
    ensures PolicyError(PolicyOpen(p, msg))
  {
  }

  ghost predicate SetsRightly(h: Head, cp: Checkpoint, msg: Bytes, o: Outcome) {
    && RefusesRightly(h, cp, msg, o)
    && (o.result == Ok(cp) <==> h.Head? ==> cp.tree.n > h.cp.tree.n || cp.tree == h.cp.tree)
    && (o.result.Ok? ==> o == Outcome(Head(msg, cp), Ok(cp)))
  }

  lemma SetHeadOfAdmitted(p: Policy, h: Head, msg: Bytes, cp: Checkpoint)
    requires p.Valid() && Admits(p, msg, cp)
    ensures SetsRightly(h, cp, msg, SetHeadSpec(p, h, msg))
  {
    PolicyOpenExactly(p, msg, cp);
  }

  /** What SetHead answers: every admitted checkpoint is taken but for a rollback and a conflict. */
  lemma SetHeadAnswers(p: Policy, h: Head, msg: Bytes)
    requires p.Valid()
    ensures forall cp :: Admits(p, msg, cp) ==> SetsRightly(h, cp, msg, SetHeadSpec(p, h, msg))
    ensures (forall cp :: !Admits(p, msg, cp)) ==>
              PolicyError(SetHeadSpec(p, h, msg).result) && SetHeadSpec(p, h, msg).head == h
  {
    forall cp | Admits(p, msg, cp) ensures SetsRightly(h, cp, msg, SetHeadSpec(p, h, msg)) {
      SetHeadOfAdmitted(p, h, msg, cp);
    }
    if forall cp :: !Admits(p, msg, cp) {
      NotAdmitted(p, msg);
    }
  }

  /**
    What Update answers: growth is taken if it is proved, or if there is nothing to
    grow from; the same tree again leaves the head, with the signers of both notes.
  */
  lemma UpdateAnswers(p: Policy, h: Head, msg: Bytes, proof: Option<seq<Hash>>)
    requires p.Valid() && HeadValid(p, h)
    ensures forall cp :: Admits(p, msg, cp) ==> AdvancesRightly(h, cp, msg, proof, UpdateSpec(p, h, msg, proof))
    ensures (forall cp :: !Admits(p, msg, cp)) ==>
              PolicyError(UpdateSpec(p, h, msg, proof).result) && UpdateSpec(p, h, msg, proof).head == h
  {
    forall cp | Admits(p, msg, cp) ensures AdvancesRightly(h, cp, msg, proof, UpdateSpec(p, h, msg, proof)) {
      PolicyOpenExactly(p, msg, cp);
      AdvanceAnswers(p, h, cp, msg, proof);
    }
    if forall cp :: !Admits(p, msg, cp) {
      NotAdmitted(p, msg);
    }
  }

  /** Both notes' signers if they have one text; two texts of one checkpoint differ in how its size is written. */
  ghost predicate SignersJoined(h: Head, msg: Bytes, h': Head)
    requires h.Head? && h'.Head?
  {
    if NoteParts(h.msg).Some? && NoteParts(msg).Some? && NoteParts(h.msg).value.0 == NoteParts(msg).value.0 then
      CarriedIds(h'.msg) == CarriedIds(h.msg) + CarriedIds(msg)
    else h' == h
  }

  ghost predicate AdvancesRightly(h: Head, cp: Checkpoint, msg: Bytes, proof: Option<seq<Hash>>, o: Outcome) {
    && RefusesRightly(h, cp, msg, o)
    && (o.result == Err(SourceStale) <==> MustGrow(h, cp) && proof.None?)
    && (o.result == Err(CheckFailed) <==> MustGrow(h, cp) && proof.Some? && !Grown(h, cp, proof))
    && (o.result == Ok(cp) <==> Takes(h, cp, proof))
    && (o.result.Ok? ==> o.result == Ok(cp) && o.head.Head? && o.head.cp == cp)
    && (o.result.Ok? && (h.Head? ==> h.cp.tree.n < cp.tree.n) ==> o.head.msg == msg)
    && (o.result.Ok? && h.Head? && cp.tree == h.cp.tree ==> SignersJoined(h, msg, o.head))
  }

  lemma AdvanceAnswers(p: Policy, h: Head, cp: Checkpoint, msg: Bytes, proof: Option<seq<Hash>>)
    requires p.Valid() && HeadValid(p, h) && Accepts(p, msg, cp)
    ensures AdvancesRightly(h, cp, msg, proof, AdvanceSpec(h, cp, msg, proof))
  {
    if h.Head? && cp.tree == h.cp.tree {
      SameTreeAnswers(p, h, cp, msg, proof);
    } else {
      OtherTreeAnswers(h, cp, msg, proof);
    }
  }

  lemma OtherTreeAnswers(h: Head, cp: Checkpoint, msg: Bytes, proof: Option<seq<Hash>>)
    requires h.Head? ==> cp.tree != h.cp.tree
    ensures AdvancesRightly(h, cp, msg, proof, AdvanceSpec(h, cp, msg, proof))
  {
  }

  lemma SameTreeAnswers(p: Policy, h: Head, cp: Checkpoint, msg: Bytes, proof: Option<seq<Hash>>)
    requires p.Valid() && HeadValid(p, h) && Accepts(p, msg, cp) && h.Head? && cp.tree == h.cp.tree
    ensures AdvancesRightly(h, cp, msg, proof, AdvanceSpec(h, cp, msg, proof))
  {
    assert cp == h.cp;
    SameCheckpointJoins(p, h.msg, msg, cp);
    SameTreeMerges(h, cp, msg, proof);
  }

  lemma SameTreeMerges(h: Head, cp: Checkpoint, msg: Bytes, proof: Option<seq<Hash>>)
    requires h.Head? && cp == h.cp
    ensures AdvanceSpec(h, cp, msg, proof) == match MergeNotes(h.msg, msg)
                                              case Some(m) => Outcome(Head(m, cp), Ok(cp))
                                              case None => Outcome(h, Ok(cp))
  {
  }

  /** Notes on one checkpoint merge exactly if they have one text, and then carry both their signers. */
  lemma SameCheckpointJoins(p: Policy, a: Bytes, b: Bytes, cp: Checkpoint)
    requires p.Valid() && Accepts(p, a, cp) && Accepts(p, b, cp)
    ensures MergeNotes(a, b).Some? <==> NoteParts(a).value.0 == NoteParts(b).value.0
    ensures MergeNotes(a, b).Some? ==> CarriedIds(MergeNotes(a, b).value) == CarriedIds(a) + CarriedIds(b)
  {
    SplitAgreesWithOpen(a);
    SplitAgreesWithOpen(b);
    if NoteParts(a).value.0 == NoteParts(b).value.0 {
      MergeMeetsPolicy(p, a, b, cp);
    }
  }

  // ---------------------------------------------------------- runs of Update

  /** One call of Update: the message and what the source made of it. */
  datatype Call = Call(msg: Bytes, proof: Option<seq<Hash>>)

  function RunUpdates(p: Policy, h: Head, calls: seq<Call>): Head
    requires p.Valid()
    decreases |calls|
  {
    if calls == [] then h
    else RunUpdates(p, UpdateSpec(p, h, calls[0].msg, calls[0].proof).head, calls[1..])
  }

  /** The head tree that Update leaves extends the one it found. */
  lemma UpdateExtends(p: Policy, h: Head, msg: Bytes, proof: Option<seq<Hash>>)
    requires p.Valid() && h.Head?
    ensures var h' := UpdateSpec(p, h, msg, proof).head; h'.Head? && Prefix(h.cp.tree, h'.cp.tree)
  {
    match PolicyOpen(p, msg)
    case Err(_) =>
    case Ok(cp) => AdvanceExtends(h, cp, msg, proof);
  }

  lemma AdvanceExtends(h: Head, cp: Checkpoint, msg: Bytes, proof: Option<seq<Hash>>)
    requires h.Head?
    ensures var h' := AdvanceSpec(h, cp, msg, proof).head; h'.Head? && Prefix(h.cp.tree, h'.cp.tree)
  {
    if proof.Some? && CheckTree(proof.value, cp.tree.n, cp.tree.hash, h.cp.tree.n, h.cp.tree.hash) {
      CheckTreeExactly(cp.tree.n, cp.tree.hash, h.cp.tree.n, h.cp.tree.hash);
    }
  }

  /** Append-only: over any run of Update, every head is a prefix of every later one. */
  lemma {:induction false} RunIsAppendOnly(p: Policy, h: Head, calls: seq<Call>)
    requires p.Valid() && h.Head?
    ensures var h' := RunUpdates(p, h, calls); h'.Head? && Prefix(h.cp.tree, h'.cp.tree)
    decreases |calls|
  {
    if calls != [] {
      var h1 := UpdateSpec(p, h, calls[0].msg, calls[0].proof).head;
      UpdateExtends(p, h, calls[0].msg, calls[0].proof);
      RunIsAppendOnly(p, h1, calls[1..]);
      PrefixTransitive(h.cp.tree, h1.cp.tree, RunUpdates(p, h, calls).cp.tree);
    }
  }

  /**
    A record read at one head is the record read at every later head of the run,
    whatever the source answers and whatever messages came in between.
  */
  lemma EntriesNeverChange(p: Policy, h: Head, calls: seq<Call>, i: int,
                           data: Option<Bytes>, proof: Option<seq<Hash>>,
                           data': Option<Bytes>, proof': Option<seq<Hash>>)
    requires p.Valid()
    requires EntrySpec(h, i, data, proof).Ok?
    requires EntrySpec(RunUpdates(p, h, calls), i, data', proof').Ok?
    ensures EntrySpec(h, i, data, proof) == EntrySpec(RunUpdates(p, h, calls), i, data', proof')
  {
    RunIsAppendOnly(p, h, calls);
    var t, t' := h.cp.tree, RunUpdates(p, h, calls).cp.tree;
    PrefixKeepsLeaves(t, t', i);
    CheckRecordExactly(t.n, t.hash, i, Leaf(data.value));
    CheckRecordExactly(t'.n, t'.hash, i, Leaf(data'.value));
  }

  /**
    What Entry answers: a blob can be read as entry i, with some proof, exactly if
    the head commits to it there; and why it is refused otherwise.
  */
  lemma EntryAnswers(h: Head, i: int, d: Bytes)
    requires h.Head?
    ensures (exists p :: EntrySpec(h, i, Some(d), Some(p)) == Ok(d)) <==>
              0 <= i < h.cp.tree.n && LeafAt(h.cp.tree.hash, h.cp.tree.n, i) == Some(Leaf(d))
    ensures forall data, proof :: EntrySpec(h, i, data, proof) == Err(OutOfRange) <==> !(0 <= i < h.cp.tree.n)
    ensures forall data, proof :: EntrySpec(h, i, data, proof) == Err(SourceStale) <==>
              0 <= i < h.cp.tree.n && (data.None? || proof.None?)
    ensures forall data, proof :: EntrySpec(NoHead, i, data, proof) == Err(NoCheckpoint)
  {
    if 0 <= i < h.cp.tree.n {
      var t := h.cp.tree;
      CheckRecordExactly(t.n, t.hash, i, Leaf(d));
      forall p ensures EntrySpec(h, i, Some(d), Some(p)) == Ok(d) <==> CheckRecord(p, t.n, t.hash, i, Leaf(d)) {
      }
    }
  }

  /** A record the head commits to can still be proved against every later head. */
  lemma EntriesStayProvable(p: Policy, h: Head, calls: seq<Call>, i: int, data: Bytes, proof: seq<Hash>)
    requires p.Valid() && EntrySpec(h, i, Some(data), Some(proof)) == Ok(data)
    ensures exists proof' :: EntrySpec(RunUpdates(p, h, calls), i, Some(data), Some(proof')) == Ok(data)
  {
    RunIsAppendOnly(p, h, calls);
    var t, h' := h.cp.tree, RunUpdates(p, h, calls);
    var t' := h'.cp.tree;
    PrefixKeepsLeaves(t, t', i);
    CheckRecordExactly(t.n, t.hash, i, Leaf(data));
    CheckRecordExactly(t'.n, t'.hash, i, Leaf(data));
    var proof' :| CheckRecord(proof', t'.n, t'.hash, i, Leaf(data));
    assert EntrySpec(h', i, Some(data), Some(proof')) == Ok(data);
  }
}
