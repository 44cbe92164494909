/** What Watch parks, yields and gives up. */
module Announcements {
  import opened Wrappers
  import opened Seqs
  import opened Symbols
  import opened Lines
  import opened Notes
  import opened Checkpoints
  import opened Merging
  import opened Equivocations
  import opened Policies
  import opened Clients
  import opened Watching

  // ------------------------------------------------- the lines of a raw message

  function NonEmpty(ls: seq<Bytes>): set<Bytes> { set l | l in ls && l != [] }

  /** The signature lines of a message as splitNote cuts it, well-formed or not. */
  function RawLines(msg: Bytes): set<Bytes> {
    match SplitNote(msg)
    case None => {}
    case Some((_, sigs)) => NonEmpty(TextLines(sigs))
  }

  lemma {:induction false} DedupRaw(ls: seq<Bytes>, seen: set<Bytes>)
    ensures forall l :: l in Dedup(ls, seen) <==> l in ls && l != [] && l !in seen
  {
    if ls != [] {
      DedupRaw(ls[1..], seen);
      DedupRaw(ls[1..], seen + {ls[0]});
      assert forall l :: l in ls <==> l == ls[0] || l in ls[1..];
    }
  }

  lemma TextLinesOfPieces(ls: seq<Bytes>)
    requires forall l :: l in ls ==> OneLine(l)
    ensures TextLines(JoinLines(ls)) == ls
  {
    SplitJoin(ls);
    assert (ls + [[]])[..|ls|] == ls;
  }

  lemma {:induction false} SplitAfterLines(ls: seq<Bytes>, rest: Bytes)
    requires forall l :: l in ls ==> OneLine(l)
    ensures SplitLines(JoinLines(ls) + rest) == ls + SplitLines(rest)
    decreases |ls|
  {
    if ls == [] {
      Units(SplitLines(rest));
      assert JoinLines(ls) + rest == rest;
    } else {
      var l, others := ls[0], ls[1..];
      SplitAfterLines(others, rest);
      Assoc(l + [NL], JoinLines(others), rest);
      SplitFirst(l, JoinLines(others) + rest);
      Assoc([l], others, SplitLines(rest));
      assert ls == [l] + others;
    }
  }

  lemma TextLinesAfter(ls: seq<Bytes>, rest: Bytes)
    requires forall l :: l in ls ==> OneLine(l)
    ensures NonEmpty(TextLines(JoinLines(ls) + rest)) == NonEmpty(ls) + NonEmpty(TextLines(rest))
  {
    SplitAfterLines(ls, rest);
    NonEmptyPieces(JoinLines(ls) + rest);
    NonEmptyPieces(rest);
    assert forall l :: l in ls + SplitLines(rest) <==> l in ls || l in SplitLines(rest);
  }

  lemma NonEmptyPieces(s: Bytes)
    ensures NonEmpty(TextLines(s)) == NonEmpty(SplitLines(s))
  {
    var ls := SplitLines(s);
    assert ls == ls[..|ls| - 1] + [ls[|ls| - 1]];
  }

  /**
    A message over the text of a parked note always merges with it, and the merge
    has exactly the signature lines of both, whatever the new message's lines are.
  */
  lemma MergeJoinsLines(a: Bytes, b: Bytes)
    requires NoteParts(a).Some? && ParseCheckpoint(NoteParts(a).value.0).Some?
    requires SplitNote(b).Some? && SplitNote(b).value.0 == NoteParts(a).value.0
    ensures MergeNotes(a, b).Some?
    ensures RawLines(MergeNotes(a, b).value) == RawLines(a) + RawLines(b)
  {
    var (text, lines) := NoteParts(a).value;
    var fs := FormatSigLines(lines);
    var sb := SplitNote(b).value.1;
    CutOfNote(a);
    TextLinesAfter(fs, sb);
    TextLinesOfPieces(fs);
    CheckpointTextHasNoBlank(text);
    MergedRawLines(text, TextLines(JoinLines(fs) + sb));
    MergeOfSplit(a, b, text, JoinLines(fs), sb, Dedup(TextLines(JoinLines(fs) + sb), {}));
  }

  /** Where a note over a checkpoint text is cut, and its signature lines. */
  lemma CutOfNote(a: Bytes)
    requires NoteParts(a).Some? && ParseCheckpoint(NoteParts(a).value.0).Some?
    ensures var (text, lines) := NoteParts(a).value;
            && SplitNote(a) == Some((text, JoinLines(FormatSigLines(lines)))) && WellFormed(lines)
            && forall l :: l in FormatSigLines(lines) ==> OneLine(l) && l != []
  {
    var (text, lines) := NoteParts(a).value;
    PartsAssemble(a);
    CheckpointTextHasNoBlank(text);
    SplitAssembled(text, lines);
    ParseFormatSigLines(lines);
  }

  lemma MergedRawLines(text: Bytes, ls: seq<Bytes>)
    requires text != [] && text[|text| - 1] == NL && NoBlank(text) && forall l :: l in ls ==> OneLine(l)
    ensures RawLines(text + [NL] + JoinLines(Dedup(ls, {}))) == NonEmpty(ls)
  {
    var kept := Dedup(ls, {});
    DedupRaw(ls, {});
    SplitOfText(text, JoinLines(kept));
    TextLinesOfPieces(kept);
  }

  lemma SplitOfText(text: Bytes, sigs: Bytes)
    requires text != [] && text[|text| - 1] == NL && NoBlank(text)
    ensures SplitNote(text + [NL] + sigs) == Some((text, sigs))
  {
    var msg := text + [NL] + sigs;
    assert BlankAt(msg, |text| - 1);
    forall j | j < |text| - 1 ensures !BlankAt(msg, j) {
      assert !BlankAt(text, j);
    }
    assert FirstBlank(msg) == |text| - 1;
    assert msg[..|text|] == text && msg[|text| + 1..] == sigs;
  }

  /** The keys claimed by raw lines; those that are no signature lines claim none. */
  function RawIds(lines: set<Bytes>): set<KeyId> {
    set l | l in lines && ParseSigLine(l).Some? :: ParseSigLine(l).value.id
  }

  lemma CarriedAreRaw(msg: Bytes)
    requires NoteParts(msg).Some? && ParseCheckpoint(NoteParts(msg).value.0).Some?
    ensures CarriedIds(msg) == RawIds(RawLines(msg))
  {
    var lines := NoteParts(msg).value.1;
    CutOfNote(msg);
    TextLinesOfPieces(FormatSigLines(lines));
    IdsOfFormatted(lines);
  }

  lemma IdsOfFormatted(lines: seq<SigLine>)
    requires WellFormed(lines)
    ensures RawIds(NonEmpty(FormatSigLines(lines))) == Ids(lines)
  {
    var fs := FormatSigLines(lines);
    forall i | 0 <= i < |lines| ensures fs[i] != [] && ParseSigLine(fs[i]) == Some(lines[i]) {
      assert lines[i] in lines;
      ParseFormatSigLine(lines[i]);
    }
    forall id | id in Ids(lines) ensures id in RawIds(NonEmpty(fs)) {
      var l :| l in lines && l.id == id;
      var i :| 0 <= i < |lines| && lines[i] == l;
      assert fs[i] in NonEmpty(fs);
    }
    forall id | id in RawIds(NonEmpty(fs)) ensures id in Ids(lines) {
      var f :| f in NonEmpty(fs) && ParseSigLine(f).Some? && ParseSigLine(f).value.id == id;
      var i :| 0 <= i < |fs| && fs[i] == f;
      assert lines[i] in lines;
    }
  }

  // ------------------------------------------------------- one message tried

  /** Complete but for cosignatures, or for a source that has caught up. */
  ghost predicate Waits(p: Policy, h: Head, msg: Bytes, proof: Option<seq<Hash>>)
    requires p.Valid()
  {
    || ((exists c :: Circulating(p, msg, c)) && LineCount(msg) <= MAX_SIGNATURES
        && Count(p.witnesses, CarriedIds(msg)) < p.k)
    || (proof.None? && exists c :: Admits(p, msg, c) && MustGrow(h, c))
  }

  /** Trying a message parks it under this text exactly if it waits for something, and then does nothing else. */
  lemma ParksExactly(p: Policy, w: Watch, text: Bytes, msg: Bytes, proof: Option<seq<Hash>>)
    requires p.Valid() && HeadValid(p, w.head)
    ensures var w' := ProcessSpec(p, w, text, msg, proof);
            if Waits(p, w.head, msg, proof) then w' == w.(pending := w.pending[text := msg])
            else w'.pending == w.pending - {text}
  {
    WaitingAnswers(p, w.head, msg, proof);
    AppliedParks(w, text, msg, UpdateSpec(p, w.head, msg, proof));
  }

  /** Update answers with one of the two errors that park exactly for a message that waits. */
  lemma WaitingAnswers(p: Policy, h: Head, msg: Bytes, proof: Option<seq<Hash>>)
    requires p.Valid() && HeadValid(p, h)
    ensures var o := UpdateSpec(p, h, msg, proof);
            && (Waits(p, h, msg, proof) <==> Parking(o.result))
            && (Parking(o.result) ==> o.head == h)
  {
    BelowThresholdExactly(p, msg);
    if exists c :: Admits(p, msg, c) {
      var c :| Admits(p, msg, c);
      AdmittedWaits(p, h, msg, proof, c);
    } else {
      ErrorOfPolicy(p, h, msg, proof);
    }
  }

  lemma AdmittedWaits(p: Policy, h: Head, msg: Bytes, proof: Option<seq<Hash>>, c: Checkpoint)
    requires p.Valid() && HeadValid(p, h) && Admits(p, msg, c)
    ensures Waits(p, h, msg, proof) <==> proof.None? && MustGrow(h, c)
    ensures Parking(UpdateSpec(p, h, msg, proof).result) <==> proof.None? && MustGrow(h, c)
    ensures Parking(UpdateSpec(p, h, msg, proof).result) ==> UpdateSpec(p, h, msg, proof).head == h
  {
    AdmittedOnce(p, msg, c);
    BelowThresholdExactly(p, msg);
    GrowthWaits(h, c, msg, proof);
  }

  lemma GrowthWaits(h: Head, cp: Checkpoint, msg: Bytes, proof: Option<seq<Hash>>)
    ensures var o := AdvanceSpec(h, cp, msg, proof);
            && (Parking(o.result) <==> proof.None? && MustGrow(h, cp)) && (Parking(o.result) ==> o.head == h)
  {
  }

  predicate Parking(r: Result<Checkpoint, Error>) { r == Err(WitnessThreshold) || r == Err(SourceStale) }

  lemma AdmittedOnce(p: Policy, msg: Bytes, c: Checkpoint)
    requires p.Valid() && Admits(p, msg, c)
    ensures PolicyOpen(p, msg) == Ok(c) && forall d :: Admits(p, msg, d) ==> d == c
  {
    PolicyOpenExactly(p, msg, c);
  }

  lemma ErrorOfPolicy(p: Policy, h: Head, msg: Bytes, proof: Option<seq<Hash>>)
    requires p.Valid() && forall c :: !Admits(p, msg, c)
    ensures PolicyOpen(p, msg).Err? && UpdateSpec(p, h, msg, proof) == Outcome(h, PolicyOpen(p, msg))
  {
    NotAdmitted(p, msg);
  }

  lemma AppliedParks(w: Watch, text: Bytes, msg: Bytes, o: Outcome)
    ensures Parking(o.result) && o.head == w.head ==>
              ApplySpec(w, text, msg, o) == w.(pending := w.pending[text := msg])
    ensures !Parking(o.result) ==> ApplySpec(w, text, msg, o).pending == w.pending - {text}
  {
  }

  /** A message the policy admits and the head can take is yielded, unless just yielded, and no longer parked. */
  lemma YieldsAdmitted(p: Policy, w: Watch, text: Bytes, msg: Bytes, proof: Option<seq<Hash>>, cp: Checkpoint)
    requires p.Valid() && HeadValid(p, w.head) && Admits(p, msg, cp) && Takes(w.head, cp, proof)
    ensures var w' := ProcessSpec(p, w, text, msg, proof);
            && w'.pending == w.pending - {text} && w'.last == cp && w'.head.Head? && w'.head.cp == cp
            && w'.yielded == (if cp == w.last then w.yielded else w.yielded + [Accepted(cp)])
            && w'.broadcasts == w.broadcasts
  {
    UpdateAnswers(p, w.head, msg, proof);
    AppliedYields(w, text, msg, UpdateSpec(p, w.head, msg, proof), cp);
  }

  lemma AppliedYields(w: Watch, text: Bytes, msg: Bytes, o: Outcome, cp: Checkpoint)
    requires o.result == Ok(cp)
    ensures var w' := ApplySpec(w, text, msg, o);
            && w'.pending == w.pending - {text} && w'.last == cp && w'.head == o.head
            && w'.yielded == (if cp == w.last then w.yielded else w.yielded + [Accepted(cp)])
            && w'.broadcasts == w.broadcasts
  {
  }

  /** A conflict with the head is reported, and its proof is flooded. */
  lemma ReportsConflict(p: Policy, w: Watch, text: Bytes, msg: Bytes, proof: Option<seq<Hash>>, cp: Checkpoint)
    requires p.Valid() && HeadValid(p, w.head) && Admits(p, msg, cp)
    requires w.head.Head? && cp.tree.n == w.head.cp.tree.n && cp.tree.hash != w.head.cp.tree.hash
    ensures var w', e := ProcessSpec(p, w, text, msg, proof), Equivocation(w.head.msg, msg);
            && w'.pending == w.pending - {text} && w'.head == w.head
            && w'.yielded == w.yielded + [Reported(e)]
            && MarshalBinary(e).Some? && MarshalBinary(e).value in w'.flooded
            && (MarshalBinary(e).value !in w.flooded ==> w'.broadcasts == w.broadcasts + [MarshalBinary(e).value])
  {
    var e := Equivocation(w.head.msg, msg);
    UpdateAnswers(p, w.head, msg, proof);
    ReportedIsRealConflict(p, w.head, msg, proof, e);
    VerifiesExactly(e, p.origin, p.operator);
    AppliedReports(w, text, msg, UpdateSpec(p, w.head, msg, proof), e);
  }

  lemma AppliedReports(w: Watch, text: Bytes, msg: Bytes, o: Outcome, e: Equivocation)
    requires o.result == Err(Equivocated(e)) && MarshalBinary(e).Some?
    ensures var w', data := ApplySpec(w, text, msg, o), MarshalBinary(e).value;
            && w'.pending == w.pending - {text} && w'.head == o.head && w'.yielded == w.yielded + [Reported(e)]
            && data in w'.flooded
            && (data !in w.flooded ==> w'.broadcasts == w.broadcasts + [data])
  {
  }

  // ------------------------------------------------------------- whole events

  function Announce(payload: Bytes, proof: Option<seq<Hash>>): Event {
    Receive(Envelope(CheckpointEnvelope, payload), proof)
  }

  /** The payload is cut at this text. */
  predicate CutAt(payload: Bytes, text: Bytes) { SplitNote(payload).Some? && SplitNote(payload).value.0 == text }

  lemma AnnouncedIsTried(p: Policy, w: Watch, text: Bytes, payload: Bytes, proof: Option<seq<Hash>>)
    requires p.Valid() && CutAt(payload, text)
    ensures NextWatch(p, w, Announce(payload, proof)) == ProcessSpec(p, w, text, Combined(w, text, payload), proof)
  {
    assert payload != [];
    OpenMadeEnvelope(CheckpointEnvelope, payload);
  }

  /** A received proof that verifies is yielded every time, and passed on unless these bytes were before. */
  lemma ProofIsReported(p: Policy, w: Watch, data: Bytes, e: Equivocation)
    requires p.Valid() && data != [] && UnmarshalBinary(data) == Some(e)
    requires VerifyEquivocation(e, p.origin, p.operator).Some?
    ensures var w' := NextWatch(p, w, Receive([Byte(2)] + data, None));
            && w'.yielded == w.yielded + [Reported(e)] && data in w'.flooded
            && w'.broadcasts == (if data in w.flooded then w.broadcasts else w.broadcasts + [data])
            && w'.pending == w.pending && w'.head == w.head && w'.last == w.last
  {
    ReceivedProofFloods(p, w, data, e);
    RepeatReports(w, data, e);
    assert Envelope(EquivocationEnvelope, data) == [Byte(2)] + data;
  }

  lemma RepeatReports(w: Watch, data: Bytes, e: Equivocation)
    ensures var w' := Repeat(w, data, e);
            && w'.yielded == w.yielded + [Reported(e)] && data in w'.flooded
            && w'.broadcasts == (if data in w.flooded then w.broadcasts else w.broadcasts + [data])
            && w'.pending == w.pending && w'.head == w.head && w'.last == w.last
  {
  }

  /** One that does not verify, or does not decode, changes nothing. */
  lemma BadProofIsIgnored(p: Policy, w: Watch, data: Bytes)
    requires p.Valid() && data != []
    requires UnmarshalBinary(data).Some? ==> VerifyEquivocation(UnmarshalBinary(data).value, p.origin, p.operator).None?
    ensures NextWatch(p, w, Receive([Byte(2)] + data, None)) == w
  {
    EnvelopeBytes([Byte(2)] + data, data);
  }

  lemma CirculatingCut(p: Policy, msg: Bytes, c: Checkpoint)
    requires p.Valid() && Circulating(p, msg, c)
    ensures CutAt(msg, NoteParts(msg).value.0)
  {
    SplitAgreesWithOpen(msg);
  }

  /** The first announcement over a text waits; the second completes it. */
  lemma MergeCompletes(p: Policy, a: Bytes, b: Bytes, cp: Checkpoint)
    requires p.Valid() && Circulating(p, a, cp) && OpensUncapped(b, p.Verifiers())
    requires NoteParts(a).value.0 == NoteParts(b).value.0
    requires Count(p.witnesses, CarriedIds(a) + CarriedIds(b)) >= p.k
    ensures MergeNotes(a, b).Some? && Accepts(p, MergeNotes(a, b).value, cp)
  {
    MergeMeetsPolicy(p, a, b, cp);
  }

  /**
    Cosignatures that come apart are put together: two announcements over one text,
    the first short of the threshold, that meet it together and merge within the
    line cap, are yielded as one accepted checkpoint, if the head can take it.
  */
  lemma TwoPartsYield(
      p: Policy, h: Head, a: Bytes, b: Bytes, cp: Checkpoint, pa: Option<seq<Hash>>, pb: Option<seq<Hash>>)
    requires p.Valid() && HeadValid(p, h) && Takes(h, cp, pb)
    requires Circulating(p, a, cp) && LineCount(a) <= MAX_SIGNATURES && Count(p.witnesses, CarriedIds(a)) < p.k
    requires OpensUncapped(b, p.Verifiers()) && NoteParts(a).value.0 == NoteParts(b).value.0
    requires Count(p.witnesses, CarriedIds(a) + CarriedIds(b)) >= p.k
    requires MergeNotes(a, b).Some? ==> LineCount(MergeNotes(a, b).value) <= MAX_SIGNATURES
    ensures var w := RunWatch(p, Started(h), [Announce(a, pa), Announce(b, pb)]);
            w.yielded == [Accepted(cp)] && w.pending == map[] && w.head.Head? && w.head.cp == cp
  {
    var text := NoteParts(a).value.0;
    CirculatingCut(p, a, cp);
    SplitAgreesWithOpen(b);
    FirstPartParks(p, Started(h), text, a, pa, cp);
    MergeCompletes(p, a, b, cp);
    var w := Started(h).(pending := map[text := a]);
    assert map[][text := a] == map[text := a];
    RunOfTwo(p, Started(h), Announce(a, pa), Announce(b, pb));
    SecondPartYields(p, w, text, a, b, pb, cp);
    assert map[text := a] - {text} == map[];
  }

  lemma FirstPartParks(p: Policy, w: Watch, text: Bytes, a: Bytes, proof: Option<seq<Hash>>, cp: Checkpoint)
    requires p.Valid() && HeadValid(p, w.head) && text !in w.pending && CutAt(a, text)
    requires Circulating(p, a, cp) && LineCount(a) <= MAX_SIGNATURES && Count(p.witnesses, CarriedIds(a)) < p.k
    ensures NextWatch(p, w, Announce(a, proof)) == w.(pending := w.pending[text := a])
  {
    AnnouncedIsTried(p, w, text, a, proof);
    ParksExactly(p, w, text, a, proof);
  }

  lemma SecondPartYields(
      p: Policy, w: Watch, text: Bytes, a: Bytes, b: Bytes, proof: Option<seq<Hash>>, cp: Checkpoint)
    requires p.Valid() && HeadValid(p, w.head) && Takes(w.head, cp, proof)
    requires text in w.pending && w.pending[text] == a && CutAt(b, text)
    requires MergeNotes(a, b).Some? && Admits(p, MergeNotes(a, b).value, cp)
    ensures var w' := NextWatch(p, w, Announce(b, proof));
            && w'.pending == w.pending - {text} && w'.head.Head? && w'.head.cp == cp
            && w'.yielded == (if cp == w.last then w.yielded else w.yielded + [Accepted(cp)])
  {
    AnnouncedIsTried(p, w, text, b, proof);
    YieldsAdmitted(p, w, text, MergeNotes(a, b).value, proof, cp);
  }

  /** A message that the source had not caught up to is kept, and yielded on a tick once it has. */
  lemma StaleYieldsLater(p: Policy, h: Head, a: Bytes, cp: Checkpoint, proof: Option<seq<Hash>>)
    requires p.Valid() && HeadValid(p, h) && Admits(p, a, cp) && MustGrow(h, cp) && Grown(h, cp, proof)
    ensures var text := NoteParts(a).value.0;
            && RunWatch(p, Started(h), [Announce(a, None)]) == Started(h).(pending := map[text := a])
            && var w := RunWatch(p, Started(h), [Announce(a, None), Retry(text, proof)]);
               w.yielded == [Accepted(cp)] && w.pending == map[] && w.head == Head(a, cp)
  {
    var text := NoteParts(a).value.0;
    SplitAgreesWithOpen(a);
    AnnouncedIsTried(p, Started(h), text, a, None);
    ParksExactly(p, Started(h), text, a, None);
    var w := Started(h).(pending := map[text := a]);
    assert map[][text := a] == map[text := a];
    assert [Announce(a, None)][1..] == [];
    assert NextWatch(p, Started(h), Announce(a, None)) == w;
    RunOfTwo(p, Started(h), Announce(a, None), Retry(text, proof));
    YieldsAdmitted(p, w, text, a, proof, cp);
    UpdateAnswers(p, h, a, proof);
    HeadOfApplied(w, text, a, UpdateSpec(p, h, a, proof));
    assert map[text := a] - {text} == map[];
  }

  // --------------------------------------------------------- parked over a run

  /** The event tries a message under this text. */
  predicate Concerns(ev: Event, text: Bytes) {
    match ev
    case Retry(t, _) => t == text
    case Receive(content, _) =>
      (match OpenEnvelope(content)
       case Some((CheckpointEnvelope, payload)) => CutAt(payload, text)
       case _ => false)
    case _ => false
  }

  /** What is parked stays parked, as it is, until an event concerns its text. */
  lemma StaysParked(p: Policy, w: Watch, ev: Event, text: Bytes)
    requires p.Valid() && !Concerns(ev, text)
    ensures var w' := NextWatch(p, w, ev);
            (text in w'.pending <==> text in w.pending) && (text in w.pending ==> w'.pending[text] == w.pending[text])
  {
    match ev
    case Retry(t, proof) =>
      if t in w.pending {
        OthersStayParked(p, w, t, w.pending[t], proof);
        SameElsewhere(t, text, w.pending, ProcessSpec(p, w, t, w.pending[t], proof).pending);
      }
    case Receive(content, proof) =>
      match OpenEnvelope(content) {
        case None =>
        case Some((EquivocationEnvelope, payload)) => ProofParksNothing(p, w, payload);
        case Some((CheckpointEnvelope, payload)) =>
          match SplitNote(payload)
          case None =>
          case Some((t, _)) =>
            OthersStayParked(p, w, t, Combined(w, t, payload), proof);
            SameElsewhere(t, text, w.pending, ProcessSpec(p, w, t, Combined(w, t, payload), proof).pending);
      }
    case _ =>
  }

  lemma SameElsewhere(t: Bytes, text: Bytes, before: map<Bytes, Bytes>, after: map<Bytes, Bytes>)
    requires SameBut(t, before, after) && t != text
    ensures (text in after <==> text in before) && (text in before ==> after[text] == before[text])
  {
    assert text in before <==> text in before - {t};
    assert text in after <==> text in after - {t};
    assert text in before ==> (before - {t})[text] == (after - {t})[text];
  }

  lemma ProofParksNothing(p: Policy, w: Watch, payload: Bytes)
    ensures ReceiveProofSpec(p, w, payload).pending == w.pending
  {
  }

  /** The signature lines of the messages that came over a text since it was last not parked. */
  function Came(p: Policy, w: Watch, evs: seq<Event>, text: Bytes, before: set<Bytes>): set<Bytes>
    requires p.Valid()
    decreases |evs|
  {
    if evs == [] then before
    else
      var w' := NextWatch(p, w, evs[0]);
      Came(p, w', evs[1..], text, if text !in w'.pending then {} else before + NewLines(evs[0], text))
  }

  /** The signature lines of an announcement over this text. */
  function NewLines(ev: Event, text: Bytes): set<Bytes> {
    if ev.Receive? && Concerns(ev, text) then RawLines(OpenEnvelope(ev.content).value.1) else {}
  }

  /** Parked under this text is a note with exactly these signature lines. */
  ghost predicate ParkedWith(w: Watch, text: Bytes, lines: set<Bytes>) {
    if text in w.pending then RawLines(w.pending[text]) == lines else lines == {}
  }

  lemma NextParksAll(p: Policy, w: Watch, ev: Event, text: Bytes, lines: set<Bytes>)
    requires p.Valid() && WatchInv(p, w) && ParkedWith(w, text, lines)
    ensures var w' := NextWatch(p, w, ev);
            ParkedWith(w', text, if text !in w'.pending then {} else lines + NewLines(ev, text))
  {
    if !Concerns(ev, text) {
      OtherParksAll(p, w, ev, text, lines);
    } else if ev.Retry? {
      RetriedParksAll(p, w, ev, text, lines);
    } else {
      AnnouncedParksAll(p, w, ev, text, lines);
    }
  }

  lemma OtherParksAll(p: Policy, w: Watch, ev: Event, text: Bytes, lines: set<Bytes>)
    requires p.Valid() && ParkedWith(w, text, lines) && !Concerns(ev, text)
    ensures var w' := NextWatch(p, w, ev);
            ParkedWith(w', text, if text !in w'.pending then {} else lines + NewLines(ev, text))
  {
    StaysParked(p, w, ev, text);
  }

  lemma RetriedParksAll(p: Policy, w: Watch, ev: Event, text: Bytes, lines: set<Bytes>)
    requires p.Valid() && HeadValid(p, w.head) && ParkedWith(w, text, lines) && ev.Retry? && ev.text == text
    ensures var w' := NextWatch(p, w, ev);
            ParkedWith(w', text, if text !in w'.pending then {} else lines + NewLines(ev, text))
  {
    if text in w.pending {
      TriedParksAll(p, w, text, w.pending[text], ev.proof);
    }
  }

  lemma AnnouncedParksAll(p: Policy, w: Watch, ev: Event, text: Bytes, lines: set<Bytes>)
    requires p.Valid() && WatchInv(p, w) && ParkedWith(w, text, lines) && ev.Receive? && Concerns(ev, text)
    ensures var w' := NextWatch(p, w, ev);
            ParkedWith(w', text, if text !in w'.pending then {} else lines + NewLines(ev, text))
  {
    var payload := OpenEnvelope(ev.content).value.1;
    CombinedLines(p, w, text, payload, lines);
    TriedParksAll(p, w, text, Combined(w, text, payload), ev.proof);
  }

  lemma TriedParksAll(p: Policy, w: Watch, text: Bytes, msg: Bytes, proof: Option<seq<Hash>>)
    requires p.Valid() && HeadValid(p, w.head)
    ensures var w' := ProcessSpec(p, w, text, msg, proof);
            ParkedWith(w', text, if text !in w'.pending then {} else RawLines(msg))
  {
    ParksExactly(p, w, text, msg, proof);
  }

  lemma CombinedLines(p: Policy, w: Watch, text: Bytes, payload: Bytes, lines: set<Bytes>)
    requires p.Valid() && WatchInv(p, w) && ParkedWith(w, text, lines) && CutAt(payload, text)
    ensures RawLines(Combined(w, text, payload)) == lines + RawLines(payload)
  {
    if text in w.pending {
      assert IsParked(p)(text, w.pending[text]);
      MergeJoinsLines(w.pending[text], payload);
    }
  }

  /**
    Over every run, a parked note carries exactly the signature lines of all the
    messages that came over its text since it was first parked, and so the keys
    that these lines claim.
  */
  lemma {:induction false} ParkedHasAll(p: Policy, w: Watch, evs: seq<Event>, text: Bytes, lines: set<Bytes>)
    requires p.Valid() && WatchInv(p, w) && ParkedWith(w, text, lines)
    ensures ParkedWith(RunWatch(p, w, evs), text, Came(p, w, evs, text, lines))
    decreases |evs|
  {
    if evs != [] {
      var w' := NextWatch(p, w, evs[0]);
      NextWatchKeeps(p, w, evs[0]);
      NextParksAll(p, w, evs[0], text, lines);
      ParkedHasAll(p, w', evs[1..], text, if text !in w'.pending then {} else lines + NewLines(evs[0], text));
    }
  }

  lemma ParkedCarriesAll(p: Policy, h: Head, evs: seq<Event>, text: Bytes)
    requires p.Valid() && HeadValid(p, h)
    ensures var w := RunWatch(p, Started(h), evs);
            text in w.pending ==>
              && RawLines(w.pending[text]) == Came(p, Started(h), evs, text, {})
              && CarriedIds(w.pending[text]) == RawIds(Came(p, Started(h), evs, text, {}))
  {
    ParkedHasAll(p, Started(h), evs, text, {});
    WatchIsSafe(p, h, evs);
    var w := RunWatch(p, Started(h), evs);
    if text in w.pending {
      assert IsParked(p)(text, w.pending[text]);
      CarriedAreRaw(w.pending[text]);
    }
  }

  /**
    So nothing that came is lost: after any run, an announcement or a tick that
    makes what has come over a text acceptable, with a head that can take it,
    yields the checkpoint, unless it is the last one that was yielded.
  */
  lemma CompletedIsYielded(
      p: Policy, h: Head, evs: seq<Event>, text: Bytes, payload: Bytes, proof: Option<seq<Hash>>, cp: Checkpoint)
    requires p.Valid() && HeadValid(p, h) && CutAt(payload, text)
    requires var w := RunWatch(p, Started(h), evs);
             && text in w.pending && Takes(w.head, cp, proof)
             && (MergeNotes(w.pending[text], payload).Some? ==>
                   Admits(p, MergeNotes(w.pending[text], payload).value, cp))
    ensures var w := RunWatch(p, Started(h), evs);
            var w' := NextWatch(p, w, Announce(payload, proof));
            && text !in w'.pending && w'.last == cp
            && w'.yielded == (if cp == w.last then w.yielded else w.yielded + [Accepted(cp)])
  {
    WatchIsSafe(p, h, evs);
    var w := RunWatch(p, Started(h), evs);
    assert IsParked(p)(text, w.pending[text]);
    MergeJoinsLines(w.pending[text], payload);
    AnnouncedIsTried(p, w, text, payload, proof);
    YieldsAdmitted(p, w, text, MergeNotes(w.pending[text], payload).value, proof, cp);
  }
}
