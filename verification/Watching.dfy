/**
  Client.Watch, the client's event loop.  It merges announcements, retries
  parked checkpoints, yields accepted heads and floods equivocation proofs.
  Other callers may use the same client between any two events.
*/
module Watching {
  import opened Wrappers
  import opened Symbols
  import opened Merkle
  import opened Notes
  import opened Checkpoints
  import opened Merging
  import opened Equivocations
  import opened Policies
  import opened Clients

  // ------------------------------------------------------------- envelopes

  datatype Kind = CheckpointEnvelope | EquivocationEnvelope

  /** openEnvelope: one type byte, then the payload. */
  function OpenEnvelope(content: Bytes): Option<(Kind, Bytes)> {
    if |content| < 2 then None
    else if content[0] == Byte(1) then Some((CheckpointEnvelope, content[1..]))
    else if content[0] == Byte(2) then Some((EquivocationEnvelope, content[1..]))
    else None
  }

  function Envelope(kind: Kind, payload: Bytes): Bytes {
    [Byte(if kind.CheckpointEnvelope? then 1 else 2)] + payload
  }

  lemma OpenMadeEnvelope(kind: Kind, payload: Bytes)
    ensures OpenEnvelope(Envelope(kind, payload)) == if payload == [] then None else Some((kind, payload))
  {
    assert Envelope(kind, payload)[1..] == payload;
  }

  /** The two type bytes; any other, or nothing after it, is no envelope. */
  lemma EnvelopeBytes(content: Bytes, payload: Bytes)
    ensures OpenEnvelope(content) == Some((CheckpointEnvelope, payload)) <==>
              content == [Byte(1)] + payload && payload != []
    ensures OpenEnvelope(content) == Some((EquivocationEnvelope, payload)) <==>
              content == [Byte(2)] + payload && payload != []
  {
    if |content| >= 2 {
      assert content == [content[0]] + content[1..];
    }
    assert ([Byte(1)] + payload)[1..] == payload && ([Byte(2)] + payload)[1..] == payload;
  }

  // ------------------------------------------------------------- the loop

  datatype Yield = Accepted(cp: Checkpoint) | Reported(proof: Equivocation)

  const ZERO: Checkpoint := Checkpoint([], Tree(0, Opaque(0)))

  /** Local variables of the loop, the client's head, and what it has put out. */
  datatype Watch = Watch(
    head: Head,
    pending: map<Bytes, Bytes>,
    flooded: set<Bytes>,
    last: Checkpoint,
    yielded: seq<Yield>,
    broadcasts: seq<Bytes>)

  datatype Event =
    | Retry(text: Bytes, proof: Option<seq<Hash>>)       // one parked message on a tick
    | Receive(content: Bytes, proof: Option<seq<Hash>>)  // one gossip message
    | OtherUpdate(msg: Bytes, proof: Option<seq<Hash>>)  // another caller of the client
    | OtherSetHead(msg: Bytes)

  function Started(h: Head): Watch {
    Watch(h, map[], {}, ZERO, [], [])
  }

  /** Broadcast a proof unless these bytes were broadcast before. */
  function Flood(w: Watch, data: Bytes): Watch {
    if data in w.flooded then w
    else w.(flooded := w.flooded + {data}, broadcasts := w.broadcasts + [data])
  }

  function ReportSpec(w: Watch, e: Equivocation): Watch {
    var w' := match MarshalBinary(e)
              case Some(data) => Flood(w, data)
              case None => w;
    w'.(yielded := w'.yielded + [Reported(e)])
  }

  /** process, given what Update made of the message. */
  function ApplySpec(w: Watch, text: Bytes, msg: Bytes, o: Outcome): Watch {
    var moved := w.(head := o.head);
    match o.result
    case Ok(cp) =>
      var w' := moved.(pending := w.pending - {text});
      if cp != w.last then w'.(last := cp, yielded := w.yielded + [Accepted(cp)]) else w'
    case Err(WitnessThreshold) => moved.(pending := w.pending[text := msg])
    case Err(SourceStale) => moved.(pending := w.pending[text := msg])
    case Err(Equivocated(e)) => ReportSpec(moved.(pending := w.pending - {text}), e)
    case Err(_) => moved.(pending := w.pending - {text})
  }

  function ProcessSpec(p: Policy, w: Watch, text: Bytes, msg: Bytes, proof: Option<seq<Hash>>): Watch
    requires p.Valid()
  {
    ApplySpec(w, text, msg, UpdateSpec(p, w.head, msg, proof))
  }

  lemma ApplyIgnoresHead(w: Watch, h: Head, text: Bytes, msg: Bytes, r: Result<Checkpoint, Error>)
    ensures ApplySpec(w.(head := h), text, msg, Outcome(h, r)) == ApplySpec(w, text, msg, Outcome(h, r))
  {
  }

  /** What is tried for an announced message: it merged with the parked one, if that works. */
  function Combined(w: Watch, text: Bytes, payload: Bytes): Bytes {
    if text in w.pending && MergeNotes(w.pending[text], payload).Some? then MergeNotes(w.pending[text], payload).value
    else payload
  }

  function ReceiveProofSpec(p: Policy, w: Watch, payload: Bytes): Watch {
    match UnmarshalBinary(payload)
    case None => w
    case Some(e) =>
      if VerifyEquivocation(e, p.origin, p.operator).None? then w
      else Repeat(w, payload, e)
  }

  /** Pass on a proof that was received and verified. */
  function Repeat(w: Watch, payload: Bytes, e: Equivocation): Watch {
    var w' := Flood(w, payload);
    w'.(yielded := w'.yielded + [Reported(e)])
  }

  function ReceiveCheckpointSpec(p: Policy, w: Watch, payload: Bytes, proof: Option<seq<Hash>>): Watch
    requires p.Valid()
  {
    match SplitNote(payload)
    case None => w
    case Some((text, _)) => ProcessSpec(p, w, text, Combined(w, text, payload), proof)
  }

  function ReceiveSpec(p: Policy, w: Watch, content: Bytes, proof: Option<seq<Hash>>): Watch
    requires p.Valid()
  {
    match OpenEnvelope(content)
    case None => w
    case Some((EquivocationEnvelope, payload)) => ReceiveProofSpec(p, w, payload)
    case Some((CheckpointEnvelope, payload)) => ReceiveCheckpointSpec(p, w, payload, proof)
  }

  function NextWatch(p: Policy, w: Watch, ev: Event): Watch
    requires p.Valid()
  {
    match ev
    case Retry(text, proof) => if text in w.pending then ProcessSpec(p, w, text, w.pending[text], proof) else w
    case Receive(content, proof) => ReceiveSpec(p, w, content, proof)
    case OtherUpdate(msg, proof) => w.(head := UpdateSpec(p, w.head, msg, proof).head)
    case OtherSetHead(msg) => w.(head := SetHeadSpec(p, w.head, msg).head)
  }

  function RunWatch(p: Policy, w: Watch, evs: seq<Event>): Watch
    requires p.Valid()
    decreases |evs|
  {
    if evs == [] then w else RunWatch(p, NextWatch(p, w, evs[0]), evs[1..])
  }

  /** The sequence lists the elements of the set, each once. */
  ghost predicate Lists<T(!new)>(order: seq<T>, s: set<T>) {
    (forall t :: t in order <==> t in s) && forall i, j :: 0 <= i < j < |order| ==> order[i] != order[j]
  }

  /** The maps agree except at one key. */
  ghost predicate SameBut(text: Bytes, before: map<Bytes, Bytes>, after: map<Bytes, Bytes>) {
    before - {text} == after - {text}
  }

  /** Trying one message parks, drops or changes no other. */
  lemma OthersStayParked(p: Policy, w: Watch, text: Bytes, msg: Bytes, proof: Option<seq<Hash>>)
    requires p.Valid()
    ensures SameBut(text, w.pending, ProcessSpec(p, w, text, msg, proof).pending)
  {
    AppliedPending(w, text, msg, UpdateSpec(p, w.head, msg, proof));
  }

  lemma AppliedPending(w: Watch, text: Bytes, msg: Bytes, o: Outcome)
    ensures SameBut(text, w.pending, ApplySpec(w, text, msg, o).pending)
  {
  }

  /** The messages of the order from i on are parked as they were at the start. */
  ghost predicate Waiting(order: seq<Bytes>, i: nat, start: map<Bytes, Bytes>, pending: map<Bytes, Bytes>) {
    forall j :: i <= j < |order| ==> order[j] in start && order[j] in pending && pending[order[j]] == start[order[j]]
  }

  lemma WaitingNext(
      order: seq<Bytes>, i: nat, start: map<Bytes, Bytes>, before: map<Bytes, Bytes>, after: map<Bytes, Bytes>)
    requires Lists(order, start.Keys) && i < |order|
    requires Waiting(order, i, start, before) && SameBut(order[i], before, after)
    ensures Waiting(order, i + 1, start, after)
  {
    forall j | i + 1 <= j < |order| ensures order[j] in after && after[order[j]] == start[order[j]] {
      assert order[j] in after - {order[i]} && (before - {order[i]})[order[j]] == (after - {order[i]})[order[j]];
    }
  }

  /** One retry of the tick, seen from the run. */
  lemma RetryStep(p: Policy, w: Watch, order: seq<Bytes>, proofs: seq<Option<seq<Hash>>>, i: nat)
    requires p.Valid() && i < |order| == |proofs| && order[i] in w.pending
    ensures RunWatch(p, w, Retries(order, proofs)[i..])
            == RunWatch(p, ProcessSpec(p, w, order[i], w.pending[order[i]], proofs[i]), Retries(order, proofs)[i + 1..])
  {
    var evs := Retries(order, proofs);
    assert evs[i..][0] == Retry(order[i], proofs[i]) && evs[i..][1..] == evs[i + 1..];
  }

  class Watcher {
    const client: Client
    var pending: map<Bytes, Bytes>
    var flooded: set<Bytes>
    var last: Checkpoint
    var yielded: seq<Yield>
    var broadcasts: seq<Bytes>

    function State(): Watch
      reads this, client
    {
      Watch(client.State(), pending, flooded, last, yielded, broadcasts)
    }

    constructor (client: Client)
      ensures this.client == client && State() == Started(client.State())
    {
      this.client := client;
      pending, flooded, last, yielded, broadcasts := map[], {}, ZERO, [], [];
    }

    method Process(text: Bytes, msg: Bytes, proof: Option<seq<Hash>>)
      requires client.Valid()
      modifies this, client
      ensures client.Valid()
      ensures State() == ProcessSpec(client.policy, old(State()), text, msg, proof)
    {
      ghost var w := State();
      var r := client.Update(msg, proof);
      ApplyIgnoresHead(w, client.State(), text, msg, r);
      Apply(text, msg, r, State());
    }

    /** The switch on what Update returned. */
    method Apply(text: Bytes, msg: Bytes, r: Result<Checkpoint, Error>, ghost w: Watch)
      requires w == State()
      modifies this
      ensures State() == ApplySpec(w, text, msg, Outcome(w.head, r))
    {
      match r
      case Ok(cp) =>
        pending := pending - {text};
        if cp != last {
          last := cp;
          yielded := yielded + [Accepted(cp)];
        }
      case Err(WitnessThreshold) => pending := pending[text := msg];
      case Err(SourceStale) => pending := pending[text := msg];
      case Err(Equivocated(e)) =>
        pending := pending - {text};
        var data := MarshalBinary(e);
        if data.Some? && data.value !in flooded {
          flooded := flooded + {data.value};
          broadcasts := broadcasts + [data.value];
        }
        yielded := yielded + [Reported(e)];
      case Err(_) => pending := pending - {text};
    }

    method Received(content: Bytes, proof: Option<seq<Hash>>)
      requires client.Valid()
      modifies this, client
      ensures client.Valid()
      ensures State() == ReceiveSpec(client.policy, old(State()), content, proof)
    {
      var env := OpenEnvelope(content);
      if env.Some? {
        if env.value.0.EquivocationEnvelope? {
          ReceivedProof(env.value.1);
        } else {
          ReceivedCheckpoint(env.value.1, proof);
        }
      }
    }

    method ReceivedProof(payload: Bytes)
      modifies this
      ensures State() == ReceiveProofSpec(client.policy, old(State()), payload)
    {
      var e := UnmarshalBinary(payload);
      if e.None? || VerifyEquivocation(e.value, client.policy.origin, client.policy.operator).None? {
        return;
      }
      if payload !in flooded {
        flooded := flooded + {payload};
        broadcasts := broadcasts + [payload];
      }
      yielded := yielded + [Reported(e.value)];
    }

    method ReceivedCheckpoint(payload: Bytes, proof: Option<seq<Hash>>)
      requires client.Valid()
      modifies this, client
      ensures client.Valid()
      ensures State() == ReceiveCheckpointSpec(client.policy, old(State()), payload, proof)
    {
      var parts := SplitNote(payload);
      if parts.None? {
        return;
      }
      var text, msg := parts.value.0, payload;
      if text in pending {
        var merged := MergeSignedNotes(pending[text], payload);
        if merged.Some? {
          msg := merged.value;
        }
      }
      Process(text, msg, proof);
    }

    /** A tick: every parked message is tried once, in any order of the map's keys. */
    method Tick(order: seq<Bytes>, proofs: seq<Option<seq<Hash>>>)
      requires client.Valid() && |order| == |proofs| && Lists(order, pending.Keys)
      modifies this, client
      ensures client.Valid()
      ensures State() == RunWatch(client.policy, old(State()), Retries(order, proofs))
    {
      ghost var p, evs, start := client.policy, Retries(order, proofs), pending;
      ghost var goal := RunWatch(p, State(), evs);
      for i := 0 to |order|
        invariant client.Valid() && Waiting(order, i, start, pending)
        invariant RunWatch(p, State(), evs[i..]) == goal
      {
        RetryStep(p, State(), order, proofs, i);
        OthersStayParked(p, State(), order[i], pending[order[i]], proofs[i]);
        ghost var before := pending;
        Process(order[i], pending[order[i]], proofs[i]);
        WaitingNext(order, i, start, before, pending);
      }
      assert evs[|order|..] == [];
    }
  }

  function Retries(order: seq<Bytes>, proofs: seq<Option<seq<Hash>>>): (r: seq<Event>)
    requires |order| == |proofs|
    ensures |r| == |order|
    ensures forall i :: 0 <= i < |r| ==> r[i] == Retry(order[i], proofs[i])
  {
    seq(|order|, i requires 0 <= i < |order| => Retry(order[i], proofs[i]))
  }

  // ------------------------------------------------------------ the invariant

  /** A parked message opens, is a checkpoint of this log signed by its operator, and is filed under its own text. */
  ghost predicate Parked(p: Policy, text: Bytes, msg: Bytes)
    requires p.Valid()
  {
    && NoteOpen(msg, p.Verifiers()).Some?
    && NoteParts(msg).value.0 == text
    && ParseCheckpoint(text).Some? && ParseCheckpoint(text).value.origin == p.origin
    && p.operator.id in CarriedIds(msg)
  }

  /** The last yielded head is not ahead of the client, and is its head if as large. */
  ghost predicate NotAhead(last: Checkpoint, h: Head) {
    last != ZERO ==> h.Head? && last.tree.n <= h.cp.tree.n && (last.tree.n == h.cp.tree.n ==> last == h.cp)
  }

  /** Sizes of yielded heads strictly increase, and the last one is remembered. */
  ghost predicate Increasing(yielded: seq<Yield>, last: Checkpoint) {
    && (forall i, j :: 0 <= i < j < |yielded| && yielded[i].Accepted? && yielded[j].Accepted? ==>
          yielded[i].cp.tree.n < yielded[j].cp.tree.n)
    && (forall i :: 0 <= i < |yielded| && yielded[i].Accepted? ==> last != ZERO && yielded[i].cp.tree.n <= last.tree.n)
  }

  /** The proof is of two signed and conflicting checkpoints, and verifies if its first message is within the cap. */
  ghost predicate SoundProof(p: Policy, e: Equivocation) {
    && Conflict(e, p.origin, p.operator)
    && (VerifyEquivocation(e, p.origin, p.operator).Some? <==> LineCount(e.first) <= MAX_SIGNATURES)
  }

  /** These bytes encode such a proof. */
  ghost predicate SoundBytes(p: Policy, data: Bytes) {
    exists e :: SoundProof(p, e) && (MarshalBinary(e) == Some(data) || UnmarshalBinary(data) == Some(e))
  }

  ghost predicate OutputsOk(sound: Equivocation -> bool, bytes: Bytes -> bool, w: Watch) {
    && (forall d :: d in w.broadcasts ==> d in w.flooded && bytes(d))
    && (forall i, j :: 0 <= i < j < |w.broadcasts| ==> w.broadcasts[i] != w.broadcasts[j])
    && (forall i :: 0 <= i < |w.yielded| && w.yielded[i].Reported? ==> sound(w.yielded[i].proof))
  }

  ghost predicate PendingOk(parked: (Bytes, Bytes) -> bool, pending: map<Bytes, Bytes>) {
    forall t :: t in pending ==> parked(t, pending[t])
  }

  /** The loop's own invariant, for any notion of a parked message and of a sound proof. */
  ghost predicate LoopInv(parked: (Bytes, Bytes) -> bool, sound: Equivocation -> bool, bytes: Bytes -> bool, w: Watch) {
    && PendingOk(parked, w.pending)
    && NotAhead(w.last, w.head)
    && Increasing(w.yielded, w.last)
    && OutputsOk(sound, bytes, w)
  }

  ghost function IsParked(p: Policy): (Bytes, Bytes) -> bool
    requires p.Valid()
  {
    (t, m) => Parked(p, t, m)
  }

  ghost function IsSound(p: Policy): Equivocation -> bool { e => SoundProof(p, e) }

  ghost function AreSound(p: Policy): Bytes -> bool { d => SoundBytes(p, d) }

  ghost predicate WatchInv(p: Policy, w: Watch)
    requires p.Valid()
  {
    HeadValid(p, w.head) && LoopInv(IsParked(p), IsSound(p), AreSound(p), w)
  }

  lemma OpenedIsParked(p: Policy, msg: Bytes, h: Head, proof: Option<seq<Hash>>)
    requires p.Valid()
    requires UpdateSpec(p, h, msg, proof).result in {Err(WitnessThreshold), Err(SourceStale)}
    ensures NoteParts(msg).Some? && Parked(p, NoteParts(msg).value.0, msg)
  {
    match PolicyOpen(p, msg)
    case Ok(cp) => PolicyOpenExactly(p, msg, cp);
    case Err(e) => ThresholdMeansSigned(p, msg);
  }

  /** The head after Update or SetHead is at least as large, and the same checkpoint if as large. */
  lemma HeadAdvances(p: Policy, h: Head, msg: Bytes, proof: Option<seq<Hash>>, o: Outcome)
    requires p.Valid() && HeadValid(p, h)
    requires o == UpdateSpec(p, h, msg, proof) || o == SetHeadSpec(p, h, msg)
    ensures HeadValid(p, o.head)
    ensures h.Head? ==> o.head.Head? && h.cp.tree.n <= o.head.cp.tree.n
                        && (h.cp.tree.n == o.head.cp.tree.n ==> h.cp == o.head.cp)
  {
    UpdateKeepsValid(p, h, msg, proof);
    SetHeadKeepsValid(p, h, msg);
    match PolicyOpen(p, msg)
    case Err(_) =>
    case Ok(cp) =>
      PolicyOpenExactly(p, msg, cp);
      AdvanceCases(h, cp, msg, proof);
  }

  lemma StillNotAhead(last: Checkpoint, h: Head, h': Head)
    requires NotAhead(last, h)
    requires h.Head? ==> h'.Head? && h.cp.tree.n <= h'.cp.tree.n && (h.cp.tree.n == h'.cp.tree.n ==> h.cp == h'.cp)
    ensures NotAhead(last, h')
  {
  }

  lemma FloodKeeps(sound: Equivocation -> bool, bytes: Bytes -> bool, w: Watch, data: Bytes)
    requires OutputsOk(sound, bytes, w) && bytes(data)
    ensures OutputsOk(sound, bytes, Flood(w, data))
  {
  }

  lemma ReportKeeps(sound: Equivocation -> bool, bytes: Bytes -> bool, w: Watch, e: Equivocation)
    requires OutputsOk(sound, bytes, w) && sound(e) && Increasing(w.yielded, w.last)
    requires MarshalBinary(e).Some? ==> bytes(MarshalBinary(e).value)
    ensures OutputsOk(sound, bytes, ReportSpec(w, e))
    ensures Increasing(ReportSpec(w, e).yielded, w.last)
  {
    if MarshalBinary(e).Some? {
      FloodKeeps(sound, bytes, w, MarshalBinary(e).value);
    }
  }

  lemma RepeatKeeps(parked: (Bytes, Bytes) -> bool, sound: Equivocation -> bool, bytes: Bytes -> bool,
                    w: Watch, payload: Bytes, e: Equivocation)
    requires LoopInv(parked, sound, bytes, w) && sound(e) && bytes(payload)
    ensures LoopInv(parked, sound, bytes, Repeat(w, payload, e))
  {
    FloodKeeps(sound, bytes, w, payload);
  }

  lemma YieldKeeps(w: Watch, cp: Checkpoint, h': Head)
    requires Increasing(w.yielded, w.last) && NotAhead(w.last, h')
    requires h'.Head? && h'.cp == cp && cp != w.last && cp != ZERO
    ensures Increasing(w.yielded + [Accepted(cp)], cp) && NotAhead(cp, h')
  {
  }

  lemma NotZero(p: Policy, h: Head)
    requires p.Valid() && HeadValid(p, h)
    ensures h.Head? ==> h.cp != ZERO
  {
  }

  lemma UpdateReportsSound(p: Policy, h: Head, msg: Bytes, proof: Option<seq<Hash>>, e: Equivocation)
    requires p.Valid() && HeadValid(p, h) && UpdateSpec(p, h, msg, proof).result == Err(Equivocated(e))
    ensures SoundProof(p, e)
  {
    ReportedIsRealConflict(p, h, msg, proof, e);
    VerifiesExactly(e, p.origin, p.operator);
  }

  /** What process needs to know about the outcome of Update. */
  ghost predicate GoodOutcome(parked: (Bytes, Bytes) -> bool, sound: Equivocation -> bool, bytes: Bytes -> bool,
                              text: Bytes, msg: Bytes, o: Outcome) {
    && (o.result.Ok? ==> o.head.Head? && o.result.value == o.head.cp && o.head.cp != ZERO)
    && (o.result in {Err(WitnessThreshold), Err(SourceStale)} ==> parked(text, msg))
    && (forall e :: o.result == Err(Equivocated(e)) ==>
          sound(e) && (MarshalBinary(e).Some? ==> bytes(MarshalBinary(e).value)))
  }

  lemma ApplyKeeps(parked: (Bytes, Bytes) -> bool, sound: Equivocation -> bool, bytes: Bytes -> bool,
                   w: Watch, text: Bytes, msg: Bytes, o: Outcome)
    requires LoopInv(parked, sound, bytes, w) && NotAhead(w.last, o.head)
    requires GoodOutcome(parked, sound, bytes, text, msg, o)
    ensures LoopInv(parked, sound, bytes, ApplySpec(w, text, msg, o))
  {
    var dropped := w.(head := o.head, pending := w.pending - {text});
    assert LoopInv(parked, sound, bytes, dropped);
    match o.result
    case Ok(cp) =>
      if cp != w.last {
        YieldKeeps(w, cp, o.head);
        assert LoopInv(parked, sound, bytes, dropped.(last := cp, yielded := w.yielded + [Accepted(cp)]));
      }
    case Err(Equivocated(e)) => ReportKeeps(sound, bytes, dropped, e);
    case Err(WitnessThreshold) => ParkKeeps(parked, sound, bytes, w, o.head, text, msg);
    case Err(SourceStale) => ParkKeeps(parked, sound, bytes, w, o.head, text, msg);
    case Err(_) =>
  }

  lemma ParkKeeps(parked: (Bytes, Bytes) -> bool, sound: Equivocation -> bool, bytes: Bytes -> bool,
                  w: Watch, h: Head, text: Bytes, msg: Bytes)
    requires LoopInv(parked, sound, bytes, w) && NotAhead(w.last, h) && parked(text, msg)
    ensures LoopInv(parked, sound, bytes, w.(head := h, pending := w.pending[text := msg]))
  {
  }

  /** The message is filed under the text it will open with. */
  ghost predicate FiledRight(text: Bytes, msg: Bytes) {
    NoteParts(msg).Some? && ParseCheckpoint(NoteParts(msg).value.0).Some? ==> NoteParts(msg).value.0 == text
  }

  lemma UpdateIsGood(p: Policy, h: Head, text: Bytes, msg: Bytes, proof: Option<seq<Hash>>)
    requires p.Valid() && HeadValid(p, h) && FiledRight(text, msg)
    ensures GoodOutcome(IsParked(p), IsSound(p), AreSound(p), text, msg, UpdateSpec(p, h, msg, proof))
  {
    var o := UpdateSpec(p, h, msg, proof);
    UpdateKeepsValid(p, h, msg, proof);
    ClientOutcome(p, h, msg, proof, o);
    NotZero(p, o.head);
    if o.result in {Err(WitnessThreshold), Err(SourceStale)} {
      OpenedIsParked(p, msg, h, proof);
    }
    forall e | o.result == Err(Equivocated(e)) ensures SoundProof(p, e) {
      UpdateReportsSound(p, h, msg, proof, e);
    }
  }

  lemma ProcessKeeps(p: Policy, w: Watch, text: Bytes, msg: Bytes, proof: Option<seq<Hash>>)
    requires p.Valid() && WatchInv(p, w) && FiledRight(text, msg)
    ensures WatchInv(p, ProcessSpec(p, w, text, msg, proof))
  {
    var o := UpdateSpec(p, w.head, msg, proof);
    HeadAdvances(p, w.head, msg, proof, o);
    StillNotAhead(w.last, w.head, o.head);
    UpdateIsGood(p, w.head, text, msg, proof);
    ApplyKeeps(IsParked(p), IsSound(p), AreSound(p), w, text, msg, o);
    HeadOfApplied(w, text, msg, o);
  }

  lemma HeadOfApplied(w: Watch, text: Bytes, msg: Bytes, o: Outcome)
    ensures ApplySpec(w, text, msg, o).head == o.head
  {
  }

  /** A merged or plain announcement is filed under the text it will open with. */
  lemma CombinedText(p: Policy, w: Watch, text: Bytes, payload: Bytes)
    requires p.Valid()
    requires SplitNote(payload).Some? && SplitNote(payload).value.0 == text
    ensures FiledRight(text, Combined(w, text, payload))
  {
    var msg := Combined(w, text, payload);
    if NoteParts(msg).Some? && ParseCheckpoint(NoteParts(msg).value.0).Some? {
      SplitAgreesWithOpen(msg);
      if msg != payload {
        SplitOfMerged(w.pending[text], payload);
      }
    }
  }

  lemma SplitOfMerged(a: Bytes, b: Bytes)
    requires MergeNotes(a, b).Some? && SplitNote(b).Some?
    ensures SplitNote(MergeNotes(a, b).value).Some?
    ensures SplitNote(MergeNotes(a, b).value).value.0 == SplitNote(b).value.0
  {
    var text := SplitNote(b).value.0;
    var m := MergeNotes(a, b).value;
    var i := Lines.FirstBlank(b);
    assert m[..i + 1] == text && m[i + 1] == NL;
    assert Lines.BlankAt(m, i);
    forall j | j < i ensures !Lines.BlankAt(m, j) {
      assert !Lines.BlankAt(b, j);
    }
  }

  lemma VerifiedIsSound(p: Policy, payload: Bytes, e: Equivocation)
    requires UnmarshalBinary(payload) == Some(e) && VerifyEquivocation(e, p.origin, p.operator).Some?
    ensures IsSound(p)(e) && AreSound(p)(payload)
  {
    VerifiesExactly(e, p.origin, p.operator);
  }

  lemma ReceiveProofKeeps(p: Policy, w: Watch, payload: Bytes)
    requires p.Valid() && WatchInv(p, w)
    ensures WatchInv(p, ReceiveProofSpec(p, w, payload))
  {
    var e := UnmarshalBinary(payload);
    if e.Some? && VerifyEquivocation(e.value, p.origin, p.operator).Some? {
      VerifiedIsSound(p, payload, e.value);
      RepeatKeeps(IsParked(p), IsSound(p), AreSound(p), w, payload, e.value);
    }
  }

  lemma ReceiveKeeps(p: Policy, w: Watch, content: Bytes, proof: Option<seq<Hash>>)
    requires p.Valid() && WatchInv(p, w)
    ensures WatchInv(p, ReceiveSpec(p, w, content, proof))
  {
    match OpenEnvelope(content)
    case None =>
    case Some((EquivocationEnvelope, payload)) => ReceiveProofKeeps(p, w, payload);
    case Some((CheckpointEnvelope, payload)) =>
      match SplitNote(payload)
      case None =>
      case Some((text, _)) =>
        CombinedText(p, w, text, payload);
        ProcessKeeps(p, w, text, Combined(w, text, payload), proof);
  }

  lemma NextWatchKeeps(p: Policy, w: Watch, ev: Event)
    requires p.Valid() && WatchInv(p, w)
    ensures WatchInv(p, NextWatch(p, w, ev))
  {
    match ev
    case Retry(text, proof) =>
      if text in w.pending {
        assert IsParked(p)(text, w.pending[text]);
        ProcessKeeps(p, w, text, w.pending[text], proof);
      }
    case Receive(content, proof) => ReceiveKeeps(p, w, content, proof);
    case OtherUpdate(msg, proof) =>
      HeadAdvances(p, w.head, msg, proof, UpdateSpec(p, w.head, msg, proof));
    case OtherSetHead(msg) =>
      HeadAdvances(p, w.head, msg, None, SetHeadSpec(p, w.head, msg));
  }

  /**
    Over every sequence of events: parked messages carry a valid operator
    signature and are filed under their own text, the sizes of yielded heads
    strictly increase, no encoding of a proof is broadcast twice, and what is
    broadcast or reported is of two checkpoints of one size and different hashes
    that the operator signed, and verifies exactly when its first message is
    within the cap on signature lines.
  */
  lemma {:induction false} WatchKeepsInv(p: Policy, w: Watch, evs: seq<Event>)
    requires p.Valid() && WatchInv(p, w)
    ensures WatchInv(p, RunWatch(p, w, evs))
    decreases |evs|
  {
    if evs != [] {
      NextWatchKeeps(p, w, evs[0]);
      WatchKeepsInv(p, NextWatch(p, w, evs[0]), evs[1..]);
    }
  }

  lemma WatchIsSafe(p: Policy, h: Head, evs: seq<Event>)
    requires p.Valid() && HeadValid(p, h)
    ensures WatchInv(p, RunWatch(p, Started(h), evs))
  {
    WatchKeepsInv(p, Started(h), evs);
  }

  // ----------------------------------------------------------- repeated proofs

  /** A received proof, if there is one, is encoded as MarshalBinary would. */
  predicate CanonicalEvent(ev: Event) {
    match ev
    case Receive(content, _) =>
      (match OpenEnvelope(content)
       case Some((EquivocationEnvelope, payload)) => Canonical(payload)
       case _ => true)
    case _ => true
  }

  ghost predicate AllCanonical(broadcasts: seq<Bytes>) {
    forall d :: d in broadcasts ==> Canonical(d)
  }

  lemma ApplyKeepsCanonical(w: Watch, text: Bytes, msg: Bytes, o: Outcome)
    requires AllCanonical(w.broadcasts)
    ensures AllCanonical(ApplySpec(w, text, msg, o).broadcasts)
  {
    match o.result
    case Err(Equivocated(e)) =>
      if MarshalBinary(e).Some? {
        MarshalIsCanonical(e);
      }
    case _ =>
  }

  lemma ProofKeepsCanonical(p: Policy, w: Watch, payload: Bytes)
    requires AllCanonical(w.broadcasts) && Canonical(payload)
    ensures AllCanonical(ReceiveProofSpec(p, w, payload).broadcasts)
  {
  }

  lemma NextKeepsCanonical(p: Policy, w: Watch, ev: Event)
    requires p.Valid() && AllCanonical(w.broadcasts) && CanonicalEvent(ev)
    ensures AllCanonical(NextWatch(p, w, ev).broadcasts)
  {
    match ev
    case Retry(text, proof) =>
      if text in w.pending {
        ApplyKeepsCanonical(w, text, w.pending[text], UpdateSpec(p, w.head, w.pending[text], proof));
      }
    case Receive(content, proof) =>
      match OpenEnvelope(content) {
        case None =>
        case Some((EquivocationEnvelope, payload)) => ProofKeepsCanonical(p, w, payload);
        case Some((CheckpointEnvelope, payload)) =>
          match SplitNote(payload)
          case None =>
          case Some((text, _)) =>
            var msg := Combined(w, text, payload);
            ApplyKeepsCanonical(w, text, msg, UpdateSpec(p, w.head, msg, proof));
      }
    case _ =>
  }

  lemma {:induction false} RunKeepsCanonical(p: Policy, w: Watch, evs: seq<Event>)
    requires p.Valid() && AllCanonical(w.broadcasts) && forall ev :: ev in evs ==> CanonicalEvent(ev)
    ensures AllCanonical(RunWatch(p, w, evs).broadcasts)
    decreases |evs|
  {
    if evs != [] {
      NextKeepsCanonical(p, w, evs[0]);
      RunKeepsCanonical(p, NextWatch(p, w, evs[0]), evs[1..]);
    }
  }

  /** Two broadcasts are of one proof only if one of them is not its MarshalBinary. */
  lemma RepeatedOnlyIfPadded(p: Policy, h: Head, evs: seq<Event>, i: nat, j: nat)
    requires p.Valid() && HeadValid(p, h)
    requires i < j < |RunWatch(p, Started(h), evs).broadcasts|
    ensures var sent := RunWatch(p, Started(h), evs).broadcasts;
            UnmarshalBinary(sent[i]).Some? && UnmarshalBinary(sent[i]) == UnmarshalBinary(sent[j]) ==>
              !Canonical(sent[i]) || !Canonical(sent[j])
  {
    WatchIsSafe(p, h, evs);
    var sent := RunWatch(p, Started(h), evs).broadcasts;
    if UnmarshalBinary(sent[i]).Some? && UnmarshalBinary(sent[i]) == UnmarshalBinary(sent[j]) {
      if Canonical(sent[i]) && Canonical(sent[j]) {
        CanonicalDecides(sent[i], sent[j]);
      }
    }
  }

  /** A run that receives no proof in a padded encoding broadcasts each proof at most once. */
  lemma EachProofOnce(p: Policy, h: Head, evs: seq<Event>, i: nat, j: nat)
    requires p.Valid() && HeadValid(p, h) && forall ev :: ev in evs ==> CanonicalEvent(ev)
    requires i < j < |RunWatch(p, Started(h), evs).broadcasts|
    ensures var sent := RunWatch(p, Started(h), evs).broadcasts;
            UnmarshalBinary(sent[i]).Some? ==> UnmarshalBinary(sent[i]) != UnmarshalBinary(sent[j])
  {
    RunKeepsCanonical(p, Started(h), evs);
    RepeatedOnlyIfPadded(p, h, evs, i, j);
  }

  /** The gossip message that carries these bytes as a proof. */
  function ProofEvent(data: Bytes): Event {
    Receive(Envelope(EquivocationEnvelope, data), None)
  }

  lemma ReceivedProofFloods(p: Policy, w: Watch, data: Bytes, e: Equivocation)
    requires p.Valid() && data != []
    requires UnmarshalBinary(data) == Some(e) && VerifyEquivocation(e, p.origin, p.operator).Some?
    ensures NextWatch(p, w, ProofEvent(data)) == Repeat(w, data, e)
  {
    OpenMadeEnvelope(EquivocationEnvelope, data);
  }

  /**
    After a verifying proof was received, another encoding of it is broadcast
    again exactly when that encoding is not the canonical one.
  */
  lemma RepeatsExactly(p: Policy, h: Head, e: Equivocation, data: Bytes, again: Bytes)
    requires p.Valid() && VerifyEquivocation(e, p.origin, p.operator).Some?
    requires MarshalBinary(e) == Some(data) && UnmarshalBinary(data) == Some(e)
    requires again != [] && UnmarshalBinary(again) == Some(e)
    ensures RunWatch(p, Started(h), [ProofEvent(data), ProofEvent(again)]).broadcasts
            == if Canonical(again) then [data] else [data, again]
  {
    var w := Repeat(Started(h), data, e);
    ReceivedProofFloods(p, Started(h), data, e);
    ReceivedProofFloods(p, w, again, e);
    RunOfTwo(p, Started(h), ProofEvent(data), ProofEvent(again));
    CanonicalIsMarshal(again, data, e);
    RepeatedBroadcasts(h, data, again, e);
  }

  lemma RunOfTwo(p: Policy, w: Watch, a: Event, b: Event)
    requires p.Valid()
    ensures RunWatch(p, w, [a, b]) == NextWatch(p, NextWatch(p, w, a), b)
  {
    assert [a, b][1..] == [b] && [b][1..] == [];
    assert RunWatch(p, NextWatch(p, w, a), [b]) == NextWatch(p, NextWatch(p, w, a), b);
  }

  lemma RepeatedBroadcasts(h: Head, data: Bytes, again: Bytes, e: Equivocation)
    ensures Repeat(Repeat(Started(h), data, e), again, e).broadcasts == if again == data then [data] else [data, again]
  {
  }

  /** Every verifying proof can be broadcast twice: it is enough to pad its first length. */
  lemma PaddedProofRepeats(p: Policy, h: Head, e: Equivocation)
    requires p.Valid() && VerifyEquivocation(e, p.origin, p.operator).Some?
    requires Wire.Sized(e.first) && Wire.Sized(e.second)
    ensures MarshalBinary(e).Some? && UnmarshalBinary(Padded(e)) == Some(e)
    ensures var data := MarshalBinary(e).value;
            && data != Padded(e)
            && RunWatch(p, Started(h), [ProofEvent(data), ProofEvent(Padded(e))]).broadcasts == [data, Padded(e)]
  {
    VerifiesExactly(e, p.origin, p.operator);
    UnmarshalMarshal(e);
    PaddedDecodes(e);
    RepeatsExactly(p, h, e, MarshalBinary(e).value, Padded(e));
  }

  // --------------------------------------------------- what a whole run broadcasts

  /** The proof that an outcome reports, encoded. */
  function ReportOf(o: Outcome): seq<Bytes> {
    match o.result
    case Err(Equivocated(e)) => if MarshalBinary(e).Some? then [MarshalBinary(e).value] else []
    case _ => []
  }

  /** What an event gives the loop to flood: an own report, or a received proof that verifies. */
  function Offered(p: Policy, w: Watch, ev: Event): seq<Bytes>
    requires p.Valid()
  {
    match ev
    case Retry(text, proof) =>
      if text in w.pending then ReportOf(UpdateSpec(p, w.head, w.pending[text], proof)) else []
    case Receive(content, proof) =>
      (match OpenEnvelope(content)
       case None => []
       case Some((EquivocationEnvelope, payload)) => VerifiedPayload(p, payload)
       case Some((CheckpointEnvelope, payload)) =>
         match SplitNote(payload)
         case None => []
         case Some((text, _)) => ReportOf(UpdateSpec(p, w.head, Combined(w, text, payload), proof)))
    case _ => []
  }

  function VerifiedPayload(p: Policy, payload: Bytes): seq<Bytes> {
    match UnmarshalBinary(payload)
    case None => []
    case Some(e) => if VerifyEquivocation(e, p.origin, p.operator).Some? then [payload] else []
  }

  function OfferedIn(p: Policy, w: Watch, evs: seq<Event>): seq<Bytes>
    requires p.Valid()
    decreases |evs|
  {
    if evs == [] then [] else Offered(p, w, evs[0]) + OfferedIn(p, NextWatch(p, w, evs[0]), evs[1..])
  }

  /** What was flooded is what was broadcast. */
  ghost predicate Recalls(w: Watch) { w.flooded == set d | d in w.broadcasts }

  lemma FloodsOne(w: Watch, data: Bytes)
    requires Recalls(w)
    ensures Recalls(Flood(w, data)) && Flood(w, data).broadcasts == EachFirst(w.broadcasts, [data])
  {
    assert [data][1..] == [];
  }

  lemma ApplyFloods(w: Watch, text: Bytes, msg: Bytes, o: Outcome)
    requires Recalls(w)
    ensures Recalls(ApplySpec(w, text, msg, o))
    ensures ApplySpec(w, text, msg, o).broadcasts == EachFirst(w.broadcasts, ReportOf(o))
  {
    var rest := ReportOf(o);
    assert rest != [] ==> rest[1..] == [];
  }

  lemma ProofFloods(p: Policy, w: Watch, payload: Bytes)
    requires Recalls(w)
    ensures Recalls(ReceiveProofSpec(p, w, payload))
    ensures ReceiveProofSpec(p, w, payload).broadcasts == EachFirst(w.broadcasts, VerifiedPayload(p, payload))
  {
    FloodsOne(w, payload);
    match UnmarshalBinary(payload)
    case None =>
    case Some(e) =>
      if VerifyEquivocation(e, p.origin, p.operator).Some? {
        RepeatFloods(p, w, payload, e);
      }
  }

  lemma RepeatFloods(p: Policy, w: Watch, payload: Bytes, e: Equivocation)
    requires UnmarshalBinary(payload) == Some(e) && VerifyEquivocation(e, p.origin, p.operator).Some?
    ensures ReceiveProofSpec(p, w, payload).broadcasts == Flood(w, payload).broadcasts
    ensures ReceiveProofSpec(p, w, payload).flooded == Flood(w, payload).flooded
    ensures VerifiedPayload(p, payload) == [payload]
  {
  }

  lemma NextFloods(p: Policy, w: Watch, ev: Event)
    requires p.Valid() && Recalls(w)
    ensures Recalls(NextWatch(p, w, ev))
    ensures NextWatch(p, w, ev).broadcasts == EachFirst(w.broadcasts, Offered(p, w, ev))
  {
    match ev
    case Retry(text, proof) =>
      if text in w.pending {
        ApplyFloods(w, text, w.pending[text], UpdateSpec(p, w.head, w.pending[text], proof));
      }
    case Receive(content, proof) =>
      match OpenEnvelope(content) {
        case None =>
        case Some((EquivocationEnvelope, payload)) => ProofFloods(p, w, payload);
        case Some((CheckpointEnvelope, payload)) =>
          match SplitNote(payload)
          case None =>
          case Some((text, _)) =>
            var msg := Combined(w, text, payload);
            ApplyFloods(w, text, msg, UpdateSpec(p, w.head, msg, proof));
      }
    case _ =>
  }

  /** Over every run the broadcasts are all that was offered, each string of bytes at its first occurrence. */
  lemma {:induction false} BroadcastsAreOffered(p: Policy, w: Watch, evs: seq<Event>)
    requires p.Valid() && Recalls(w)
    ensures RunWatch(p, w, evs).broadcasts == EachFirst(w.broadcasts, OfferedIn(p, w, evs))
    decreases |evs|
  {
    if evs != [] {
      var next := NextWatch(p, w, evs[0]);
      NextFloods(p, w, evs[0]);
      BroadcastsAreOffered(p, next, evs[1..]);
      EachFirstConcat(w.broadcasts, Offered(p, w, evs[0]), OfferedIn(p, next, evs[1..]));
    }
  }

  /**
    A run broadcasts no proof twice if and only if no proof was offered to it in
    two encodings, by its own reports and the received proofs that verify.
  */
  lemma NoProofTwiceExactly(p: Policy, h: Head, evs: seq<Event>)
    requires p.Valid()
    ensures ProofsOnce(RunWatch(p, Started(h), evs).broadcasts) <==> OneEncodingEach(OfferedIn(p, Started(h), evs))
  {
    BroadcastsAreOffered(p, Started(h), evs);
    OnceExactly(OfferedIn(p, Started(h), evs));
  }
}
