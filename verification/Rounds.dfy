/** One collective as interleaved steps of n ranks. */
module Rounds {
  // The ranks share a stable membership and one sequence number.  Each dials the
  // ranks below it in turn and waits for the ranks above it to call.  Calls and
  // answers may be delayed, overtaken or lost, and a call that comes before its
  // callee has published is dropped by the callee but answered later.

  import opened Wrappers
  import opened Vectors

  datatype Frame = Frame(caller: nat, values: Vector)

  /** Which collective it is; every rank runs the same. */
  datatype Job = Reducing(op: Op) | Gathering

  /** What a loop has so far: a reduction, or parts by rank, each as long as the own one. */
  datatype Partial = Reduced(op: Op, sum: Vector) | Gathered(size: nat, parts: map<nat, Vector>) {
    function Size(): nat { if Reduced? then |sum| else size }

    function Add(peer: nat, values: Vector): Partial
      requires |values| == Size()
    {
      if Reduced? then Reduced(op, Reduce(op, sum, values)) else Gathered(size, parts[peer := values])
    }

    /** None if a rank is missing. */
    function Result(n: nat): Option<Vector>
      requires n > 0
    {
      if Reduced? then Some(Scale(op, n, sum))
      else if exists r :: 0 <= r < n && r !in parts then None
      else Some(Concat(seq(n, r requires 0 <= r < n => parts[r])))
    }
  }

  function Start(job: Job, rank: nat, values: Vector): Partial {
    match job
    case Reducing(op) => Reduced(op, values)
    case Gathering => Gathered(|values|, map[rank := values])
  }

  /** `folded` lists the ranks whose vectors are in `part` or `out`; `next` is the next member in the loop. */
  datatype Phase =
    | Waiting
    | Looping(part: Partial, folded: seq<nat>, next: nat, dialing: bool)
    | Done(out: Vector, folded: seq<nat>)
    | Failed

  /**
    `mine` is what each rank was called with.  `local` and `inbound` are the
    mailboxes: there from publishLocal to clearLocal.  Calls and answers under
    way and calls being served are kept by caller and callee.  `dialed` records
    every call ever made.
  */
  datatype Round = Round(
    mine: seq<Option<Vector>>, phase: seq<Phase>, local: seq<Option<Vector>>, inbound: seq<Option<seq<Frame>>>,
    calls: map<(nat, nat), Vector>, serving: set<(nat, nat)>, answers: map<(nat, nat), Vector>, dialed: set<(nat, nat)>)

  datatype Step =
    | Issue(rank: nat, values: Vector)
    | Skip(rank: nat)
    | Dial(rank: nat)
    | Arrive(caller: nat, callee: nat)
    | Serve(caller: nat, callee: nat)
    | Answered(rank: nat)
    | Take(rank: nat)
    | Return(rank: nat)
    | Abort(rank: nat)
    | LoseCall(caller: nat, callee: nat)
    | LoseServing(caller: nat, callee: nat)
    | LoseAnswer(caller: nat, callee: nat)

  function Initial(n: nat): Round {
    Round(seq(n, _ => None), seq(n, _ => Waiting), seq(n, _ => None), seq(n, _ => None), map[], {}, map[], {})
  }

  predicate Shaped(w: Round) { |w.mine| == |w.phase| == |w.local| == |w.inbound| }

  predicate InLoop(w: Round, r: nat) { r < |w.phase| && w.phase[r].Looping? }

  predicate Enabled(w: Round, s: Step)
    requires Shaped(w)
  {
    match s
    case Issue(r, _) => r < |w.phase| && w.phase[r].Waiting?
    case Skip(r) => InLoop(w, r) && w.phase[r].next == r
    case Dial(r) => InLoop(w, r) && w.phase[r].next < r && !w.phase[r].dialing
    case Arrive(f, t) => (f, t) in w.calls && t < |w.phase|
    case Serve(f, t) => (f, t) in w.serving && t < |w.phase| && w.local[t].Some?
    case Answered(r) => InLoop(w, r) && w.phase[r].next < r && w.phase[r].dialing && (r, w.phase[r].next) in w.answers
    case Take(r) => InLoop(w, r) && r < w.phase[r].next < |w.phase| && w.inbound[r].Some? && w.inbound[r].value != []
    case Return(r) => InLoop(w, r) && w.phase[r].next == |w.phase|
    case Abort(r) => InLoop(w, r)
    case LoseCall(f, t) => (f, t) in w.calls
    case LoseServing(f, t) => (f, t) in w.serving
    case LoseAnswer(f, t) => (f, t) in w.answers
  }

  /** clearLocal, with the phase the rank ends in. */
  function Ended(w: Round, r: nat, p: Phase): Round
    requires Shaped(w) && r < |w.phase|
  {
    w.(phase := w.phase[r := p], local := w.local[r := None], inbound := w.inbound[r := None])
  }

  /** The loop's body once a peer's vector is there. */
  function FoldIn(p: Phase, peer: nat, values: Vector): Phase
    requires p.Looping?
  {
    if |values| != p.part.Size() then Failed
    else Looping(p.part.Add(peer, values), p.folded + [peer], p.next + 1, false)
  }

  /** After the loop. */
  function Finish(p: Phase, n: nat): Phase
    requires p.Looping? && n > 0
  {
    match p.part.Result(n)
    case None => Failed
    case Some(v) => Done(v, p.folded)
  }

  /** A rank that fails on a peer's vector clears its mailboxes. */
  function WithPhase(w: Round, r: nat, p: Phase): Round
    requires Shaped(w) && r < |w.phase|
  {
    if p.Failed? then Ended(w, r, p) else w.(phase := w.phase[r := p])
  }

  function Apply(job: Job, w: Round, s: Step): Round
    requires Shaped(w) && Enabled(w, s)
  {
    match s
    case Issue(r, v) =>
      w.(mine := w.mine[r := Some(v)], phase := w.phase[r := Looping(Start(job, r, v), [r], 0, false)],
         local := w.local[r := Some(v)], inbound := w.inbound[r := Some([])])
    case Skip(r) => w.(phase := w.phase[r := w.phase[r].(next := r + 1)])
    case Dial(r) =>
      var t := w.phase[r].next;
      w.(phase := w.phase[r := w.phase[r].(dialing := true)],
         calls := (if w.mine[r].Some? then w.calls[(r, t) := w.mine[r].value] else w.calls),
         dialed := w.dialed + {(r, t)})
    case Arrive(f, t) =>
      var v := w.calls[(f, t)];
      var gone := w.(calls := w.calls - {(f, t)}, serving := w.serving + {(f, t)});
      if w.inbound[t].Some? && |w.inbound[t].value| < |w.phase|
      then gone.(inbound := w.inbound[t := Some(w.inbound[t].value + [Frame(f, v)])])
      else gone
    case Serve(f, t) =>
      w.(serving := w.serving - {(f, t)}, answers := w.answers[(f, t) := w.local[t].value])
    case Answered(r) =>
      var t := w.phase[r].next;
      WithPhase(w.(answers := w.answers - {(r, t)}), r, FoldIn(w.phase[r], t, w.answers[(r, t)]))
    case Take(r) =>
      var q := w.inbound[r].value;
      WithPhase(w.(inbound := w.inbound[r := Some(q[1..])]), r, FoldIn(w.phase[r], q[0].caller, q[0].values))
    case Return(r) => Ended(w, r, Finish(w.phase[r], |w.phase|))
    case Abort(r) => Ended(w, r, Failed)
    case LoseCall(f, t) => w.(calls := w.calls - {(f, t)})
    case LoseServing(f, t) => w.(serving := w.serving - {(f, t)})
    case LoseAnswer(f, t) => w.(answers := w.answers - {(f, t)})
  }

  ghost predicate Next(job: Job, w: Round, w': Round) {
    exists s :: Shaped(w) && Enabled(w, s) && w' == Apply(job, w, s)
  }

  ghost predicate Run(job: Job, n: nat, ws: seq<Round>) {
    && ws != [] && ws[0] == Initial(n)
    && forall i :: 0 <= i < |ws| - 1 ==> Next(job, ws[i], ws[i + 1])
  }

  // ------------------------------------------------------------------ invariant

  /** What a loop makes of these ranks' vectors, if they were all called and the lengths agree. */
  function FoldOf(job: Job, mine: seq<Option<Vector>>, folded: seq<nat>): Option<Partial> {
    if folded == [] then None
    else
      var last := folded[|folded| - 1];
      if last >= |mine| || mine[last].None? then None
      else if |folded| == 1 then Some(Start(job, last, mine[last].value))
      else
        match FoldOf(job, mine, folded[..|folded| - 1])
        case None => None
        case Some(p) => if p.Size() != |mine[last].value| then None else Some(p.Add(last, mine[last].value))
  }

  /** What a call in the round carries, it carries rightly, and it was made once. */
  ghost predicate Calls(w: Round)
    requires Shaped(w)
  {
    && (forall c :: c in w.dialed ==> c.1 < c.0 < |w.phase| && w.mine[c.0].Some?)
    && (forall c :: c in w.dialed && w.phase[c.0].Looping? ==>
          c.1 < w.phase[c.0].next || (c.1 == w.phase[c.0].next && w.phase[c.0].dialing))
    && (forall c :: c in w.calls ==> c in w.dialed && w.mine[c.0] == Some(w.calls[c]))
    && (forall c :: c in w.answers ==> c.1 < |w.phase| && w.mine[c.1] == Some(w.answers[c]))
    && (forall r :: 0 <= r < |w.phase| ==> (w.phase[r].Waiting? <==> w.mine[r].None?))
    && (forall r :: 0 <= r < |w.phase| && w.local[r].Some? ==> w.local[r] == w.mine[r])
  }

  /** Mail of rank t: one frame at most from each caller, as it was sent, and none from a rank already folded in. */
  ghost predicate Frames(w: Round, t: nat, q: seq<Frame>, folded: seq<nat>)
    requires Shaped(w)
  {
    && (forall k :: 0 <= k < |q| ==>
          && (q[k].caller, t) in w.dialed && (q[k].caller, t) !in w.calls
          && q[k].caller < |w.phase| && w.mine[q[k].caller] == Some(q[k].values)
          && q[k].caller !in folded)
    && (forall j, k :: 0 <= j < k < |q| ==> q[j].caller != q[k].caller)
  }

  /** A rank has a mailbox exactly while it is in its loop. */
  ghost predicate Mail(w: Round, t: nat)
    requires Shaped(w) && t < |w.phase|
  {
    && (w.inbound[t].Some? <==> w.phase[t].Looping?)
    && (w.inbound[t].Some? ==> Frames(w, t, w.inbound[t].value, w.phase[t].folded))
  }

  /** The own vector first, then those of the ranks dialed, from the lowest on. */
  ghost predicate Dialed(folded: seq<nat>, t: nat, next: nat) {
    folded != [] && folded[0] == t && forall k :: 0 < k <= t && k <= next && k < |folded| ==> folded[k] == k - 1
  }

  /** The ranks taken in by rank t of n, at loop position `next`: its own, those dialed, and any that called. */
  ghost predicate Taken(folded: seq<nat>, t: nat, next: nat, n: nat) {
    && next <= n && Vectors.Distinct(folded) && Below(folded, n)
    && |folded| == (if next <= t then next + 1 else next)
    && Dialed(folded, t, next)
    && (forall m :: 0 <= m < t ==> (m in folded <==> m < next))
  }

  lemma TakenMore(folded: seq<nat>, t: nat, next: nat, n: nat, peer: nat)
    requires Taken(folded, t, next, n) && next < n && next != t && peer < n && peer !in folded
    requires if next < t then peer == next else peer > t
    ensures Taken(folded + [peer], t, next + 1, n)
  {
    assert forall u :: u in folded + [peer] <==> u in folded || u == peer;
  }

  /** Rank t in its loop: which ranks are folded in, and what that makes. */
  ghost predicate Progress(job: Job, w: Round, t: nat)
    requires Shaped(w) && t < |w.phase|
  {
    w.phase[t].Looping? ==>
      var p := w.phase[t];
      && (p.dialing ==> p.next < t)
      && Taken(p.folded, t, p.next, |w.phase|)
      && (forall u :: u in p.folded && u > t ==> (u, t) in w.dialed && (u, t) !in w.calls)
      && FoldOf(job, w.mine, p.folded) == Some(p.part)
  }

  /** A rank that returned has each rank's vector in its result exactly once, and no call to it is under way. */
  ghost predicate Finished(job: Job, w: Round, t: nat)
    requires Shaped(w) && t < |w.phase|
  {
    w.phase[t].Done? ==>
      && EachOnce(w.phase[t].folded, |w.phase|) && Dialed(w.phase[t].folded, t, |w.phase|)
      && FoldOf(job, w.mine, w.phase[t].folded).Some?
      && Some(w.phase[t].out) == FoldOf(job, w.mine, w.phase[t].folded).value.Result(|w.phase|)
      && (forall u :: u in w.phase[t].folded && u > t ==> (u, t) in w.dialed && (u, t) !in w.calls)
  }

  ghost predicate RankOk(job: Job, w: Round, t: nat)
    requires Shaped(w) && t < |w.phase|
  {
    Mail(w, t) && Progress(job, w, t) && Finished(job, w, t)
  }

  ghost predicate Inv(job: Job, w: Round) {
    Shaped(w) && Calls(w) && forall t :: 0 <= t < |w.phase| ==> RankOk(job, w, t)
  }

  // --------------------------------------------------------------- preservation

  /** History only grows, and no call that was made and is over comes back. */
  ghost predicate Grows(w: Round, w': Round) {
    && Shaped(w) && Shaped(w') && |w'.phase| == |w.phase| && w.dialed <= w'.dialed
    && (forall c :: c in w.dialed && c !in w.calls ==> c !in w'.calls)
    && (forall i :: 0 <= i < |w.mine| && w.mine[i].Some? ==> w'.mine[i] == w.mine[i])
  }

  lemma {:induction false} FoldOfStays(
      job: Job, mine: seq<Option<Vector>>, mine': seq<Option<Vector>>, folded: seq<nat>)
    requires |mine| == |mine'| && forall i :: 0 <= i < |mine| && mine[i].Some? ==> mine'[i] == mine[i]
    requires FoldOf(job, mine, folded).Some?
    ensures FoldOf(job, mine', folded) == FoldOf(job, mine, folded)
    decreases |folded|
  {
    if |folded| > 1 {
      FoldOfStays(job, mine, mine', folded[..|folded| - 1]);
    }
  }

  /** A rank that takes no part in a step keeps what holds of it. */
  lemma RankStays(job: Job, w: Round, w': Round, t: nat)
    requires Grows(w, w') && t < |w.phase| && RankOk(job, w, t)
    requires w'.phase[t] == w.phase[t] && w'.inbound[t] == w.inbound[t]
    ensures RankOk(job, w', t)
  {
    if w.phase[t].Looping? || w.phase[t].Done? {
      FoldOfStays(job, w.mine, w'.mine, w.phase[t].folded);
    }
  }

  lemma ApplyGrows(job: Job, w: Round, s: Step)
    requires Inv(job, w) && Enabled(w, s)
    ensures Grows(w, Apply(job, w, s))
  {
    if s.Dial? {
      assert (s.rank, w.phase[s.rank].next) !in w.dialed;
    }
  }

  /** The rank a step changes the phase or the mail of. */
  function Touched(s: Step): Option<nat> {
    match s
    case Issue(r, _) => Some(r)
    case Skip(r) => Some(r)
    case Dial(r) => Some(r)
    case Arrive(_, t) => Some(t)
    case Answered(r) => Some(r)
    case Take(r) => Some(r)
    case Return(r) => Some(r)
    case Abort(r) => Some(r)
    case _ => None
  }

  lemma UntouchedRank(job: Job, w: Round, s: Step, t: nat)
    requires Shaped(w) && Enabled(w, s) && t < |w.phase| && Touched(s) != Some(t)
    ensures Apply(job, w, s).phase[t] == w.phase[t] && Apply(job, w, s).inbound[t] == w.inbound[t]
  {
  }

  lemma OthersKeep(job: Job, w: Round, s: Step, r: nat)
    requires Inv(job, w) && Enabled(w, s) && Touched(s) == Some(r)
    ensures forall t :: 0 <= t < |w.phase| && t != r ==> RankOk(job, Apply(job, w, s), t)
  {
    ApplyGrows(job, w, s);
    forall t | 0 <= t < |w.phase| && t != r ensures RankOk(job, Apply(job, w, s), t) {
      UntouchedRank(job, w, s, t);
      assert RankOk(job, w, t);
      RankStays(job, w, Apply(job, w, s), t);
    }
  }

  lemma IssueKeeps(job: Job, w: Round, s: Step)
    requires Inv(job, w) && s.Issue? && Enabled(w, s)
    ensures Inv(job, Apply(job, w, s))
  {
    assert RankOk(job, w, s.rank);
    OthersKeep(job, w, s, s.rank);
  }

  lemma SkipKeeps(job: Job, w: Round, s: Step)
    requires Inv(job, w) && s.Skip? && Enabled(w, s)
    ensures Inv(job, Apply(job, w, s))
  {
    assert RankOk(job, w, s.rank);
    OthersKeep(job, w, s, s.rank);
  }

  lemma DialRank(job: Job, w: Round, s: Step)
    requires Inv(job, w) && s.Dial? && Enabled(w, s)
    ensures RankOk(job, Apply(job, w, s), s.rank)
  {
    assert RankOk(job, w, s.rank);
  }

  lemma DialCalls(job: Job, w: Round, s: Step)
    requires Inv(job, w) && s.Dial? && Enabled(w, s)
    ensures Calls(Apply(job, w, s))
  {
    assert RankOk(job, w, s.rank);
  }

  lemma DialKeeps(job: Job, w: Round, s: Step)
    requires Inv(job, w) && s.Dial? && Enabled(w, s)
    ensures Inv(job, Apply(job, w, s))
  {
    DialRank(job, w, s);
    DialCalls(job, w, s);
    OthersKeep(job, w, s, s.rank);
  }

  lemma FramesMore(w: Round, w': Round, t: nat, q: seq<Frame>, folded: seq<nat>, f: nat, values: Vector)
    requires Shaped(w) && Calls(w) && Frames(w, t, q, folded) && (f, t) in w.calls && w.calls[(f, t)] == values
    requires Shaped(w') && w'.dialed == w.dialed && w'.calls == w.calls - {(f, t)} && w'.mine == w.mine
    requires |w'.phase| == |w.phase| && f !in folded
    ensures Frames(w', t, q + [Frame(f, values)], folded) && Frames(w', t, q, folded)
  {
    assert (f, t) in w.dialed;
  }

  lemma ArriveMail(job: Job, w: Round, s: Step)
    requires Shaped(w) && Calls(w) && s.Arrive? && Enabled(w, s) && Mail(w, s.callee)
    requires w.phase[s.callee].Looping? ==> s.caller !in w.phase[s.callee].folded
    ensures Mail(Apply(job, w, s), s.callee)
  {
    var t := s.callee;
    if w.phase[t].Looping? {
      FramesMore(w, Apply(job, w, s), t, w.inbound[t].value, w.phase[t].folded, s.caller, w.calls[(s.caller, t)]);
    }
  }

  lemma ArriveRank(job: Job, w: Round, s: Step)
    requires Inv(job, w) && s.Arrive? && Enabled(w, s)
    ensures RankOk(job, Apply(job, w, s), s.callee)
  {
    assert RankOk(job, w, s.callee);
    ArriveMail(job, w, s);
  }

  lemma ArriveCalls(job: Job, w: Round, s: Step)
    requires Inv(job, w) && s.Arrive? && Enabled(w, s)
    ensures Calls(Apply(job, w, s))
  {
  }

  lemma ArriveKeeps(job: Job, w: Round, s: Step)
    requires Inv(job, w) && s.Arrive? && Enabled(w, s)
    ensures Inv(job, Apply(job, w, s))
  {
    ArriveRank(job, w, s);
    ArriveCalls(job, w, s);
    OthersKeep(job, w, s, s.callee);
  }

  /** Steps that only touch calls being served or answers under way. */
  lemma NetworkKeeps(job: Job, w: Round, s: Step)
    requires Inv(job, w) && (s.Serve? || s.LoseCall? || s.LoseServing? || s.LoseAnswer?) && Enabled(w, s)
    ensures Inv(job, Apply(job, w, s))
  {
    var w' := Apply(job, w, s);
    forall t | 0 <= t < |w.phase| ensures RankOk(job, w', t) {
      assert RankOk(job, w, t);
      RankStays(job, w, w', t);
    }
  }

  lemma EndRank(job: Job, w: Round, s: Step)
    requires Inv(job, w) && (s.Return? || s.Abort?) && Enabled(w, s)
    ensures RankOk(job, Apply(job, w, s), s.rank)
  {
    assert RankOk(job, w, s.rank);
  }

  lemma EndCalls(job: Job, w: Round, s: Step)
    requires Inv(job, w) && (s.Return? || s.Abort?) && Enabled(w, s)
    ensures Calls(Apply(job, w, s))
  {
  }

  lemma EndKeeps(job: Job, w: Round, s: Step)
    requires Inv(job, w) && (s.Return? || s.Abort?) && Enabled(w, s)
    ensures Inv(job, Apply(job, w, s))
  {
    EndRank(job, w, s);
    EndCalls(job, w, s);
    OthersKeep(job, w, s, s.rank);
  }

  lemma FoldOfMore(job: Job, mine: seq<Option<Vector>>, folded: seq<nat>, out: Partial, peer: nat, values: Vector)
    requires FoldOf(job, mine, folded) == Some(out) && peer < |mine| && mine[peer] == Some(values)
    requires |values| == out.Size()
    ensures FoldOf(job, mine, folded + [peer]) == Some(out.Add(peer, values))
  {
    assert (folded + [peer])[..|folded|] == folded;
  }

  /** Calls(w) speaks of the loop position of a rank only where it is still in its loop. */
  lemma CallsStay(w: Round, w': Round, r: nat)
    requires Shaped(w) && Calls(w) && Shaped(w') && r < |w.phase| && |w'.phase| == |w.phase|
    requires w'.mine == w.mine && w'.dialed == w.dialed
    requires forall c :: c in w'.calls ==> c in w.calls && w'.calls[c] == w.calls[c]
    requires forall c :: c in w'.answers ==> c in w.answers && w'.answers[c] == w.answers[c]
    requires forall t :: 0 <= t < |w.phase| && t != r ==> w'.phase[t] == w.phase[t]
    requires forall t :: 0 <= t < |w.phase| ==> w'.local[t] == w.local[t] || w'.local[t] == None
    requires w.phase[r].Looping? && !w'.phase[r].Waiting?
    requires w'.phase[r].Looping? ==>
               || w'.phase[r].next > w.phase[r].next
               || (w'.phase[r].next == w.phase[r].next && w'.phase[r].dialing == w.phase[r].dialing)
    ensures Calls(w')
  {
  }

  /** The rank whose loop body runs: a new peer's vector is folded in, or the rank fails. */
  lemma FoldInKeeps(job: Job, w: Round, w': Round, r: nat, peer: nat, values: Vector)
    requires Shaped(w) && Grows(w, w') && r < |w.phase| && RankOk(job, w, r) && w.phase[r].Looping? && w'.mine == w.mine
    requires w.phase[r].next < |w.phase| && w.phase[r].next != r
    requires peer < |w.phase| && w.mine[peer] == Some(values) && peer !in w.phase[r].folded
    requires if w.phase[r].next < r then peer == w.phase[r].next
             else peer > r && (peer, r) in w'.dialed && (peer, r) !in w'.calls
    requires w'.phase[r] == FoldIn(w.phase[r], peer, values)
    ensures Progress(job, w', r) && Finished(job, w', r)
  {
    var p := w.phase[r];
    if |values| == p.part.Size() {
      FoldOfMore(job, w.mine, p.folded, p.part, peer, values);
      TakenMore(p.folded, r, p.next, |w.phase|, peer);
      assert forall u :: u in p.folded + [peer] <==> u in p.folded || u == peer;
    }
  }

  lemma AnsweredMail(job: Job, w: Round, s: Step)
    requires Inv(job, w) && s.Answered? && Enabled(w, s)
    ensures Mail(Apply(job, w, s), s.rank)
  {
    assert RankOk(job, w, s.rank);
  }

  lemma AnsweredKeeps(job: Job, w: Round, s: Step)
    requires Inv(job, w) && s.Answered? && Enabled(w, s)
    ensures Inv(job, Apply(job, w, s))
  {
    var w', r := Apply(job, w, s), s.rank;
    var peer := w.phase[r].next;
    assert RankOk(job, w, r);
    CallsStay(w, w', r);
    AnsweredMail(job, w, s);
    FoldInKeeps(job, w, w', r, peer, w.answers[(r, peer)]);
    OthersKeep(job, w, s, r);
  }

  lemma TakeMail(job: Job, w: Round, s: Step)
    requires Inv(job, w) && s.Take? && Enabled(w, s)
    ensures Mail(Apply(job, w, s), s.rank)
  {
    var q := w.inbound[s.rank].value;
    assert RankOk(job, w, s.rank);
    assert forall k :: 0 <= k < |q| - 1 ==> q[1..][k] == q[k + 1];
  }

  lemma TakeRank(job: Job, w: Round, s: Step)
    requires Inv(job, w) && s.Take? && Enabled(w, s)
    ensures RankOk(job, Apply(job, w, s), s.rank)
  {
    var w', r := Apply(job, w, s), s.rank;
    var f := w.inbound[r].value[0];
    assert RankOk(job, w, r);
    assert (f.caller, r) in w.dialed && w.mine[f.caller] == Some(f.values);
    TakeMail(job, w, s);
    FoldInKeeps(job, w, w', r, f.caller, f.values);
  }

  lemma TakeCalls(job: Job, w: Round, s: Step)
    requires Inv(job, w) && s.Take? && Enabled(w, s)
    ensures Calls(Apply(job, w, s))
  {
    CallsStay(w, Apply(job, w, s), s.rank);
  }

  lemma TakeKeeps(job: Job, w: Round, s: Step)
    requires Inv(job, w) && s.Take? && Enabled(w, s)
    ensures Inv(job, Apply(job, w, s))
  {
    TakeCalls(job, w, s);
    TakeRank(job, w, s);
    OthersKeep(job, w, s, s.rank);
  }

  /** A step changes neither the number of ranks nor what a rank was called with. */
  ghost predicate SameInputs(w: Round, w': Round) {
    && |w.phase| == |w'.phase| && |w.mine| == |w'.mine|
    && forall r :: 0 <= r < |w.mine| && w.mine[r].Some? ==> w'.mine[r] == w.mine[r]
  }

  lemma ApplyKeepsInputs(job: Job, w: Round, s: Step)
    requires Inv(job, w) && Enabled(w, s)
    ensures SameInputs(w, Apply(job, w, s))
  {
  }

  lemma NextKeeps(job: Job, w: Round, w': Round)
    requires Inv(job, w) && Next(job, w, w')
    ensures Inv(job, w') && SameInputs(w, w')
  {
    var s :| Enabled(w, s) && w' == Apply(job, w, s);
    ApplyKeepsInputs(job, w, s);
    match s
    case Issue(_, _) => IssueKeeps(job, w, s);
    case Skip(_) => SkipKeeps(job, w, s);
    case Dial(_) => DialKeeps(job, w, s);
    case Arrive(_, _) => ArriveKeeps(job, w, s);
    case Answered(_) => AnsweredKeeps(job, w, s);
    case Take(_) => TakeKeeps(job, w, s);
    case Return(_) => EndKeeps(job, w, s);
    case Abort(_) => EndKeeps(job, w, s);
    case _ => NetworkKeeps(job, w, s);
  }

  /** What holds at first and is kept by every step holds throughout a run. */
  lemma {:induction false} Throughout(ws: seq<Round>, next: (Round, Round) -> bool, inv: Round -> bool, i: nat, j: nat)
    requires i <= j < |ws| && inv(ws[i])
    requires forall k :: i <= k < j ==> next(ws[k], ws[k + 1])
    requires forall w, w' :: inv(w) && next(w, w') ==> inv(w')
    ensures inv(ws[j])
    decreases j - i
  {
    if i < j {
      Throughout(ws, next, inv, i, j - 1);
      assert next(ws[j - 1], ws[(j - 1) + 1]);
    }
  }

  lemma InitialInv(job: Job, n: nat)
    ensures Inv(job, Initial(n)) && |Initial(n).phase| == n
  {
  }

  lemma RunKeeps(job: Job, n: nat, ws: seq<Round>, i: nat)
    requires Run(job, n, ws) && i < |ws|
    ensures Inv(job, ws[i]) && |ws[i].phase| == n
  {
    var inv := w => Inv(job, w) && |w.phase| == n;
    var next := (w, w') => Next(job, w, w');
    InitialInv(job, n);
    forall w, w' | inv(w) && next(w, w') ensures inv(w') {
      NextKeeps(job, w, w');
    }
    Throughout(ws, next, inv, 0, i);
  }

  // ------------------------------------------------------------------ the result

  lemma {:induction false} FoldOfMembers(job: Job, mine: seq<Option<Vector>>, folded: seq<nat>)
    requires FoldOf(job, mine, folded).Some?
    ensures forall r :: r in folded ==>
              r < |mine| && mine[r].Some? && |mine[r].value| == FoldOf(job, mine, folded).value.Size()
    decreases |folded|
  {
    var last := folded[|folded| - 1];
    if |folded| > 1 {
      FoldOfMembers(job, mine, folded[..|folded| - 1]);
      assert folded == folded[..|folded| - 1] + [last];
    }
  }

  lemma {:induction false} FoldOfIsFolded(op: Op, mine: seq<Option<Vector>>, folded: seq<nat>, size: nat)
    requires FoldOf(Reducing(op), mine, folded).Some? && forall i :: 0 <= i < |mine| ==> mine[i].Some?
    requires Even(Filled(mine), size) && Below(folded, |mine|)
    ensures FoldOf(Reducing(op), mine, folded).value == Reduced(op, Folded(op, Filled(mine), folded, size))
    decreases |folded|
  {
    if |folded| > 1 {
      FoldOfIsFolded(op, mine, folded[..|folded| - 1], size);
    }
  }

  /** Gathering keeps each rank's own vector under its rank, in whatever order they came. */
  lemma {:induction false} FoldOfGathers(mine: seq<Option<Vector>>, folded: seq<nat>)
    requires FoldOf(Gathering, mine, folded).Some?
    ensures var p := FoldOf(Gathering, mine, folded).value;
            p.Gathered? && forall r :: r in folded ==> r in p.parts && r < |mine| && mine[r] == Some(p.parts[r])
    decreases |folded|
  {
    var last := folded[|folded| - 1];
    if |folded| > 1 {
      FoldOfGathers(mine, folded[..|folded| - 1]);
      assert folded == folded[..|folded| - 1] + [last];
    }
  }

  /**
    What the collective computes: all vectors reduced in rank order and scaled for
    a mean, or one after the other in rank order.
  */
  ghost predicate IsResult(job: Job, mine: seq<Option<Vector>>, out: Vector) {
    && |mine| > 0 && (forall i :: 0 <= i < |mine| ==> mine[i].Some?) && Even(Filled(mine), |mine[0].value|)
    && match job
       case Reducing(op) =>
         && Reduces(op, Filled(mine), out)
         && out == Scale(op, |mine|, Folded(op, Filled(mine), UpTo(|mine|), |mine[0].value|))
       case Gathering => out == Concat(Filled(mine))
  }

  lemma ReducedResult(op: Op, mine: seq<Option<Vector>>, folded: seq<nat>, out: Vector)
    requires EachOnce(folded, |mine|) && FoldOf(Reducing(op), mine, folded).Some? && |mine| > 0
    requires FoldOf(Reducing(op), mine, folded).value.Result(|mine|) == Some(out)
    ensures IsResult(Reducing(op), mine, out)
  {
    var size := FoldOf(Reducing(op), mine, folded).value.Size();
    Pigeonhole(folded, |mine|);
    FoldOfMembers(Reducing(op), mine, folded);
    FoldOfIsFolded(op, mine, folded, size);
    AnyOrder(op, Filled(mine), folded, |mine|, size);
    FoldedReduces(op, Filled(mine), size);
  }

  lemma GatheredResult(mine: seq<Option<Vector>>, folded: seq<nat>, out: Vector)
    requires EachOnce(folded, |mine|) && FoldOf(Gathering, mine, folded).Some? && |mine| > 0
    requires FoldOf(Gathering, mine, folded).value.Result(|mine|) == Some(out)
    ensures IsResult(Gathering, mine, out)
  {
    Pigeonhole(folded, |mine|);
    FoldOfMembers(Gathering, mine, folded);
    FoldOfGathers(mine, folded);
    var parts := FoldOf(Gathering, mine, folded).value.parts;
    assert seq(|mine|, r requires 0 <= r < |mine| => parts[r]) == Filled(mine);
  }

  /** In the result of a gather each rank's vector is found at that rank's place. */
  lemma GatheredInPlace(mine: seq<Option<Vector>>, out: Vector, r: nat)
    requires IsResult(Gathering, mine, out) && r < |mine|
    ensures var size := |mine[0].value|;
            && 0 <= r * size && r * size + size <= |out| == |mine| * size
            && mine[r] == Some(out[r * size..r * size + size])
  {
    ConcatHas(Filled(mine), |mine[0].value|, r);
  }

  /**
    Safety over every interleaving: a rank that returns has taken in the vector of
    each rank exactly once, so it returns the reduction of all of them, or in a
    gather all of them in rank order.
  */
  lemma ReturnedIsResult(job: Job, n: nat, ws: seq<Round>, i: nat, t: nat)
    requires Run(job, n, ws) && i < |ws| && t < n && t < |ws[i].phase| && ws[i].phase[t].Done?
    ensures EachOnce(ws[i].phase[t].folded, n) && Dialed(ws[i].phase[t].folded, t, n)
    ensures IsResult(job, ws[i].mine, ws[i].phase[t].out)
  {
    RunKeeps(job, n, ws, i);
    var w := ws[i];
    assert RankOk(job, w, t);
    match job
    case Reducing(op) => ReducedResult(op, w.mine, w.phase[t].folded, w.phase[t].out);
    case Gathering => GatheredResult(w.mine, w.phase[t].folded, w.phase[t].out);
  }

  /** All ranks that return, at whatever time, return the same vector. */
  lemma AllReturnTheSame(job: Job, n: nat, ws: seq<Round>, i: nat, j: nat, t: nat, u: nat)
    requires Run(job, n, ws) && i < |ws| && j < |ws| && t < n && u < n
    requires t < |ws[i].phase| && ws[i].phase[t].Done? && u < |ws[j].phase| && ws[j].phase[u].Done?
    ensures ws[i].phase[t].out == ws[j].phase[u].out
  {
    ReturnedIsResult(job, n, ws, i, t);
    ReturnedIsResult(job, n, ws, j, u);
    if i <= j {
      MineStays(job, n, ws, i, j);
    } else {
      MineStays(job, n, ws, j, i);
    }
    assert ws[i].mine == ws[j].mine;
  }

  lemma MineStays(job: Job, n: nat, ws: seq<Round>, i: nat, j: nat)
    requires Run(job, n, ws) && i <= j < |ws|
    ensures SameInputs(ws[i], ws[j])
  {
    RunKeeps(job, n, ws, i);
    var first := ws[i];
    var inv := w => Inv(job, w) && SameInputs(first, w);
    var next := (w, w') => Next(job, w, w');
    forall w, w' | inv(w) && next(w, w') ensures inv(w') {
      NextKeeps(job, w, w');
      SameInputsTrans(first, w, w');
    }
    Throughout(ws, next, inv, i, j);
  }

  lemma SameInputsTrans(a: Round, b: Round, c: Round)
    requires SameInputs(a, b) && SameInputs(b, c)
    ensures SameInputs(a, c)
  {
  }

  // ------------------------------------------------------------- dropped calls

  /**
    The call of rank f to rank t is over without having left anything with t,
    which has not returned: it came before t published, or was lost.
  */
  ghost predicate Dropped(w: Round, f: nat, t: nat) {
    Shaped(w) && t < |w.phase| && (f, t) in w.dialed && (f, t) !in w.calls && Missing(w, f, t)
  }

  lemma DroppedIsMissing(job: Job, w: Round, f: nat, t: nat)
    requires Inv(job, w) && Dropped(w, f, t) && w.phase[t].Looping?
    ensures w.phase[t].next < |w.phase|
  {
    assert RankOk(job, w, t);
    var p := w.phase[t];
    if p.next == |w.phase| {
      assert EachOnce(p.folded, |w.phase|);
      Pigeonhole(p.folded, |w.phase|);
    }
  }

  /** Nothing of rank f's call is with rank t, which has not returned. */
  ghost predicate Missing(w: Round, f: nat, t: nat)
    requires Shaped(w) && t < |w.phase|
  {
    && !w.phase[t].Done?
    && (w.phase[t].Looping? ==> f !in w.phase[t].folded)
    && (w.inbound[t].Some? ==> forall k :: 0 <= k < |w.inbound[t].value| ==> w.inbound[t].value[k].caller != f)
  }

  lemma MissingAfterTake(job: Job, w: Round, s: Step, f: nat, t: nat)
    requires Shaped(w) && Enabled(w, s) && s == Take(t) && Missing(w, f, t)
    ensures Missing(Apply(job, w, s), f, t)
  {
    var q := w.inbound[t].value;
    assert q[0].caller != f;
    assert forall k :: 0 <= k < |q| - 1 ==> q[1..][k] == q[k + 1];
  }

  lemma MissingAfterArrive(job: Job, w: Round, s: Step, f: nat, t: nat)
    requires Shaped(w) && Enabled(w, s) && s.Arrive? && s.callee == t && s.caller != f && Missing(w, f, t)
    ensures Missing(Apply(job, w, s), f, t)
  {
  }

  /** What the rank has folded in and has in its mail after a step of its own. */
  lemma TouchedRank(job: Job, w: Round, s: Step, f: nat, t: nat)
    requires Inv(job, w) && Enabled(w, s) && Touched(s) == Some(t) && Dropped(w, f, t) && t < f
    ensures Missing(Apply(job, w, s), f, t)
  {
    match s
    case Return(_) => DroppedIsMissing(job, w, f, t);
    case Take(_) => MissingAfterTake(job, w, s, f, t);
    case Arrive(_, _) => MissingAfterArrive(job, w, s, f, t);
    case _ =>
  }

  lemma StepKeepsDropped(job: Job, w: Round, s: Step, f: nat, t: nat)
    requires Inv(job, w) && Enabled(w, s) && Dropped(w, f, t)
    ensures Dropped(Apply(job, w, s), f, t)
  {
    ApplyGrows(job, w, s);
    if Touched(s) == Some(t) {
      TouchedRank(job, w, s, f, t);
    } else {
      UntouchedRank(job, w, s, t);
    }
  }

  /** A dropped call is never made up for: its callee does not return from this collective. */
  lemma DroppedForGood(job: Job, n: nat, ws: seq<Round>, i: nat, j: nat, f: nat, t: nat)
    requires Run(job, n, ws) && i <= j < |ws| && Dropped(ws[i], f, t)
    ensures t < |ws[j].phase| && !ws[j].phase[t].Done?
  {
    RunKeeps(job, n, ws, i);
    var inv := w => Inv(job, w) && Dropped(w, f, t);
    var next := (w, w') => Next(job, w, w');
    forall w, w' | inv(w) && next(w, w') ensures inv(w') {
      NextKeepsDropped(job, w, w', f, t);
    }
    Throughout(ws, next, inv, i, j);
  }

  lemma NextKeepsDropped(job: Job, w: Round, w': Round, f: nat, t: nat)
    requires Inv(job, w) && Next(job, w, w') && Dropped(w, f, t)
    ensures Inv(job, w') && Dropped(w', f, t)
  {
    NextKeeps(job, w, w');
    var s :| Enabled(w, s) && w' == Apply(job, w, s);
    StepKeepsDropped(job, w, s, f, t);
  }

  /** A mailbox always has room: its frames are from different callers above the callee, and the new one is another. */
  lemma RoomAtArrival(job: Job, w: Round, f: nat, t: nat)
    requires Inv(job, w) && Enabled(w, Arrive(f, t)) && w.phase[t].Looping?
    ensures w.inbound[t].Some? && |w.inbound[t].value| + 2 <= |w.phase|
  {
    assert RankOk(job, w, t);
    var q := w.inbound[t].value;
    var callers := seq<nat>(|q|, k requires 0 <= k < |q| => q[k].caller);
    assert forall k :: 0 <= k < |q| ==> callers[k] != f && callers[k] > t by {
      forall k | 0 <= k < |q| ensures callers[k] != f && callers[k] > t {
        assert (q[k].caller, t) in w.dialed && (q[k].caller, t) !in w.calls;
      }
    }
    AtMost(callers + [f, t], |w.phase|);
  }

  /** A rank that returned has no call to it under way. */
  lemma NoCallToDone(job: Job, w: Round, f: nat, t: nat)
    requires Inv(job, w) && Enabled(w, Arrive(f, t))
    ensures !w.phase[t].Done? && (w.phase[t].Looping? ==> f !in w.phase[t].folded)
  {
    assert RankOk(job, w, t);
    assert (f, t) in w.dialed;
    if w.phase[t].Done? {
      Pigeonhole(w.phase[t].folded, |w.phase|);
    }
  }

  /** The callee keeps the frame of a call that arrives. */
  ghost predicate Kept(w: Round, w': Round, f: nat, t: nat)
    requires Shaped(w) && Shaped(w') && t < |w.phase| == |w'.phase|
  {
    && w.inbound[t].Some? && (f, t) in w.calls
    && w'.inbound[t] == Some(w.inbound[t].value + [Frame(f, w.calls[(f, t)])])
  }

  /**
    Which arriving calls are dropped, exactly: those whose callee is not in its
    loop, because it has not published yet or has failed.  Any other frame is put
    into the mailbox, which always has room.  Either way the call is served, so
    that it is answered once the callee has published.
  */
  lemma DroppedExactly(job: Job, w: Round, f: nat, t: nat)
    requires Inv(job, w) && Enabled(w, Arrive(f, t))
    ensures var w' := Apply(job, w, Arrive(f, t));
            && Shaped(w') && |w'.phase| == |w.phase| && (f, t) in w'.serving
            && (Dropped(w', f, t) <==> w.phase[t].Waiting? || w.phase[t].Failed?)
            && (Dropped(w', f, t) <==> !Kept(w, w', f, t))
  {
    var w' := Apply(job, w, Arrive(f, t));
    assert RankOk(job, w, t);
    NoCallToDone(job, w, f, t);
    if w.phase[t].Looping? {
      RoomAtArrival(job, w, f, t);
      var q := w'.inbound[t].value;
      assert q[|q| - 1] == Frame(f, w.calls[(f, t)]);
    }
  }

  /**
    How a call that was made comes to be dropped, over all steps: it arrives at a
    callee that is not in its loop, or it is lost, or the callee fails after it.
  */
  lemma DropsExactly(job: Job, w: Round, s: Step, f: nat, t: nat)
    requires Inv(job, w) && Enabled(w, s) && (f, t) in w.dialed && t < |w.phase| && !Dropped(w, f, t)
    ensures var w' := Apply(job, w, s);
            Dropped(w', f, t) <==> || (s == Arrive(f, t) && !w.phase[t].Looping?)
                                   || s == LoseCall(f, t)
                                   || ((f, t) !in w.calls && w'.phase[t].Failed?)
  {
    ApplyGrows(job, w, s);
    if (f, t) in w.calls {
      DropsOfCall(job, w, s, f, t);
    } else {
      HeldStays(job, w, s, f, t);
    }
  }

  lemma DropsOfCall(job: Job, w: Round, s: Step, f: nat, t: nat)
    requires Inv(job, w) && Enabled(w, s) && (f, t) in w.calls && t < |w.phase|
    ensures Dropped(Apply(job, w, s), f, t) <==> (s == Arrive(f, t) && !w.phase[t].Looping?) || s == LoseCall(f, t)
  {
    if s == Arrive(f, t) {
      DroppedExactly(job, w, f, t);
      NoCallToDone(job, w, f, t);
    } else if s == LoseCall(f, t) {
      assert Enabled(w, Arrive(f, t)) && RankOk(job, w, t);
      NoCallToDone(job, w, f, t);
    } else {
      StillCalling(job, w, s, f, t);
    }
  }

  lemma StillCalling(job: Job, w: Round, s: Step, f: nat, t: nat)
    requires Inv(job, w) && Enabled(w, s) && (f, t) in w.calls && s != Arrive(f, t) && s != LoseCall(f, t)
    ensures (f, t) in Apply(job, w, s).calls
  {
  }

  /** What a callee has of a call it keeps until it fails. */
  lemma HeldStays(job: Job, w: Round, s: Step, f: nat, t: nat)
    requires Inv(job, w) && Enabled(w, s) && t < |w.phase| && (f, t) in w.dialed && (f, t) !in w.calls
    requires !Missing(w, f, t)
    ensures (f, t) !in Apply(job, w, s).calls
    ensures Missing(Apply(job, w, s), f, t) <==> Apply(job, w, s).phase[t].Failed?
  {
    ApplyGrows(job, w, s);
    assert RankOk(job, w, t);
    if Touched(s) == Some(t) {
      HeldOfTouched(job, w, s, f, t);
    } else {
      UntouchedRank(job, w, s, t);
    }
  }

  lemma HeldOfTouched(job: Job, w: Round, s: Step, f: nat, t: nat)
    requires Shaped(w) && Enabled(w, s) && t < |w.phase| && Touched(s) == Some(t)
    requires Mail(w, t) && !Missing(w, f, t)
    ensures Missing(Apply(job, w, s), f, t) <==> Apply(job, w, s).phase[t].Failed?
  {
    match s
    case Take(_) => HeldAfterTake(job, w, s, f, t);
    case Arrive(_, _) => HeldAfterArrive(job, w, s, f, t);
    case _ =>
  }

  lemma HeldAfterTake(job: Job, w: Round, s: Step, f: nat, t: nat)
    requires Shaped(w) && Enabled(w, s) && t < |w.phase| && s == Take(t) && Mail(w, t) && !Missing(w, f, t)
    ensures Missing(Apply(job, w, s), f, t) <==> Apply(job, w, s).phase[t].Failed?
  {
    var q, p, w' := w.inbound[t].value, w.phase[t], Apply(job, w, s);
    assert forall u :: u in p.folded + [q[0].caller] <==> u in p.folded || u == q[0].caller;
    if w'.phase[t].Looping? && f !in w'.phase[t].folded {
      var k :| 0 <= k < |q| && q[k].caller == f;
      assert w'.inbound[t].value[k - 1] == q[k];
    }
  }

  lemma HeldAfterArrive(job: Job, w: Round, s: Step, f: nat, t: nat)
    requires Shaped(w) && Enabled(w, s) && t < |w.phase| && s.Arrive? && s.callee == t
    requires Mail(w, t) && !Missing(w, f, t)
    ensures Missing(Apply(job, w, s), f, t) <==> Apply(job, w, s).phase[t].Failed?
  {
    var w' := Apply(job, w, s);
    assert w'.phase == w.phase;
    if w.phase[t].Looping? && f !in w.phase[t].folded {
      var q := w.inbound[t].value;
      var k :| 0 <= k < |q| && q[k].caller == f;
      assert w'.inbound[t].value[k] == q[k];
    }
  }

  /**
    So in every run: a rank that returns was in its loop whenever a call to it
    arrived, and kept the frame; and a rank at which some call arrived before it
    published never returns.
  */
  lemma ReadyForEveryCall(job: Job, n: nat, ws: seq<Round>, i: nat, j: nat, f: nat, t: nat)
    requires Run(job, n, ws) && i < j < |ws| && t < n
    requires Shaped(ws[i]) && Enabled(ws[i], Arrive(f, t)) && ws[i + 1] == Apply(job, ws[i], Arrive(f, t))
    ensures |ws[i].phase| == |ws[i + 1].phase| == |ws[j].phase| == n && Shaped(ws[i + 1])
    ensures ws[j].phase[t].Done? ==> ws[i].phase[t].Looping? && Kept(ws[i], ws[i + 1], f, t)
    ensures Dropped(ws[i + 1], f, t) <==> ws[i].phase[t].Waiting? || ws[i].phase[t].Failed?
    ensures Dropped(ws[i + 1], f, t) <==> !Kept(ws[i], ws[i + 1], f, t)
    ensures Dropped(ws[i + 1], f, t) ==> !ws[j].phase[t].Done?
  {
    ArrivesIn(job, n, ws, i, f, t);
    RunSize(job, n, ws, j);
    if Dropped(ws[i + 1], f, t) {
      DroppedForGood(job, n, ws, i + 1, j, f, t);
    }
  }

  lemma RunSize(job: Job, n: nat, ws: seq<Round>, i: nat)
    requires Run(job, n, ws) && i < |ws|
    ensures Shaped(ws[i]) && |ws[i].phase| == n
  {
    RunKeeps(job, n, ws, i);
  }

  lemma ArrivesIn(job: Job, n: nat, ws: seq<Round>, i: nat, f: nat, t: nat)
    requires Run(job, n, ws) && i < |ws| - 1 && t < n
    requires Shaped(ws[i]) && Enabled(ws[i], Arrive(f, t)) && ws[i + 1] == Apply(job, ws[i], Arrive(f, t))
    ensures Shaped(ws[i + 1]) && |ws[i].phase| == |ws[i + 1].phase| == n && !ws[i].phase[t].Done?
    ensures Dropped(ws[i + 1], f, t) <==> ws[i].phase[t].Waiting? || ws[i].phase[t].Failed?
    ensures Dropped(ws[i + 1], f, t) <==> !Kept(ws[i], ws[i + 1], f, t)
  {
    RunKeeps(job, n, ws, i);
    DroppedExactly(job, ws[i], f, t);
    NoCallToDone(job, ws[i], f, t);
  }

  /** Rank 1 calls rank 0 before it has published, is answered once it has, and returns. */
  function EarlyStep(a: Vector, b: Vector, i: nat): Step
    requires i < 8
  {
    [Issue(1, b), Dial(1), Arrive(1, 0), Issue(0, a), Serve(1, 0), Answered(1), Skip(1), Return(1)][i]
  }

  /** The rounds that these steps go through. */
  function EarlyRound(job: Job, a: Vector, b: Vector, i: nat): Round
    requires |a| == |b| && i < 9
  {
    var both := Start(job, 1, b).Add(0, a);
    var p0 := if i < 4 then Waiting else Looping(Start(job, 0, a), [0], 0, false);
    var p1 := match i
              case 0 => Waiting
              case 1 => Looping(Start(job, 1, b), [1], 0, false)
              case 6 => Looping(both, [1, 0], 1, false)
              case 7 => Looping(both, [1, 0], 2, false)
              case 8 => Finish(Looping(both, [1, 0], 2, false), 2)
              case _ => Looping(Start(job, 1, b), [1], 0, true);
    var a0, b1 := if i < 4 then None else Some(a), if i == 0 then None else Some(b);
    var live := 0 < i < 8;
    Round(
      [a0, b1], [p0, p1], [a0, if live then Some(b) else None],
      [if i < 4 then None else Some([]), if live then Some([]) else None],
      if i == 2 then map[(1, 0) := b] else map[], if 3 <= i < 5 then {(1, 0)} else {},
      if i == 5 then map[(1, 0) := a] else map[], if i < 2 then {} else {(1, 0)})
  }

  /** Rounds with equal fields are equal. */
  lemma SameRound(v: Round, w: Round)
    requires v.mine == w.mine && v.phase == w.phase && v.local == w.local && v.inbound == w.inbound
    requires v.calls == w.calls && v.serving == w.serving && v.answers == w.answers && v.dialed == w.dialed
    ensures v == w
  {
  }

  ghost predicate EarlyGoes(job: Job, a: Vector, b: Vector, i: nat)
    requires |a| == |b| && i < 8
  {
    var w := EarlyRound(job, a, b, i);
    && Shaped(w) && Enabled(w, EarlyStep(a, b, i))
    && Apply(job, w, EarlyStep(a, b, i)) == EarlyRound(job, a, b, i + 1)
  }

  lemma EarlyCalls(job: Job, a: Vector, b: Vector, i: nat)
    requires |a| == |b| && i < 4
    ensures EarlyGoes(job, a, b, i)
  {
    var w := EarlyRound(job, a, b, i);
    assert Enabled(w, EarlyStep(a, b, i));
    SameRound(Apply(job, w, EarlyStep(a, b, i)), EarlyRound(job, a, b, i + 1));
  }

  lemma EarlyAnswers(job: Job, a: Vector, b: Vector, i: nat)
    requires |a| == |b| && 4 <= i < 8
    ensures EarlyGoes(job, a, b, i)
  {
    var w := EarlyRound(job, a, b, i);
    assert Enabled(w, EarlyStep(a, b, i));
    assert [1] + [0] == [1, 0];
    SameRound(Apply(job, w, EarlyStep(a, b, i)), EarlyRound(job, a, b, i + 1));
  }

  /**
    Such a call happens: whatever the two ranks are called with, there is a run
    in which the caller returns and its call is dropped by the callee, which by
    DroppedForGood never returns.
  */
  lemma CallerReturnsCalleeDoesNot(job: Job, a: Vector, b: Vector)
    requires |a| == |b|
    ensures exists ws :: && Run(job, 2, ws)
                         && var w := ws[|ws| - 1];
                            && Dropped(w, 1, 0) && w.mine == [Some(a), Some(b)]
                            && w.phase[0].Looping? && w.phase[1].Done?
  {
    var ws := seq(9, i requires 0 <= i < 9 => EarlyRound(job, a, b, i));
    EarlyRuns(job, a, b, ws);
    EarlyEnds(job, a, b);
    assert ws[|ws| - 1] == EarlyRound(job, a, b, 8);
  }

  lemma EarlyRuns(job: Job, a: Vector, b: Vector, ws: seq<Round>)
    requires |a| == |b| && |ws| == 9 && forall i :: 0 <= i < 9 ==> ws[i] == EarlyRound(job, a, b, i)
    ensures Run(job, 2, ws)
  {
    forall i | 0 <= i < 8 ensures Next(job, ws[i], ws[i + 1]) {
      if i < 4 {
        EarlyCalls(job, a, b, i);
      } else {
        EarlyAnswers(job, a, b, i);
      }
    }
    SameRound(EarlyRound(job, a, b, 0), Initial(2));
  }

  lemma EarlyEnds(job: Job, a: Vector, b: Vector)
    requires |a| == |b|
    ensures var w := EarlyRound(job, a, b, 8);
            && Dropped(w, 1, 0) && w.mine == [Some(a), Some(b)]
            && w.phase[0].Looping? && w.phase[1].Done?
  {
  }
}
