/** One member's loop in Groups is what that member does in a run of Rounds. */
module Collectives {
  import opened Wrappers
  import opened Vectors
  import Rounds
  import Groups

  /** The first of the list moved to position t: what came at each position of the loop, the own vector in its place. */
  function AtPositions(folded: seq<nat>, t: nat): (r: seq<nat>)
    requires t < |folded|
    ensures |r| == |folded|
  {
    folded[1..t + 1] + [folded[0]] + folded[t + 1..]
  }

  lemma PositionsOnce(folded: seq<nat>, t: nat)
    requires EachOnce(folded, |folded|) && t < |folded|
    ensures EachOnce(AtPositions(folded, t), |folded|)
  {
    var r := AtPositions(folded, t);
    assert forall k :: 0 <= k < |r| ==> r[k] == folded[if k == t then 0 else if k < t then k + 1 else k];
  }

  /** What the receives of rank t's loop returned, in the loop's order. */
  function AnswersOf(mine: seq<Option<Vector>>, folded: seq<nat>, t: nat): (r: seq<Option<Vector>>)
    requires t < |folded| && Below(folded, |mine|)
    ensures |r| == |folded|
  {
    seq(|folded|, k requires 0 <= k < |folded| =>
      mine[folded[if k == t then 0 else if k < t then k + 1 else k]])
  }

  /** Folding the vectors in their places is folding the ranks they came from. */
  lemma {:induction false} FoldedInPlace(op: Op, us: seq<Vector>, vs: seq<Vector>, order: seq<nat>, n: nat, size: nat)
    requires 0 < n <= |order| == |us| && Below(order, |vs|) && Even(us, size) && Even(vs, size)
    requires forall k :: 0 <= k < |order| ==> us[k] == vs[order[k]]
    ensures Folded(op, us, UpTo(n), size) == Folded(op, vs, order[..n], size)
    decreases n
  {
    if n > 1 {
      FoldedInPlace(op, us, vs, order, n - 1, size);
      assert UpTo(n)[..n - 1] == UpTo(n - 1) && order[..n][..n - 1] == order[..n - 1];
    }
  }

  lemma AllVectorsOf(mine: seq<Option<Vector>>, folded: seq<nat>, t: nat)
    requires (forall i :: 0 <= i < |mine| ==> mine[i].Some?) && EachOnce(folded, |mine|) && t < |folded|
    requires folded[0] == t && Even(Filled(mine), |mine[t].value|)
    ensures var answers := AnswersOf(mine, folded, t);
            && Groups.AllAnswered(t, |mine[t].value|, answers)
            && forall k :: 0 <= k < |folded| ==>
                 Groups.AllVectors(t, mine[t].value, answers)[k] == Filled(mine)[AtPositions(folded, t)[k]]
  {
    var answers := AnswersOf(mine, folded, t);
    assert forall i :: 0 <= i < |mine| ==> |mine[i].value| == |Filled(mine)[i]|;
  }

  /**
    A rank that returns from a reduction in some run returns what the loop of
    AllReduce returns for the answers that the rank received in that run.
  */
  lemma RunIsAllReduce(op: Op, n: nat, ws: seq<Rounds.Round>, i: nat, t: nat)
    requires Rounds.Run(Rounds.Reducing(op), n, ws) && i < |ws| && t < n
    requires t < |ws[i].phase| && ws[i].phase[t].Done?
    ensures |ws[i].mine| == n && ws[i].mine[t].Some? && EachOnce(ws[i].phase[t].folded, n)
    ensures var values := ws[i].mine[t].value;
            var answers := AnswersOf(ws[i].mine, ws[i].phase[t].folded, t);
            Groups.AllAnswered(t, |values|, answers) && Groups.IsReduced(op, t, values, answers, ws[i].phase[t].out)
  {
    Rounds.RunKeeps(Rounds.Reducing(op), n, ws, i);
    Rounds.ReturnedIsResult(Rounds.Reducing(op), n, ws, i, t);
    ResultIsReduced(op, ws[i].mine, ws[i].phase[t].folded, t, ws[i].phase[t].out);
  }

  lemma ResultIsReduced(op: Op, mine: seq<Option<Vector>>, folded: seq<nat>, t: nat, out: Vector)
    requires Rounds.IsResult(Rounds.Reducing(op), mine, out)
    requires EachOnce(folded, |mine|) && t < |mine| && folded[0] == t
    ensures mine[t].Some? && Groups.AllAnswered(t, |mine[t].value|, AnswersOf(mine, folded, t))
    ensures Groups.IsReduced(op, t, mine[t].value, AnswersOf(mine, folded, t), out)
  {
    var n, vs, places := |mine|, Filled(mine), AtPositions(folded, t);
    var size := |mine[t].value|;
    assert size == |vs[t]| && |mine[0].value| == |vs[0]|;
    AllVectorsOf(mine, folded, t);
    PositionsOnce(folded, t);
    FoldedInPlace(op, Groups.AllVectors(t, mine[t].value, AnswersOf(mine, folded, t)), vs, places, n, size);
    assert places[..n] == places;
    AnyOrder(op, vs, places, n, size);
    FoldedReduces(op, Groups.AllVectors(t, mine[t].value, AnswersOf(mine, folded, t)), size);
  }

  /** A gather whose frames carry their senders' own vectors returns all vectors in rank order, as every run does. */
  lemma GatheredIsResult(
      ranked: seq<Groups.Member>, rank: nat, values: Vector, answers: seq<Option<Groups.Frame>>, out: Vector,
      mine: seq<Option<Vector>>)
    requires |answers| == |ranked| == |mine| && Groups.AllGot(ranked, rank, values, answers, |answers|)
    requires Groups.IsGathered(ranked, rank, values, answers, out)
    requires forall i :: 0 <= i < |mine| ==> mine[i].Some?
    requires forall a :: a in Groups.Arrived(ranked, rank, values, answers, |answers|) ==>
               a.0 < |mine| ==> mine[a.0] == Some(a.1)
    ensures out == Concat(Filled(mine))
  {
    var arrived := Groups.Arrived(ranked, rank, values, answers, |answers|);
    var parts: seq<Vector> :| Groups.Ordered(parts, arrived, |ranked|) && out == Concat(parts);
    Pigeonhole(Groups.RanksOf(arrived), |ranked|);
    forall r | 0 <= r < |mine| ensures parts[r] == Filled(mine)[r] {
      assert r in Groups.RanksOf(arrived);
      var k :| 0 <= k < |arrived| && Groups.RanksOf(arrived)[k] == r;
      assert arrived[k] in arrived;
    }
    assert parts == Filled(mine);
  }

  // ------------------------------------------------------------------- gathers

  /** What the receives of rank t's gather returned, in the loop's order: frames of the members they came from. */
  function FramesOf(
      members: map<Groups.Id, nat>, mine: seq<Option<Vector>>, folded: seq<nat>, t: nat): (r: seq<Option<Groups.Frame>>)
    requires (forall i :: 0 <= i < |mine| ==> mine[i].Some?) && |mine| == |members.Keys|
    requires t < |folded| && Below(folded, |mine|)
    ensures |r| == |folded|
  {
    var ranked := Groups.Ranked(members);
    seq(|folded|, k requires 0 <= k < |folded| =>
      var peer := folded[if k == t then 0 else if k < t then k + 1 else k];
      Some(Groups.Frame(Some(ranked[peer].id), mine[peer].value)))
  }

  /** A member's rank is its place. */
  lemma RankOfPlace(members: map<Groups.Id, nat>, k: nat)
    requires k < |members.Keys|
    ensures Groups.RankOf(Groups.Ranked(members), Groups.Ranked(members)[k].id) == Some(k)
  {
    var ids := Groups.Sorted(members.Keys);
    Groups.RankInSorted(ids, Groups.Ranked(members), ids[k]);
    assert ids[k] in ids;
  }

  /** The ranks taken in, each with its own vector. */
  function Pairs(mine: seq<Option<Vector>>, folded: seq<nat>): (r: seq<(nat, Vector)>)
    requires (forall i :: 0 <= i < |mine| ==> mine[i].Some?) && Below(folded, |mine|)
    ensures |r| == |folded| && forall k :: 0 <= k < |r| ==> r[k] == (folded[k], mine[folded[k]].value)
  {
    seq(|folded|, k requires 0 <= k < |folded| => (folded[k], mine[folded[k]].value))
  }

  ghost predicate GatherRun(members: map<Groups.Id, nat>, mine: seq<Option<Vector>>, folded: seq<nat>, t: nat) {
    && (forall i :: 0 <= i < |mine| ==> mine[i].Some?) && |mine| == |members.Keys| == |folded|
    && t < |mine| && Even(Filled(mine), |mine[t].value|)
    && EachOnce(folded, |folded|) && Rounds.Dialed(folded, t, |folded|)
  }

  /** One receive of the loop gives the rank that was taken in there, and its vector. */
  lemma GotOf(members: map<Groups.Id, nat>, mine: seq<Option<Vector>>, folded: seq<nat>, t: nat, k: nat)
    requires GatherRun(members, mine, folded, t) && k < |folded|
    ensures var peer := folded[if k == t then 0 else if k < t then k + 1 else k];
            Groups.Got(Groups.Ranked(members), t, mine[t].value, FramesOf(members, mine, folded, t), k)
            == Some((peer, mine[peer].value))
  {
    var peer := folded[if k == t then 0 else if k < t then k + 1 else k];
    RankOfPlace(members, peer);
    assert |mine[peer].value| == |Filled(mine)[peer]|;
    assert k < t ==> peer == k;
  }

  /** How many ranks are taken in before position i, the own one among them. */
  function TakenBefore(t: nat, i: nat): nat { if i <= t then i + 1 else i }

  ghost predicate ArrivedAre(members: map<Groups.Id, nat>, mine: seq<Option<Vector>>, folded: seq<nat>, t: nat, i: nat)
    requires GatherRun(members, mine, folded, t) && i <= |folded|
  {
    var ranked, answers := Groups.Ranked(members), FramesOf(members, mine, folded, t);
    && Groups.AllGot(ranked, t, mine[t].value, answers, i)
    && Groups.Arrived(ranked, t, mine[t].value, answers, i) == Pairs(mine, folded)[..TakenBefore(t, i)]
  }

  lemma ArrivedNext(members: map<Groups.Id, nat>, mine: seq<Option<Vector>>, folded: seq<nat>, t: nat, i: nat)
    requires GatherRun(members, mine, folded, t) && i < |folded| && ArrivedAre(members, mine, folded, t, i)
    ensures ArrivedAre(members, mine, folded, t, i + 1)
  {
    GotOf(members, mine, folded, t, i);
    Groups.GotMore(Groups.Ranked(members), t, mine[t].value, FramesOf(members, mine, folded, t), i);
    NextPair(Pairs(mine, folded), t, i);
  }

  lemma NextPair<T>(pairs: seq<T>, t: nat, i: nat)
    requires i < |pairs| && t < |pairs|
    ensures pairs[..TakenBefore(t, i + 1)]
            == pairs[..TakenBefore(t, i)] + (if i == t then [] else [pairs[if i < t then i + 1 else i]])
  {
  }

  lemma ArrivedFirst(members: map<Groups.Id, nat>, mine: seq<Option<Vector>>, folded: seq<nat>, t: nat)
    requires GatherRun(members, mine, folded, t)
    ensures ArrivedAre(members, mine, folded, t, 0)
  {
    assert Pairs(mine, folded)[..1] == [(t, mine[t].value)];
  }

  lemma {:induction false} Upwards(p: nat -> bool, n: nat)
    requires p(0) && forall i: nat :: i < n && p(i) ==> p(i + 1)
    ensures p(n)
  {
    if n > 0 {
      Upwards(p, n - 1);
      assert p(n - 1) ==> p((n - 1) + 1);
    }
  }

  lemma ArrivedOf(members: map<Groups.Id, nat>, mine: seq<Option<Vector>>, folded: seq<nat>, t: nat)
    requires GatherRun(members, mine, folded, t)
    ensures ArrivedAre(members, mine, folded, t, |folded|)
  {
    var p := (i: nat) => i <= |folded| && ArrivedAre(members, mine, folded, t, i);
    ArrivedFirst(members, mine, folded, t);
    forall i: nat | i < |folded| && p(i) ensures p(i + 1) {
      ArrivedNext(members, mine, folded, t, i);
    }
    Upwards(p, |folded|);
  }

  /**
    The frames that a rank took in, in a run of a gather in which it returns, are
    ones for which its AllGather loop succeeds, and returns what it returned.
  */
  lemma RunIsAllGather(members: map<Groups.Id, nat>, n: nat, ws: seq<Rounds.Round>, i: nat, t: nat)
    requires Rounds.Run(Rounds.Gathering, n, ws) && i < |ws| && t < n == |members.Keys|
    requires t < |ws[i].phase| && ws[i].phase[t].Done?
    ensures |ws[i].mine| == n && (forall r :: 0 <= r < n ==> ws[i].mine[r].Some?) && EachOnce(ws[i].phase[t].folded, n)
    ensures var ranked, values := Groups.Ranked(members), ws[i].mine[t].value;
            var answers := FramesOf(members, ws[i].mine, ws[i].phase[t].folded, t);
            && Groups.Gathers(ranked, t, values, answers)
            && Groups.IsGathered(ranked, t, values, answers, ws[i].phase[t].out)
  {
    Rounds.RunKeeps(Rounds.Gathering, n, ws, i);
    Rounds.ReturnedIsResult(Rounds.Gathering, n, ws, i, t);
    var mine := ws[i].mine;
    assert |mine[t].value| == |Filled(mine)[t]| && |mine[0].value| == |Filled(mine)[0]|;
    ResultIsGathered(members, mine, ws[i].phase[t].folded, t, ws[i].phase[t].out);
  }

  lemma ResultIsGathered(members: map<Groups.Id, nat>, mine: seq<Option<Vector>>, folded: seq<nat>, t: nat, out: Vector)
    requires GatherRun(members, mine, folded, t) && out == Concat(Filled(mine))
    ensures Groups.Gathers(Groups.Ranked(members), t, mine[t].value, FramesOf(members, mine, folded, t))
    ensures Groups.IsGathered(Groups.Ranked(members), t, mine[t].value, FramesOf(members, mine, folded, t), out)
  {
    var ranked, answers := Groups.Ranked(members), FramesOf(members, mine, folded, t);
    ArrivedOf(members, mine, folded, t);
    var arrived := Groups.Arrived(ranked, t, mine[t].value, answers, |answers|);
    assert arrived == Pairs(mine, folded);
    assert Groups.RanksOf(arrived) == folded;
    Pigeonhole(folded, |folded|);
    assert Groups.Ordered(Filled(mine), arrived, |ranked|);
  }
}
