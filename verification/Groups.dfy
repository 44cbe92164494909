/** A group member: ranked membership, mailboxes, and the loops of the collectives. */
module Groups {
  import opened Wrappers
  import opened Vectors

  /** Endpoint ids, numbered in the order of their strings. */
  type Id = nat

  datatype Member = Member(id: Id, rank: nat, addr: nat)

  /** A frame from a peer; the sender is a string and may name no member. */
  datatype Frame = Frame(sender: Option<Id>, values: Vector)

  // --------------------------------------------------------------------- ranks

  ghost predicate IsMin(s: set<Id>, x: Id) {
    x in s && forall y :: y in s ==> x <= y
  }

  lemma {:induction false} MinExists(s: set<Id>)
    requires s != {}
    ensures exists x :: IsMin(s, x)
  {
    var x :| x in s;
    if s != {x} {
      MinExists(s - {x});
      var y :| IsMin(s - {x}, y);
      var z := if x < y then x else y;
      assert forall v :: v in s ==> v == x || v in s - {x};
      assert IsMin(s, z);
    } else {
      assert IsMin(s, x);
    }
  }

  function Least(s: set<Id>): (x: Id)
    requires s != {}
    ensures IsMin(s, x)
  {
    MinExists(s);
    var x :| x in s && forall y :: y in s ==> x <= y;
    x
  }

  ghost predicate Increasing(r: seq<Id>) {
    forall i, j :: 0 <= i < j < |r| ==> r[i] < r[j]
  }

  lemma LeastFirst(s: set<Id>, x: Id, rest: seq<Id>)
    requires IsMin(s, x) && Increasing(rest) && forall y :: y in rest <==> y in s - {x}
    ensures Increasing([x] + rest) && forall y :: y in [x] + rest <==> y in s
  {
    assert forall i :: 0 <= i < |rest| ==> rest[i] in rest;
  }

  /** The members' ids, sorted. */
  function Sorted(s: set<Id>): (r: seq<Id>)
    ensures |r| == |s| && (forall x :: x in r <==> x in s) && Increasing(r)
    decreases |s|
  {
    if s == {} then [] else
      var x := Least(s);
      LeastFirst(s, x, Sorted(s - {x}));
      [x] + Sorted(s - {x})
  }

  function Ranked(members: map<Id, nat>): (r: seq<Member>)
    ensures |r| == |members.Keys|
    ensures forall i :: 0 <= i < |r| ==> r[i].id == Sorted(members.Keys)[i] && r[i].rank == i
  {
    var ids := Sorted(members.Keys);
    seq(|ids|, i requires 0 <= i < |ids| => assert ids[i] in ids; Member(ids[i], i, members[ids[i]]))
  }

  /** rankOfMember, and Rank for the own id; None if it is not a member. */
  function RankOf(ranked: seq<Member>, id: Id): Option<nat> {
    if ranked == [] then None
    else if ranked[0].id == id then Some(ranked[0].rank)
    else RankOf(ranked[1..], id)
  }

  lemma {:induction false} RankOfMeans(ranked: seq<Member>, id: Id)
    ensures RankOf(ranked, id).Some? ==> exists m :: m in ranked && m.id == id && m.rank == RankOf(ranked, id).value
    ensures RankOf(ranked, id).None? ==> forall m :: m in ranked ==> m.id != id
  {
    if ranked != [] {
      RankOfMeans(ranked[1..], id);
      assert forall m :: m in ranked <==> m == ranked[0] || m in ranked[1..];
    }
  }

  /** The ids that come before this one. */
  function Smaller(s: set<Id>, id: Id): set<Id> { set y | y in s && y < id }

  lemma {:induction false} CountBelow(s: set<Id>, r: seq<Id>, k: nat)
    requires k < |r| && Increasing(r) && forall x :: x in r <==> x in s
    ensures |Smaller(s, r[k])| == k
    decreases k
  {
    var b := Smaller(s, r[k]);
    if k == 0 {
      assert forall y :: y in s ==> y in r && y >= r[0];
      assert b == {};
    } else {
      CountBelow(s, r, k - 1);
      var a := Smaller(s, r[k - 1]);
      assert r[k - 1] in r;
      forall y | y in b ensures y in a || y == r[k - 1] {
        assert y in r;
      }
      assert b == a + {r[k - 1]};
    }
  }

  /**
    A member's rank is the number of members whose id is smaller: unique, below
    the group's size, and the same wherever the same members are known.
  */
  lemma RankIsCount(members: map<Id, nat>, id: Id)
    ensures RankOf(Ranked(members), id).Some? <==> id in members
    ensures id in members ==> RankOf(Ranked(members), id) == Some(|Smaller(members.Keys, id)|)
    ensures id in members ==> RankOf(Ranked(members), id).value < |members.Keys|
  {
    var ids, ranked := Sorted(members.Keys), Ranked(members);
    RankInSorted(ids, ranked, id);
    if id in members {
      assert id in ids;
      var k := RankOf(ranked, id).value;
      CountBelow(members.Keys, ids, k);
    } else {
      assert id !in ids;
    }
  }

  /** The rank is the place in the sorted list. */
  lemma RankInSorted(ids: seq<Id>, ranked: seq<Member>, id: Id)
    requires Increasing(ids) && |ranked| == |ids|
    requires forall i :: 0 <= i < |ids| ==> ranked[i].id == ids[i] && ranked[i].rank == i
    ensures RankOf(ranked, id).Some? <==> id in ids
    ensures RankOf(ranked, id).Some? ==> RankOf(ranked, id).value < |ids| && ids[RankOf(ranked, id).value] == id
  {
    RankOfMeans(ranked, id);
    if id in ids {
      var k :| 0 <= k < |ids| && ids[k] == id;
      assert ranked[k] in ranked;
    }
    if RankOf(ranked, id).Some? {
      var m :| m in ranked && m.id == id && m.rank == RankOf(ranked, id).value;
      var j :| 0 <= j < |ranked| && ranked[j] == m;
    }
  }

  // ------------------------------------------------------------------- gathering

  /** A seq that covers as many values as it has elements repeats none. */
  lemma {:induction false} CoverIsDistinct(order: seq<nat>)
    requires |AsSet(order)| == |order|
    ensures Distinct(order)
  {
    if order != [] {
      var rest := order[1..];
      assert AsSet(order) == AsSet(rest) + {order[0]};
      SetAtMost(rest);
      assert order[0] in AsSet(rest) ==> AsSet(order) == AsSet(rest);
      CoverIsDistinct(rest);
      assert forall i :: 0 < i < |order| ==> order[i] == rest[i - 1] && rest[i - 1] in AsSet(rest);
    }
  }

  lemma {:induction false} SetAtMost(order: seq<nat>)
    ensures |AsSet(order)| <= |order|
  {
    if order != [] {
      SetAtMost(order[1..]);
      assert AsSet(order) == AsSet(order[1..]) + {order[0]};
    }
  }

  /** n ranks that leave none out below n are each of them once. */
  lemma CoversMeansOnce(order: seq<nat>, n: nat)
    requires |order| == n && Below(order, n) && forall r: nat :: r < n ==> r in order
    ensures EachOnce(order, n)
  {
    assert forall r :: r in order ==> r < n by {
      forall r | r in order ensures r < n {
        var i :| 0 <= i < |order| && order[i] == r;
      }
    }
    assert AsSet(order) == AsSet(UpTo(n)) by {
      forall r: nat ensures r in AsSet(order) <==> r in AsSet(UpTo(n)) {
        if r < n {
          assert UpTo(n)[r] == r;
        }
      }
    }
    DistinctCount(UpTo(n));
    CoverIsDistinct(order);
  }

  /** Writing these vectors, in this order, at the ranks they come with fills the parts like this. */
  ghost predicate Placed(parts: seq<Option<Vector>>, arrived: seq<(nat, Vector)>) {
    && Below(RanksOf(arrived), |parts|)
    && (forall r :: 0 <= r < |parts| && parts[r].Some? ==> r in RanksOf(arrived))
    && (forall k :: 0 <= k < |arrived| ==> parts[arrived[k].0].Some?)
    && (Distinct(RanksOf(arrived)) ==> forall k :: 0 <= k < |arrived| ==> parts[arrived[k].0] == Some(arrived[k].1))
  }

  function RanksOf(arrived: seq<(nat, Vector)>): (r: seq<nat>)
    ensures |r| == |arrived| && forall k :: 0 <= k < |r| ==> r[k] == arrived[k].0
  {
    seq<nat>(|arrived|, k requires 0 <= k < |arrived| => arrived[k].0)
  }

  lemma PlaceFirst(n: nat, rank: nat, values: Vector)
    requires rank < n
    ensures Placed(seq(n, _ => None)[rank := Some(values)], [(rank, values)])
  {
    assert RanksOf([(rank, values)])[0] == rank;
  }

  lemma PlaceKeeps(parts: seq<Option<Vector>>, arrived: seq<(nat, Vector)>, r: nat, v: Vector)
    requires Placed(parts, arrived) && r < |parts|
    ensures Placed(parts[r := Some(v)], arrived + [(r, v)])
  {
    var more := arrived + [(r, v)];
    var was, now := RanksOf(arrived), RanksOf(more);
    assert now == was + [r];
    assert forall q :: q in was ==> q in now;
    assert now[|was|] == r && r in now;
    if Distinct(now) {
      assert forall i, j :: 0 <= i < j < |was| ==> now[i] == was[i] && now[j] == was[j];
      assert forall k :: 0 <= k < |arrived| ==> now[k] == arrived[k].0 && now[k] != now[|was|];
    }
  }

  /** What a receive in AllGather gives: the sender's rank and its vector; None on any error. */
  function Received(ranked: seq<Member>, size: nat, answer: Option<Frame>): Option<(nat, Vector)> {
    if answer.None? || answer.value.sender.None? then None
    else
      match RankOf(ranked, answer.value.sender.value)
      case None => None
      case Some(r) => if |answer.value.values| != size then None else Some((r, answer.value.values))
  }

  // --------------------------------------------------------------------- shards

  function Shard(v: Vector, n: nat, rank: nat): (r: Vector)
    requires n > 0 && rank < n && |v| % n == 0
  {
    var shard := |v| / n;
    ShardInRange(|v|, n, shard, rank);
    v[rank * shard..rank * shard + shard]
  }

  lemma ShardInRange(length: nat, n: nat, shard: nat, rank: nat)
    requires n > 0 && rank < n && length % n == 0 && shard == length / n
    ensures 0 <= rank * shard && rank * shard + shard == (rank + 1) * shard <= length
  {
    OneShardMore(rank, shard);
    FewerShards(rank + 1, n, shard);
    AllShards(length, n, shard);
  }

  lemma OneShardMore(a: nat, c: nat)
    ensures 0 <= a * c && a * c + c == (a + 1) * c
  {
  }

  lemma {:induction false} FewerShards(a: nat, b: nat, c: nat)
    requires a <= b
    ensures a * c <= b * c
    decreases b
  {
    if a < b {
      FewerShards(a, b - 1, c);
      OneShardMore(b - 1, c);
    }
  }

  lemma AllShards(length: nat, n: nat, shard: nat)
    requires n > 0 && length % n == 0 && shard == length / n
    ensures n * shard == length
  {
  }

  function Shards(v: Vector, n: nat, k: nat): (r: seq<Vector>)
    requires n > 0 && k <= n && |v| % n == 0
    ensures |r| == k
  {
    if k == 0 then [] else Shards(v, n, k - 1) + [Shard(v, n, k - 1)]
  }

  lemma {:induction false} ShardsCover(v: Vector, n: nat, shard: nat, k: nat, end: nat)
    requires n > 0 && k <= n && |v| % n == 0 && shard == |v| / n && end == k * shard <= |v|
    ensures Concat(Shards(v, n, k)) == v[..end]
    decreases k
  {
    if k > 0 {
      ShardInRange(|v|, n, shard, k - 1);
      var start := (k - 1) * shard;
      ShardsCover(v, n, shard, k - 1, start);
      ConcatMore(Shards(v, n, k - 1), Shard(v, n, k - 1));
      assert v[..end] == v[..start] + v[start..end];
    }
  }

  /** The ranks' shards are the whole vector, in rank order: gathering them undoes the scattering. */
  lemma ShardsPartition(v: Vector, n: nat)
    requires n > 0 && |v| % n == 0
    ensures Concat(Shards(v, n, n)) == v
  {
    var shard := |v| / n;
    AllShards(|v|, n, shard);
    ShardsCover(v, n, shard, n, |v|);
    assert v[..|v|] == v;
  }

  // ---------------------------------------------------------------- one member

  /** Loop position i of a collective: the own vector, or what was received there. */
  function Got(
      ranked: seq<Member>, rank: nat, values: Vector, answers: seq<Option<Frame>>, i: nat): Option<(nat, Vector)>
    requires i < |answers| == |ranked|
  {
    if i == rank then Some((rank, values))
    else if answers[i].None? then None
    else if i < rank then Received(ranked, |values|, Some(answers[i].value.(sender := Some(ranked[i].id))))
    else Received(ranked, |values|, answers[i])
  }

  ghost predicate AllGot(ranked: seq<Member>, rank: nat, values: Vector, answers: seq<Option<Frame>>, i: nat)
    requires i <= |answers| == |ranked|
  {
    forall j: nat :: j < i ==> Got(ranked, rank, values, answers, j).Some?
  }

  /** The own vector first, then what was received up to loop position i, with the senders' ranks. */
  ghost function Arrived(
      ranked: seq<Member>, rank: nat, values: Vector, answers: seq<Option<Frame>>, i: nat): seq<(nat, Vector)>
    requires i <= |answers| == |ranked| && AllGot(ranked, rank, values, answers, i)
  {
    if i == 0 then [(rank, values)]
    else if i - 1 == rank then Arrived(ranked, rank, values, answers, i - 1)
    else Arrived(ranked, rank, values, answers, i - 1) + [Got(ranked, rank, values, answers, i - 1).value]
  }

  lemma GotMore(ranked: seq<Member>, rank: nat, values: Vector, answers: seq<Option<Frame>>, i: nat)
    requires i < |answers| == |ranked| && AllGot(ranked, rank, values, answers, i)
    requires Got(ranked, rank, values, answers, i).Some?
    ensures AllGot(ranked, rank, values, answers, i + 1)
    ensures Arrived(ranked, rank, values, answers, i + 1)
            == Arrived(ranked, rank, values, answers, i)
               + (if i == rank then [] else [Got(ranked, rank, values, answers, i).value])
  {
  }

  lemma PlaceNext(
      ranked: seq<Member>, rank: nat, values: Vector, answers: seq<Option<Frame>>, i: nat, parts: seq<Option<Vector>>)
    requires i < |answers| == |ranked| && i != rank && AllGot(ranked, rank, values, answers, i)
    requires Placed(parts, Arrived(ranked, rank, values, answers, i))
    requires var got := Got(ranked, rank, values, answers, i); got.Some? && got.value.0 < |parts|
    ensures AllGot(ranked, rank, values, answers, i + 1)
    ensures var (r, v) := Got(ranked, rank, values, answers, i).value;
            Placed(parts[r := Some(v)], Arrived(ranked, rank, values, answers, i + 1))
  {
    var (r, v) := Got(ranked, rank, values, answers, i).value;
    GotMore(ranked, rank, values, answers, i);
    PlaceKeeps(parts, Arrived(ranked, rank, values, answers, i), r, v);
  }

  lemma {:induction false} ArrivedCount(
      ranked: seq<Member>, rank: nat, values: Vector, answers: seq<Option<Frame>>, i: nat)
    requires i <= |answers| == |ranked| && AllGot(ranked, rank, values, answers, i)
    ensures |Arrived(ranked, rank, values, answers, i)| == if rank < i then i else i + 1
  {
    if i > 0 {
      ArrivedCount(ranked, rank, values, answers, i - 1);
    }
  }

  /** Every receive was good, and no rank was left out. */
  ghost predicate Gathers(ranked: seq<Member>, rank: nat, values: Vector, answers: seq<Option<Frame>>)
    requires |answers| == |ranked|
  {
    && AllGot(ranked, rank, values, answers, |answers|)
    && forall q: nat :: q < |ranked| ==> q in RanksOf(Arrived(ranked, rank, values, answers, |answers|))
  }

  /** Each rank arrived once, and the result holds the vectors in the order of their senders' ranks. */
  ghost predicate IsGathered(ranked: seq<Member>, rank: nat, values: Vector, answers: seq<Option<Frame>>, out: Vector)
    requires |answers| == |ranked| && AllGot(ranked, rank, values, answers, |answers|)
  {
    var arrived := Arrived(ranked, rank, values, answers, |answers|);
    && EachOnce(RanksOf(arrived), |ranked|)
    && exists parts: seq<Vector> :: Ordered(parts, arrived, |ranked|) && out == Concat(parts)
  }

  ghost predicate Ordered(parts: seq<Vector>, arrived: seq<(nat, Vector)>, n: nat) {
    |parts| == n && forall k :: 0 <= k < |arrived| ==> arrived[k].0 < n && parts[arrived[k].0] == arrived[k].1
  }

  /** When every part is filled, the arrivals were one from each rank. */
  lemma FilledIsGathered(
      ranked: seq<Member>, rank: nat, values: Vector, answers: seq<Option<Frame>>, parts: seq<Option<Vector>>)
    requires |answers| == |ranked| == |parts| && rank < |ranked| && AllGot(ranked, rank, values, answers, |answers|)
    requires Placed(parts, Arrived(ranked, rank, values, answers, |answers|))
    requires forall i :: 0 <= i < |parts| ==> parts[i].Some?
    ensures Gathers(ranked, rank, values, answers)
    ensures IsGathered(ranked, rank, values, answers, Concat(Filled(parts)))
  {
    var arrived := Arrived(ranked, rank, values, answers, |answers|);
    ArrivedCount(ranked, rank, values, answers, |answers|);
    CoversMeansOnce(RanksOf(arrived), |ranked|);
    assert forall k :: 0 <= k < |arrived| ==> RanksOf(arrived)[k] == arrived[k].0;
    assert Ordered(Filled(parts), arrived, |ranked|);
  }

  /** The answer of a dialed member counts as that member's, whatever sender it names. */
  lemma DialedPeer(members: map<Id, nat>, rank: nat, values: Vector, answers: seq<Option<Frame>>, i: nat)
    requires i < rank && i < |answers| == |Ranked(members)| && answers[i].Some?
    ensures Got(Ranked(members), rank, values, answers, i)
            == if |answers[i].value.values| == |values| then Some((i, answers[i].value.values)) else None
  {
    var ids := Sorted(members.Keys);
    RankInSorted(ids, Ranked(members), ids[i]);
    assert ids[i] in ids;
  }

  /** A frame that was waited for counts as its sender's, if that is a member. */
  lemma CallingPeer(members: map<Id, nat>, rank: nat, values: Vector, answers: seq<Option<Frame>>, i: nat, f: Frame)
    requires rank < i < |answers| == |Ranked(members)| && answers[i] == Some(f)
    ensures Got(Ranked(members), rank, values, answers, i)
            == if f.sender.Some? && f.sender.value in members && |f.values| == |values|
               then Some((|Smaller(members.Keys, f.sender.value)|, f.values)) else None
  {
    if f.sender.Some? {
      RankIsCount(members, f.sender.value);
    }
  }

  /** In what a gather returns, each vector that arrived is found at its sender's place. */
  lemma GatheredAt(
      ranked: seq<Member>, rank: nat, values: Vector, answers: seq<Option<Frame>>, out: Vector, k: nat)
    requires |answers| == |ranked| && AllGot(ranked, rank, values, answers, |answers|)
    requires IsGathered(ranked, rank, values, answers, out)
    requires k < |Arrived(ranked, rank, values, answers, |answers|)|
    ensures var (r, v) := Arrived(ranked, rank, values, answers, |answers|)[k];
            && r < |ranked| && 0 <= r * |values| && r * |values| + |values| <= |out| == |ranked| * |values|
            && out[r * |values|..r * |values| + |values|] == v
  {
    var arrived := Arrived(ranked, rank, values, answers, |answers|);
    var parts: seq<Vector> :| Ordered(parts, arrived, |ranked|) && out == Concat(parts);
    ArrivedEven(ranked, rank, values, answers, |answers|);
    Pigeonhole(RanksOf(arrived), |ranked|);
    forall r | 0 <= r < |parts| ensures |parts[r]| == |values| {
      assert r in RanksOf(arrived);
      var j :| 0 <= j < |arrived| && RanksOf(arrived)[j] == r;
      assert parts[arrived[j].0] == arrived[j].1;
    }
    ConcatHas(parts, |values|, arrived[k].0);
  }

  lemma {:induction false} ArrivedEven(
      ranked: seq<Member>, rank: nat, values: Vector, answers: seq<Option<Frame>>, i: nat)
    requires i <= |answers| == |ranked| && AllGot(ranked, rank, values, answers, i)
    ensures forall k :: 0 <= k < |Arrived(ranked, rank, values, answers, i)| ==>
              |Arrived(ranked, rank, values, answers, i)[k].1| == |values|
  {
    if i > 0 {
      ArrivedEven(ranked, rank, values, answers, i - 1);
      assert Got(ranked, rank, values, answers, i - 1).Some?;
    }
  }

  lemma GapMeansNot(
      ranked: seq<Member>, rank: nat, values: Vector, answers: seq<Option<Frame>>, parts: seq<Option<Vector>>, i: nat)
    requires |answers| == |ranked| == |parts| && AllGot(ranked, rank, values, answers, |answers|)
    requires Placed(parts, Arrived(ranked, rank, values, answers, |answers|)) && i < |parts| && parts[i].None?
    ensures !Gathers(ranked, rank, values, answers)
  {
    var arrived := Arrived(ranked, rank, values, answers, |answers|);
    assert forall k :: 0 <= k < |arrived| ==> parts[arrived[k].0].Some? && RanksOf(arrived)[k] != i;
    assert i !in RanksOf(arrived);
  }

  /** The vectors of all ranks; the own one also stands in for answers that are no good. */
  function AllVectors(rank: nat, values: Vector, answers: seq<Option<Vector>>): (r: seq<Vector>)
    ensures |r| == |answers| && Even(r, |values|)
  {
    seq(|answers|, i requires 0 <= i < |answers| =>
      if i == rank || answers[i].None? || |answers[i].value| != |values| then values else answers[i].value)
  }

  predicate AllAnswered(rank: nat, size: nat, answers: seq<Option<Vector>>) {
    forall i :: 0 <= i < |answers| && i != rank ==> answers[i].Some? && |answers[i].value| == size
  }

  /** The own rank first, then the others up to i. */
  function LoopOrder(rank: nat, i: nat): (r: seq<nat>)
    ensures r != [] && r[0] == rank
  {
    if i == 0 then [rank]
    else if i - 1 == rank then LoopOrder(rank, i - 1)
    else LoopOrder(rank, i - 1) + [i - 1]
  }

  lemma {:induction false} LoopOrderOnce(rank: nat, i: nat)
    ensures var r := LoopOrder(rank, i);
            && |r| == (if rank < i then i else i + 1) && Distinct(r)
            && forall k :: 0 <= k < |r| ==> r[k] == rank || r[k] < i
  {
    if i > 0 {
      LoopOrderOnce(rank, i - 1);
    }
  }

  lemma FoldedMore(op: Op, vs: seq<Vector>, order: seq<nat>, size: nat, r: nat)
    requires order != [] && Even(vs, size) && Below(order, |vs|) && r < |vs|
    ensures Below(order + [r], |vs|)
    ensures Folded(op, vs, order + [r], size) == Reduce(op, Folded(op, vs, order, size), vs[r])
  {
    assert (order + [r])[..|order|] == order;
  }

  ghost predicate RanksBelow(ranked: seq<Member>) {
    forall id :: RankOf(ranked, id).Some? ==> RankOf(ranked, id).value < |ranked|
  }

  lemma RanksAreBelow(members: map<Id, nat>, ranked: seq<Member>)
    requires ranked == Ranked(members)
    ensures RanksBelow(ranked)
  {
    forall id | RankOf(ranked, id).Some? ensures RankOf(ranked, id).value < |ranked| {
      RankIsCount(members, id);
    }
  }

  /** The reduction of all ranks' vectors, element by element; it is the fold in rank order, scaled for a mean. */
  ghost predicate IsReduced(op: Op, rank: nat, values: Vector, answers: seq<Option<Vector>>, out: Vector) {
    && |answers| > 0
    && Reduces(op, AllVectors(rank, values, answers), out)
    && out == Scale(op, |answers|, Folded(op, AllVectors(rank, values, answers), UpTo(|answers|), |values|))
  }

  /** `out` is the own vector reduced with those of the other ranks below i. */
  ghost predicate ReducedUpTo(op: Op, rank: nat, values: Vector, answers: seq<Option<Vector>>, i: nat, out: Vector) {
    && Below(LoopOrder(rank, i), |answers|)
    && out == Folded(op, AllVectors(rank, values, answers), LoopOrder(rank, i), |values|)
  }

  lemma ReduceNext(op: Op, rank: nat, values: Vector, answers: seq<Option<Vector>>, i: nat, out: Vector)
    requires i < |answers| && ReducedUpTo(op, rank, values, answers, i, out)
    ensures i == rank ==> ReducedUpTo(op, rank, values, answers, i + 1, out)
    ensures |out| == |values|
    ensures i != rank && answers[i].Some? && |answers[i].value| == |values| ==>
              ReducedUpTo(op, rank, values, answers, i + 1, Reduce(op, out, answers[i].value))
  {
    FoldedMore(op, AllVectors(rank, values, answers), LoopOrder(rank, i), |values|, i);
  }

  /** Folding in the loop's order is folding in rank order. */
  lemma InRankOrder(op: Op, values: Vector, answers: seq<Option<Vector>>, rank: nat, out: Vector)
    requires rank < |answers| && ReducedUpTo(op, rank, values, answers, |answers|, out)
    ensures IsReduced(op, rank, values, answers, Scale(op, |answers|, out))
  {
    LoopOrderOnce(rank, |answers|);
    AnyOrder(op, AllVectors(rank, values, answers), LoopOrder(rank, |answers|), |answers|, |values|);
    FoldedReduces(op, AllVectors(rank, values, answers), |values|);
  }

  lemma PutAndRemoved<T>(m: map<nat, T>, k: nat, v: T)
    ensures m[k := v] - {k} == m - {k}
  {
  }

  // ------------------------------------------------------------------- mailboxes

  /** The channel of one collective: as much room as there were members when it was published. */
  datatype Mailbox = Mailbox(frames: seq<Frame>, room: nat) {
    function Deliver(f: Frame): Mailbox {
      if |frames| >= room then this else this.(frames := frames + [f])
    }
  }

  datatype Mail = Delivery(frame: Frame) | Receipt

  /** What the receipts of some mail took, and the mailbox after it; a receipt from an empty mailbox waits. */
  function AfterMail(b: Mailbox, mail: seq<Mail>): (seq<Frame>, Mailbox)
    decreases |mail|
  {
    if mail == [] then ([], b)
    else if mail[0].Delivery? then AfterMail(b.Deliver(mail[0].frame), mail[1..])
    else if b.frames == [] then AfterMail(b, mail[1..])
    else
      var (taken, after) := AfterMail(b.(frames := b.frames[1..]), mail[1..]);
      ([b.frames[0]] + taken, after)
  }

  function Deliveries(mail: seq<Mail>): seq<Frame> {
    if mail == [] then []
    else if mail[0].Delivery? then [mail[0].frame] + Deliveries(mail[1..])
    else Deliveries(mail[1..])
  }

  /** A mailbox that has room for all that comes gives it out in order and loses nothing. */
  lemma {:induction false} RoomForAll(b: Mailbox, mail: seq<Mail>)
    requires |b.frames| + |Deliveries(mail)| <= b.room
    ensures var (taken, after) := AfterMail(b, mail);
            taken + after.frames == b.frames + Deliveries(mail) && after.room == b.room
    decreases |mail|
  {
    if mail != [] {
      if mail[0].Delivery? {
        RoomForAll(b.Deliver(mail[0].frame), mail[1..]);
      } else if b.frames == [] {
        RoomForAll(b, mail[1..]);
      } else {
        RoomForAll(b.(frames := b.frames[1..]), mail[1..]);
        var (taken, after) := AfterMail(b.(frames := b.frames[1..]), mail[1..]);
        assert [b.frames[0]] + taken + after.frames == [b.frames[0]] + (taken + after.frames);
      }
    }
  }

  /** The frames are from members other than this one, no two from one sender. */
  ghost predicate OneFromEach(frames: seq<Frame>, members: set<Id>, self: Id) {
    && (forall f :: f in frames ==> f.sender.Some? && f.sender.value in members && f.sender.value != self)
    && forall i, j :: 0 <= i < j < |frames| ==> frames[i].sender != frames[j].sender
  }

  lemma {:induction false} FewFrames(frames: seq<Frame>, members: set<Id>, self: Id)
    requires OneFromEach(frames, members, self) && self in members
    ensures |frames| < |members|
    decreases |frames|
  {
    if frames == [] {
      assert self in members;
    } else {
      var last := frames[|frames| - 1];
      assert last in frames;
      FewFrames(frames[..|frames| - 1], members - {last.sender.value}, self);
    }
  }

  /**
    With one frame from each peer no frame is lost for lack of room, whenever they
    come and however many were taken before: what was taken and what is still
    there is all that came, in order.
  */
  lemma NoFrameLost(members: map<Id, nat>, self: Id, mail: seq<Mail>)
    requires self in members && OneFromEach(Deliveries(mail), members.Keys, self)
    ensures var (taken, after) := AfterMail(Mailbox([], |Ranked(members)|), mail);
            taken + after.frames == Deliveries(mail)
  {
    FewFrames(Deliveries(mail), members.Keys, self);
    RoomForAll(Mailbox([], |Ranked(members)|), mail);
  }

  class Group {
    const self: Id
    var members: map<Id, nat>
    var ranked: seq<Member>
    var seqNo: nat
    var pending: map<nat, Vector>
    var inbound: map<nat, Mailbox>

    ghost predicate Valid()
      reads this
    {
      ranked == Ranked(members)
    }

    constructor (self: Id, addr: nat)
      ensures Valid() && this.self == self && members == map[self := addr]
      ensures seqNo == 0 && pending == map[] && inbound == map[]
    {
      this.self := self;
      members := map[self := addr];
      ranked := Ranked(map[self := addr]);
      seqNo, pending, inbound := 0, map[], map[];
    }

    /** setMember: an empty address (0) does not replace a known one. */
    method SetMember(id: Id, addr: nat)
      requires Valid()
      modifies this`members, this`ranked
      ensures Valid() && members.Keys == old(members).Keys + {id}
      ensures forall x :: x in old(members) && x != id ==> members[x] == old(members)[x]
      ensures members[id] == if addr == 0 && id in old(members) then old(members)[id] else addr
    {
      var known := if addr == 0 && id in members && members[id] != 0 then members[id] else addr;
      members := members[id := known];
      Refresh();
    }

    method RemoveMember(id: Id)
      requires Valid()
      modifies this`members, this`ranked
      ensures Valid() && members == old(members) - {id}
    {
      members := members - {id};
      Refresh();
    }

    /** refreshLocked */
    method Refresh()
      modifies this`ranked
      ensures Valid()
    {
      var next := Ranked(members);
      if ranked == next {
        return;
      }
      ranked := next;
    }

    method PublishLocal(number: nat, values: Vector)
      modifies this`pending, this`inbound
      ensures pending == old(pending)[number := values]
      ensures inbound == old(inbound)[number := Mailbox([], |ranked|)]
    {
      pending := pending[number := values];
      inbound := inbound[number := Mailbox([], |ranked|)];
    }

    method ClearLocal(number: nat)
      modifies this`pending, this`inbound
      ensures pending == old(pending) - {number} && inbound == old(inbound) - {number}
    {
      pending := pending - {number};
      inbound := inbound - {number};
    }

    /** What serve does with a frame that came over a connection from `remote`, up to waitLocal. */
    method Serve(remote: Id, number: nat, f: Frame)
      modifies this`inbound
      ensures inbound == if f.sender == Some(remote) && remote in members && number in old(inbound)
                         then old(inbound)[number := old(inbound)[number].Deliver(f)] else old(inbound)
    {
      if f.sender != Some(remote) || remote !in members {
        return;
      }
      DeliverInbound(number, f);
    }

    /** deliverInbound: dropped without a mailbox, or when the mailbox is full. */
    method DeliverInbound(number: nat, f: Frame)
      modifies this`inbound
      ensures inbound == if number in old(inbound) then old(inbound)[number := old(inbound)[number].Deliver(f)]
                         else old(inbound)
    {
      if number !in inbound {
        return;
      }
      inbound := inbound[number := inbound[number].Deliver(f)];
    }

    /**
      The loop of AllReduce; answers[i] is what exchange or waitInbound returned
      for the member of rank i.  It succeeds exactly when every peer answered
      with a vector of the right length, and then returns the reduction of all
      vectors in rank order.
    */
    method AllReduce(values: Vector, op: Op, answers: seq<Option<Vector>>) returns (r: Option<Vector>)
      requires Valid() && |answers| == |ranked|
      modifies this`seqNo, this`pending, this`inbound
      ensures r.Some? <==> RankOf(ranked, self).Some? && AllAnswered(RankOf(ranked, self).value, |values|, answers)
      ensures r.Some? ==> IsReduced(op, RankOf(ranked, self).value, values, answers, r.value)
      ensures RankOf(ranked, self).Some? ==>
                seqNo == old(seqNo) + 1 && pending == old(pending) - {seqNo} && inbound == old(inbound) - {seqNo}
      ensures RankOf(ranked, self).None? ==> seqNo == old(seqNo) && pending == old(pending) && inbound == old(inbound)
    {
      var mine := RankOf(ranked, self);
      if mine.None? {
        return None;
      }
      RanksAreBelow(members, ranked);
      seqNo := seqNo + 1;
      PublishLocal(seqNo, values);
      r := ReduceLoop(values, op, answers, mine.value);
      ClearLocal(seqNo);
      PutAndRemoved(old(pending), seqNo, values);
      PutAndRemoved(old(inbound), seqNo, Mailbox([], |ranked|));
    }

    method ReduceLoop(values: Vector, op: Op, answers: seq<Option<Vector>>, rank: nat) returns (r: Option<Vector>)
      requires rank < |answers|
      ensures r.Some? <==> AllAnswered(rank, |values|, answers)
      ensures r.Some? ==> IsReduced(op, rank, values, answers, r.value)
    {
      var out := values;
      for i := 0 to |answers|
        invariant forall j :: 0 <= j < i && j != rank ==> answers[j].Some? && |answers[j].value| == |values|
        invariant ReducedUpTo(op, rank, values, answers, i, out)
      {
        ReduceNext(op, rank, values, answers, i, out);
        if i == rank {
          continue;
        }
        if answers[i].None? || |answers[i].value| != |out| {
          return None;
        }
        out := Reduce(op, out, answers[i].value);
      }
      InRankOrder(op, values, answers, rank, out);
      r := Some(Scale(op, |answers|, out));
    }

    /**
      The loop of AllGather; answers[i] is the frame that came where the member of
      rank i was due.  It succeeds exactly when every receive gave a member's
      vector of the right length and no rank was left out.  Then, whatever frames
      came in whatever order, each rank was filled exactly once, and the result
      is the vectors in rank order, each where its own sender's rank puts it.
    */
    method AllGather(values: Vector, answers: seq<Option<Frame>>) returns (r: Option<Vector>)
      requires Valid() && |answers| == |ranked|
      modifies this`seqNo, this`pending, this`inbound
      ensures r.Some? <==>
                && RankOf(ranked, self).Some?
                && Gathers(ranked, RankOf(ranked, self).value, values, answers)
      ensures r.Some? ==> IsGathered(ranked, RankOf(ranked, self).value, values, answers, r.value)
      ensures RankOf(ranked, self).Some? ==>
                seqNo == old(seqNo) + 1 && pending == old(pending) - {seqNo} && inbound == old(inbound) - {seqNo}
      ensures RankOf(ranked, self).None? ==> seqNo == old(seqNo) && pending == old(pending) && inbound == old(inbound)
    {
      var mine := RankOf(ranked, self);
      if mine.None? {
        return None;
      }
      RanksAreBelow(members, ranked);
      seqNo := seqNo + 1;
      PublishLocal(seqNo, values);
      r := GatherLoop(values, answers, mine.value);
      ClearLocal(seqNo);
      PutAndRemoved(old(pending), seqNo, values);
      PutAndRemoved(old(inbound), seqNo, Mailbox([], |ranked|));
    }

    method GatherLoop(values: Vector, answers: seq<Option<Frame>>, rank: nat) returns (r: Option<Vector>)
      requires RanksBelow(ranked) && |answers| == |ranked| && rank < |answers|
      ensures r.Some? <==> Gathers(ranked, rank, values, answers)
      ensures r.Some? ==> IsGathered(ranked, rank, values, answers, r.value)
    {
      var parts := PlaceAll(values, answers, rank);
      if parts.None? {
        return None;
      }
      r := Join(parts.value);
      if r.Some? {
        FilledIsGathered(ranked, rank, values, answers, parts.value);
      } else {
        var i :| 0 <= i < |parts.value| && parts.value[i].None?;
        GapMeansNot(ranked, rank, values, answers, parts.value, i);
      }
    }

    method PlaceAll(values: Vector, answers: seq<Option<Frame>>, rank: nat) returns (r: Option<seq<Option<Vector>>>)
      requires RanksBelow(ranked) && |answers| == |ranked| && rank < |answers|
      ensures r.Some? <==> AllGot(ranked, rank, values, answers, |answers|)
      ensures r.Some? ==> |r.value| == |ranked| && Placed(r.value, Arrived(ranked, rank, values, answers, |answers|))
    {
      var parts := seq(|ranked|, _ => None)[rank := Some(values)];
      PlaceFirst(|ranked|, rank, values);
      for i := 0 to |answers|
        invariant |parts| == |ranked| && AllGot(ranked, rank, values, answers, i)
        invariant Placed(parts, Arrived(ranked, rank, values, answers, i))
      {
        if i == rank {
          GotMore(ranked, rank, values, answers, i);
          continue;
        }
        var got := Receive(values, answers, rank, i);
        if got.None? {
          return None;
        }
        PlaceNext(ranked, rank, values, answers, i, parts);
        parts := parts[got.value.0 := Some(got.value.1)];
      }
      r := Some(parts);
    }

    /** One receive of AllGather: a dialed peer's answer counts as the dialed member's. */
    method Receive(values: Vector, answers: seq<Option<Frame>>, rank: nat, i: nat) returns (r: Option<(nat, Vector)>)
      requires RanksBelow(ranked) && i < |answers| == |ranked| && i != rank
      ensures r == Got(ranked, rank, values, answers, i)
      ensures r.Some? ==> r.value.0 < |ranked|
    {
      if answers[i].None? {
        return None;
      }
      var frame := answers[i].value;
      if i < rank {
        frame := frame.(sender := Some(ranked[i].id));
      }
      if frame.sender.None? {
        return None;
      }
      var peer := RankOf(ranked, frame.sender.value);
      if peer.None? || |frame.values| != |values| {
        return None;
      }
      r := Some((peer.value, frame.values));
    }

    /** The parts one after the other, if all are there. */
    static method Join(parts: seq<Option<Vector>>) returns (r: Option<Vector>)
      ensures r.Some? <==> forall i :: 0 <= i < |parts| ==> parts[i].Some?
      ensures r.Some? ==> r.value == Concat(Filled(parts))
    {
      var out: Vector := [];
      for i := 0 to |parts|
        invariant forall j :: 0 <= j < i ==> parts[j].Some?
        invariant out == Concat(Filled(parts[..i]))
      {
        if parts[i].None? {
          return None;
        }
        assert Filled(parts[..i + 1]) == Filled(parts[..i]) + [parts[i].value];
        ConcatMore(Filled(parts[..i]), parts[i].value);
        out := out + parts[i].value;
      }
      assert parts[..|parts|] == parts;
      r := Some(out);
    }

    /** ReduceScatter: this rank's shard of what AllReduce returns. */
    method ReduceScatter(values: Vector, op: Op, answers: seq<Option<Vector>>) returns (r: Option<Vector>)
      requires Valid() && |answers| == |ranked|
      modifies this`seqNo, this`pending, this`inbound
      ensures var rank := RankOf(ranked, self);
              && (r.Some? <==>
                    && rank.Some? && |answers| > 0 && |values| % |answers| == 0
                    && AllAnswered(rank.value, |values|, answers))
              && (r.Some? ==>
                    && rank.value < |answers|
                    && exists all :: && IsReduced(op, rank.value, values, answers, all) && |all| == |values|
                                     && r.value == Shard(all, |answers|, rank.value))
    {
      var mine := RankOf(ranked, self);
      if mine.None? {
        return None;
      }
      RanksAreBelow(members, ranked);
      if |values| % |ranked| != 0 {
        return None;
      }
      var reduced := AllReduce(values, op, answers);
      if reduced.None? {
        return None;
      }
      r := Some(Shard(reduced.value, |ranked|, mine.value));
    }
  }
}
