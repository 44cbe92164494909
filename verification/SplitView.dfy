/** Clients and witnesses that share one log. */
module SplitView {
  // The network delivers any message to anyone at any time, with one restriction:
  // the signature of an honest witness key is in a message only if that witness
  // made it.  No two clients are ever shown diverging logs, provided that any two
  // quorums of witnesses have an honest witness in common.

  import opened Wrappers
  import opened Sets
  import opened Symbols
  import opened Merkle
  import opened Notes
  import opened Checkpoints
  import opened Policies
  import opened Clients
  import opened Witnesses

  /** The clients' common policy and, by key, the witnesses that follow the protocol. */
  datatype Setup = Setup(policy: Policy, honest: map<Key, Config>) {
    predicate Valid() {
      policy.Valid() && forall k :: k in honest ==> honest[k].signer.key == k && honest[k].origin == policy.origin
    }

    function Dishonest(): set<nat> {
      set i: nat | i < |policy.witnesses| && policy.witnesses[i].key !in honest
    }
  }

  /**
    Heads of honest witnesses by key and of clients by name, everything each
    honest witness has signed, and every checkpoint any client has accepted.
  */
  datatype System = System(
    witnesses: map<Key, Head>,
    clients: map<nat, Head>,
    signed: map<Key, seq<Signature>>,
    accepted: seq<Checkpoint>)

  datatype Step =
    | Cosign(k: Key, msg: Bytes, proof: Option<seq<Hash>>)
    | Update(client: nat, msg: Bytes, proof: Option<seq<Hash>>)
    | SetHead(client: nat, msg: Bytes)

  function Start(z: Setup): System {
    System(map k | k in z.honest :: NoHead, map[], map k | k in z.honest :: [], [])
  }

  predicate HasSigned(s: System, k: Key, text: Bytes) {
    k in s.signed && exists i :: 0 <= i < |s.signed[k]| && s.signed[k][i].text == text
  }

  /** The network cannot forge the signature of an honest witness. */
  ghost predicate Deliverable(z: Setup, s: System, msg: Bytes) {
    forall x :: x in msg && x.SigBlock? && x.sig.signer in z.honest ==> HasSigned(s, x.sig.signer, x.sig.text)
  }

  predicate Shaped(z: Setup, s: System) {
    s.witnesses.Keys == z.honest.Keys && s.signed.Keys == z.honest.Keys
  }

  predicate Enabled(z: Setup, step: Step) {
    step.Cosign? ==> step.k in z.honest
  }

  function ClientHead(s: System, c: nat): Head {
    if c in s.clients then s.clients[c] else NoHead
  }

  function ClientMoves(s: System, c: nat, o: Outcome): System {
    s.(clients := s.clients[c := o.head],
       accepted := if o.result.Ok? then s.accepted + [o.result.value] else s.accepted)
  }

  function WitnessMoves(s: System, k: Key, c: Cosigned): System
    requires k in s.signed
  {
    s.(witnesses := s.witnesses[k := c.head], signed := s.signed[k := s.signed[k] + Log(c)])
  }

  function Next(z: Setup, s: System, step: Step): System
    requires z.Valid() && Shaped(z, s) && Enabled(z, step)
  {
    match step
    case Cosign(k, msg, proof) => WitnessMoves(s, k, CosignSpec(z.honest[k], s.witnesses[k], msg, proof))
    case Update(c, msg, proof) => ClientMoves(s, c, UpdateSpec(z.policy, ClientHead(s, c), msg, proof))
    case SetHead(c, msg) => ClientMoves(s, c, SetHeadSpec(z.policy, ClientHead(s, c), msg))
  }

  /** The states a run goes through: each step is enabled and delivers what can be delivered. */
  ghost predicate IsRun(z: Setup, states: seq<System>, steps: seq<Step>) {
    && z.Valid()
    && |states| == |steps| + 1
    && states[0] == Start(z)
    && forall i :: 0 <= i < |steps| ==>
         && Shaped(z, states[i]) && Enabled(z, steps[i])
         && Deliverable(z, states[i], steps[i].msg)
         && states[i + 1] == Next(z, states[i], steps[i])
  }

  // ----------------------------------------------------------- the invariant

  /** Some text that says cp is signed by every honest witness among a quorum. */
  ghost predicate Backed(z: Setup, s: System, cp: Checkpoint) {
    exists text, quorum: set<nat> :: BackedBy(z, s, cp, text, quorum)
  }

  ghost predicate BackedBy(z: Setup, s: System, cp: Checkpoint, text: Bytes, quorum: set<nat>) {
    && ParseCheckpoint(text) == Some(cp)
    && |quorum| >= z.policy.k
    && forall i :: i in quorum ==>
         && i < |z.policy.witnesses|
         && (z.policy.witnesses[i].key in z.honest ==> HasSigned(s, z.policy.witnesses[i].key, text))
  }

  ghost predicate Means(signed: seq<Signature>) {
    forall i :: 0 <= i < |signed| ==> ParseCheckpoint(signed[i].text) == Some(signed[i].cp)
  }

  ghost predicate WitnessChain(signed: seq<Signature>, h: Head) {
    SignedChain(signed, h) && Means(signed)
  }

  ghost predicate ClientBacked(z: Setup, s: System, h: Head) {
    h.Head? ==> Backed(z, s, h.cp)
  }

  ghost predicate Inv(z: Setup, s: System) {
    && Shaped(z, s)
    && (forall k :: k in z.honest ==> WitnessChain(s.signed[k], s.witnesses[k]))
    && (forall c :: c in s.clients ==> ClientBacked(z, s, s.clients[c]))
    && (forall i :: 0 <= i < |s.accepted| ==> Backed(z, s, s.accepted[i]))
  }

  // ------------------------------------------------- acceptance means backing

  /** The witnesses of the policy whose key is in the set. */
  function Signers(ws: seq<Verifier>, ids: set<KeyId>): set<nat> {
    set i: nat | i < |ws| && ws[i].id in ids
  }

  lemma {:induction false} CountAppend(ws: seq<Verifier>, w: Verifier, ids: set<KeyId>)
    ensures Count(ws + [w], ids) == Count(ws, ids) + if w.id in ids then 1 else 0
  {
    if ws == [] {
      assert ws + [w] == [w];
    } else {
      CountAppend(ws[1..], w, ids);
      assert (ws + [w])[1..] == ws[1..] + [w];
    }
  }

  lemma {:induction false} CountIsCardinality(ws: seq<Verifier>, ids: set<KeyId>)
    ensures |Signers(ws, ids)| == Count(ws, ids)
    decreases |ws|
  {
    if ws == [] {
      assert Signers(ws, ids) == {};
    } else {
      var n := |ws| - 1;
      var init, last := ws[..n], ws[n];
      assert ws == init + [last];
      CountIsCardinality(init, ids);
      CountAppend(init, last, ids);
      assert Signers(ws, ids) == Signers(init, ids) + if last.id in ids then {n} else {};
    }
  }

  /** The first line of a known key verifies, so its symbol names that key and this text. */
  lemma CarriedIsSigned(p: Policy, msg: Bytes, v: Verifier)
    requires p.Valid() && OpensUncapped(msg, p.Verifiers()) && v in p.Verifiers() && v.id in CarriedIds(msg)
    ensures exists x :: x in msg && x.SigBlock? && x.sig == Sig(v.key, NoteParts(msg).value.0)
  {
    var (text, lines) := NoteParts(msg).value;
    OpenLinesExactly(text, lines, p.Verifiers());
    var l := FirstBy(lines, v.id).value;
    SignatureInMessage(msg, l);
  }

  lemma AcceptedIsBacked(z: Setup, s: System, msg: Bytes, cp: Checkpoint)
    requires z.Valid() && Deliverable(z, s, msg) && Accepts(z.policy, msg, cp)
    ensures Backed(z, s, cp)
  {
    var p := z.policy;
    var ids := CarriedIds(msg);
    var quorum := Signers(p.witnesses, ids);
    var text := NoteParts(msg).value.0;
    CountIsCardinality(p.witnesses, ids);
    forall i | i in quorum && p.witnesses[i].key in z.honest ensures HasSigned(s, p.witnesses[i].key, text) {
      assert p.witnesses[i] in p.Verifiers();
      CarriedIsSigned(p, msg, p.witnesses[i]);
    }
    assert BackedBy(z, s, cp, text, quorum);
  }

  // --------------------------------------------------------------- preservation

  ghost predicate Grows(z: Setup, s: System, s': System) {
    && Shaped(z, s) && Shaped(z, s')
    && forall k :: k in z.honest ==> s.signed[k] <= s'.signed[k]
  }

  lemma BackingLasts(z: Setup, s: System, s': System, cp: Checkpoint)
    requires Grows(z, s, s') && Backed(z, s, cp)
    ensures Backed(z, s', cp)
  {
    var text, quorum: set<nat> :| BackedBy(z, s, cp, text, quorum);
    forall i | i in quorum && z.policy.witnesses[i].key in z.honest
      ensures HasSigned(s', z.policy.witnesses[i].key, text)
    {
      var k := z.policy.witnesses[i].key;
      var j :| 0 <= j < |s.signed[k]| && s.signed[k][j].text == text;
      assert s'.signed[k][j].text == text;
    }
    assert BackedBy(z, s', cp, text, quorum);
  }

  lemma BackingLastsForAll(z: Setup, s: System, s': System)
    requires Inv(z, s) && Grows(z, s, s')
    ensures forall c :: c in s.clients ==> ClientBacked(z, s', s.clients[c])
    ensures forall i :: 0 <= i < |s.accepted| ==> Backed(z, s', s.accepted[i])
  {
    forall c | c in s.clients && s.clients[c].Head? ensures Backed(z, s', s.clients[c].cp) {
      assert ClientBacked(z, s, s.clients[c]);
      BackingLasts(z, s, s', s.clients[c].cp);
    }
    forall i | 0 <= i < |s.accepted| ensures Backed(z, s', s.accepted[i]) {
      BackingLasts(z, s, s', s.accepted[i]);
    }
  }

  lemma WitnessStepKeeps(z: Setup, s: System, k: Key, msg: Bytes, proof: Option<seq<Hash>>)
    requires z.Valid() && Inv(z, s) && k in z.honest
    ensures Inv(z, WitnessMoves(s, k, CosignSpec(z.honest[k], s.witnesses[k], msg, proof)))
  {
    var c := CosignSpec(z.honest[k], s.witnesses[k], msg, proof);
    CosignKeepsChain(z.honest[k], s.witnesses[k], msg, proof, s.signed[k]);
    CosignFacts(z.honest[k], s.witnesses[k], msg, proof);
    assert Means(s.signed[k] + Log(c));
    WitnessMoveKeeps(z, s, k, c);
  }

  lemma WitnessMoveKeeps(z: Setup, s: System, k: Key, c: Cosigned)
    requires Inv(z, s) && k in z.honest
    requires WitnessChain(s.signed[k] + Log(c), c.head)
    ensures Inv(z, WitnessMoves(s, k, c))
  {
    var s' := WitnessMoves(s, k, c);
    assert Grows(z, s, s');
    BackingLastsForAll(z, s, s');
  }

  lemma ClientMoveKeeps(z: Setup, s: System, c: nat, o: Outcome)
    requires Inv(z, s)
    requires ClientBacked(z, s, o.head) && (o.result.Ok? ==> Backed(z, s, o.result.value))
    ensures Inv(z, ClientMoves(s, c, o))
  {
    var s' := ClientMoves(s, c, o);
    assert Grows(z, s, s');
    BackingLastsForAll(z, s, s');
    if o.result.Ok? {
      BackingLasts(z, s, s', o.result.value);
    }
    if o.head.Head? {
      BackingLasts(z, s, s', o.head.cp);
    }
  }

  lemma ClientStepKeeps(z: Setup, s: System, c: nat, msg: Bytes, proof: Option<seq<Hash>>, o: Outcome)
    requires z.Valid() && Inv(z, s) && Deliverable(z, s, msg)
    requires || o == UpdateSpec(z.policy, ClientHead(s, c), msg, proof)
             || o == SetHeadSpec(z.policy, ClientHead(s, c), msg)
    ensures Inv(z, ClientMoves(s, c, o))
  {
    ClientOutcome(z.policy, ClientHead(s, c), msg, proof, o);
    if o.head.Head? && PolicyOpen(z.policy, msg) == Ok(o.head.cp) {
      PolicyOpenExactly(z.policy, msg, o.head.cp);
      AcceptedIsBacked(z, s, msg, o.head.cp);
    }
    assert ClientBacked(z, s, ClientHead(s, c));
    ClientMoveKeeps(z, s, c, o);
  }

  lemma NextKeeps(z: Setup, s: System, step: Step)
    requires z.Valid() && Inv(z, s) && Enabled(z, step) && Deliverable(z, s, step.msg)
    ensures Inv(z, Next(z, s, step))
  {
    match step
    case Cosign(k, msg, proof) => WitnessStepKeeps(z, s, k, msg, proof);
    case Update(c, msg, proof) =>
      ClientStepKeeps(z, s, c, msg, proof, UpdateSpec(z.policy, ClientHead(s, c), msg, proof));
    case SetHead(c, msg) =>
      ClientStepKeeps(z, s, c, msg, None, SetHeadSpec(z.policy, ClientHead(s, c), msg));
  }

  lemma {:induction false} RunKeeps(z: Setup, states: seq<System>, steps: seq<Step>, n: nat)
    requires IsRun(z, states, steps) && n <= |steps|
    ensures Inv(z, states[n])
  {
    if n > 0 {
      RunKeeps(z, states, steps, n - 1);
      NextKeeps(z, states[n - 1], steps[n - 1]);
    }
  }

  // ------------------------------------------------------------------- safety

  /** Two quorums that cannot avoid an honest witness have one in common. */
  lemma QuorumsMeet(n: nat, a: set<nat>, b: set<nat>, bad: set<nat>)
    requires forall i :: i in a + b ==> i < n
    requires |a| + |b| > n + |bad|
    ensures exists i :: i in a && i in b && i !in bad
  {
    SubsetSize(a + b, Upto(n));
    assert |a + b| == |a| + |b| - |a * b|;
    if a * b <= bad {
      SubsetSize(a * b, bad);
    }
    var i :| i in a * b && i !in bad;
  }

  function Upto(n: nat): (r: set<nat>)
    ensures |r| == n
    ensures forall i: nat :: i in r <==> i < n
  {
    if n == 0 then {} else Upto(n - 1) + {n - 1}
  }

  /** What one honest witness signed is comparable. */
  lemma SignedComparable(signed: seq<Signature>, h: Head, t: Bytes, u: Bytes, a: Checkpoint, b: Checkpoint)
    requires SignedChain(signed, h) && Means(signed)
    requires exists i :: 0 <= i < |signed| && signed[i].text == t
    requires exists i :: 0 <= i < |signed| && signed[i].text == u
    requires ParseCheckpoint(t) == Some(a) && ParseCheckpoint(u) == Some(b)
    ensures Comparable(a.tree, b.tree)
  {
    var i :| 0 <= i < |signed| && signed[i].text == t;
    var j :| 0 <= j < |signed| && signed[j].text == u;
    assert signed[i].cp == a && signed[j].cp == b;
    if i == j {
      PrefixReflexive(a.tree);
    }
  }

  lemma BackedComparable(z: Setup, s: System, a: Checkpoint, b: Checkpoint)
    requires Inv(z, s) && Backed(z, s, a) && Backed(z, s, b)
    requires 2 * z.policy.k > |z.policy.witnesses| + |z.Dishonest()|
    ensures Comparable(a.tree, b.tree)
  {
    var t, qa: set<nat> :| BackedBy(z, s, a, t, qa);
    var u, qb: set<nat> :| BackedBy(z, s, b, u, qb);
    QuorumsMeet(|z.policy.witnesses|, qa, qb, z.Dishonest());
    var i :| i in qa && i in qb && i !in z.Dishonest();
    var k := z.policy.witnesses[i].key;
    SignedComparable(s.signed[k], s.witnesses[k], t, u, a, b);
  }

  /**
    Split-view safety.  Let N witnesses be listed, k of them be required, f of
    the listed keys not belong to an honest witness, and 2k > N + f.  Then over
    every run, any two checkpoints ever accepted by any two clients are the same
    tree when their sizes are equal, and otherwise the smaller is a prefix of the larger.
  */
  lemma NoSplitView(z: Setup, states: seq<System>, steps: seq<Step>, i: nat, j: nat)
    requires IsRun(z, states, steps)
    requires 2 * z.policy.k > |z.policy.witnesses| + |z.Dishonest()|
    requires i < |states[|steps|].accepted| && j < |states[|steps|].accepted|
    ensures var a, b := states[|steps|].accepted[i].tree, states[|steps|].accepted[j].tree;
            && Comparable(a, b)
            && (a.n == b.n ==> a == b)
            && (forall x :: 0 <= x < a.n && x < b.n ==> LeafAt(a.hash, a.n, x) == LeafAt(b.hash, b.n, x))
  {
    var s := states[|steps|];
    RunKeeps(z, states, steps, |steps|);
    var a, b := s.accepted[i].tree, s.accepted[j].tree;
    BackedComparable(z, s, s.accepted[i], s.accepted[j]);
    forall x | 0 <= x < a.n && x < b.n ensures LeafAt(a.hash, a.n, x) == LeafAt(b.hash, b.n, x) {
      if Prefix(a, b) {
        PrefixKeepsLeaves(a, b, x);
      } else {
        PrefixKeepsLeaves(b, a, x);
      }
    }
  }
}
