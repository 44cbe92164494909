/** Any number of handshake sessions at once. */
module Agreements {
  // They interleave in any way, over a network that delivers whatever it likes
  // except signatures that nobody made.

  import opened Wrappers
  import opened Symbols
  import opened Decimal
  import opened Wire
  import opened Handshakes

  /** The sessions started so far, and the frames each has read. */
  datatype World = World(sessions: seq<Session>, inputs: seq<seq<Frame>>) {
    ghost predicate Index(i: int) { 0 <= i < |sessions| == |inputs| }
  }

  /** Some session has signed this text with this key. */
  ghost predicate Issued(k: Codec, w: World, key: Key, text: Bytes) {
    exists i :: w.Index(i) && Signs(k, w.sessions[i], w.inputs[i], key, text)
  }

  ghost predicate Signs(k: Codec, s: Session, frames: seq<Frame>, key: Key, text: Bytes) {
    Signed(k, s, frames).Some? && s.signer == Some(key) && SigningBytes(Signed(k, s, frames).value) == text
  }

  /** Strings on the wire have lengths that fit a length prefix. */
  ghost predicate SizedSession(k: Codec, s: Session) {
    && AllSized([s.selfId, s.peerId, s.alpn, s.cdHash, s.teamId, s.time]) && s.claimVersion <= UINT64_MAX
    && |s.nonce| == NONCE_SIZE
  }

  ghost predicate GoodCodec(k: Codec) {
    && k.Valid()
    && (forall n :: |n| == NONCE_SIZE ==> |k.encode64(n)| <= INT64_MAX)
    && (forall key: Key :: |k.printKey(key)| <= INT64_MAX)
  }

  /** A frame that may arrive: a signature in it by an honest key was made by a session holding that key. */
  ghost predicate Deliverable(k: Codec, honest: set<Key>, w: World, f: Frame) {
    f.claim.Some? ==>
      && Sizes(f.claim.value.claim)
      && (f.claim.value.signature.Some? && f.claim.value.signature.value.signer in honest ==>
            Issued(k, w, f.claim.value.signature.value.signer, f.claim.value.signature.value.text))
  }

  /** One step: a session starts with a nonce of its own, or a session reads a frame. */
  ghost predicate Next(k: Codec, honest: set<Key>, w: World, w': World) {
    || (exists s :: Starts(k, w, w', s))
    || (exists i, f :: Reads(k, honest, w, w', i, f))
  }

  ghost predicate Starts(k: Codec, w: World, w': World, s: Session) {
    && SizedSession(k, s) && (forall t :: t in w.sessions ==> t.nonce != s.nonce)
    && w' == World(w.sessions + [s], w.inputs + [[]])
  }

  ghost predicate Reads(k: Codec, honest: set<Key>, w: World, w': World, i: int, f: Frame) {
    w.Index(i) && Deliverable(k, honest, w, f) && w' == World(w.sessions, w.inputs[i := w.inputs[i] + [f]])
  }

  ghost predicate Run(k: Codec, honest: set<Key>, ws: seq<World>) {
    && ws != [] && ws[0] == World([], [])
    && forall i :: 0 <= i < |ws| - 1 ==> Next(k, honest, ws[i], ws[i + 1])
  }

  // ----------------------------------------------------------------- invariant

  ghost predicate Inv(k: Codec, honest: set<Key>, w: World) {
    && |w.sessions| == |w.inputs|
    && (forall s :: s in w.sessions ==> SizedSession(k, s))
    && (forall i, j :: 0 <= i < j < |w.sessions| ==> w.sessions[i].nonce != w.sessions[j].nonce)
    && (forall i :: w.Index(i) ==> forall f :: f in w.inputs[i] ==> Deliverable(k, honest, w, f))
  }

  /** What a session has signed, it has signed whatever comes next. */
  lemma SignedStays(k: Codec, s: Session, frames: seq<Frame>, f: Frame)
    requires Signed(k, s, frames).Some?
    ensures Signed(k, s, frames + [f]) == Signed(k, s, frames)
  {
    assert (frames + [f])[0] == frames[0];
    assert |frames| >= 2 ==> (frames + [f])[1] == frames[1];
  }

  lemma SignsStays(k: Codec, honest: set<Key>, w: World, w': World, i: int, key: Key, text: Bytes)
    requires Next(k, honest, w, w') && w.Index(i) && Signs(k, w.sessions[i], w.inputs[i], key, text)
    ensures w'.Index(i) && Signs(k, w'.sessions[i], w'.inputs[i], key, text)
  {
    if s :| Starts(k, w, w', s) {
      assert w'.sessions[i] == w.sessions[i] && w'.inputs[i] == w.inputs[i];
    } else {
      var j, f :| Reads(k, honest, w, w', j, f);
      SignedStays(k, w.sessions[i], w.inputs[i], f);
      assert w'.inputs[i] == if i == j then w.inputs[i] + [f] else w.inputs[i];
    }
  }

  lemma IssuedStays(k: Codec, honest: set<Key>, w: World, w': World, key: Key, text: Bytes)
    requires Next(k, honest, w, w') && Issued(k, w, key, text)
    ensures Issued(k, w', key, text)
  {
    var i :| w.Index(i) && Signs(k, w.sessions[i], w.inputs[i], key, text);
    SignsStays(k, honest, w, w', i, key, text);
  }

  lemma DeliverableStays(k: Codec, honest: set<Key>, w: World, w': World, f: Frame)
    requires Next(k, honest, w, w') && |w.sessions| == |w.inputs| && Deliverable(k, honest, w, f)
    ensures Deliverable(k, honest, w', f)
  {
    if f.claim.Some? && f.claim.value.signature.Some? && f.claim.value.signature.value.signer in honest {
      IssuedStays(k, honest, w, w', f.claim.value.signature.value.signer, f.claim.value.signature.value.text);
    }
  }

  lemma NextKeepsInv(k: Codec, honest: set<Key>, w: World, w': World)
    requires Inv(k, honest, w) && Next(k, honest, w, w')
    ensures Inv(k, honest, w')
  {
    forall i | w'.Index(i)
      ensures forall f :: f in w'.inputs[i] ==> Deliverable(k, honest, w', f)
    {
      forall f | f in w'.inputs[i] ensures Deliverable(k, honest, w', f) {
        assert Deliverable(k, honest, w, f) by {
          if s :| Starts(k, w, w', s) {
            assert i < |w.inputs| ==> w.Index(i) && w'.inputs[i] == w.inputs[i];
          } else {
            var j, g :| Reads(k, honest, w, w', j, g);
            assert w.Index(i) && (f in w.inputs[i] || f == g);
          }
        }
        DeliverableStays(k, honest, w, w', f);
      }
    }
    if s :| Starts(k, w, w', s) {
      assert forall i :: 0 <= i < |w.sessions| ==> w.sessions[i] in w.sessions;
    }
  }

  lemma {:induction false} RunKeepsInv(k: Codec, honest: set<Key>, ws: seq<World>, n: nat)
    requires Run(k, honest, ws) && n < |ws|
    ensures Inv(k, honest, ws[n])
  {
    if n > 0 {
      RunKeepsInv(k, honest, ws, n - 1);
      assert Next(k, honest, ws[n - 1], ws[(n - 1) + 1]);
      NextKeepsInv(k, honest, ws[n - 1], ws[n]);
    }
  }

  // ----------------------------------------------------------------- agreement

  /**
    Session j signed the claim that session i accepted: the other role, the same
    protocol, both endpoints mirrored, and the same two nonces.
  */
  ghost predicate Partners(k: Codec, w: World, i: int, j: int, key: Key, c: Claim) {
    && w.Index(i) && w.Index(j)
    && (var a, b := w.sessions[i], w.sessions[j];
        var helloA, helloB := PeerHello(k, w.inputs[i]), PeerHello(k, w.inputs[j]);
        && b.signer == Some(key) && b.mode.Attests() && Signed(k, b, w.inputs[j]) == Some(c)
        && b.dialer != a.dialer && b.alpn == a.alpn
        && b.selfId == a.peerId && b.peerId == a.selfId
        && helloA.Some? && helloA.value.1 == b.nonce
        && helloB.Some? && helloB.value.1 == a.nonce
        && OwnClaim(c, b))
  }

  /** Every field of the claim is the session's own: what runs there, under which role and with which peer. */
  ghost predicate OwnClaim(c: Claim, s: Session) {
    && c.context == Str("enclaveiroh-attest/2") && c.role == Str(if s.dialer then "dial" else "serve")
    && c.localEndpoint == s.selfId && c.remoteEndpoint == s.peerId && c.alpn == s.alpn
    && c.cdHash == s.cdHash && c.teamId == s.teamId && c.csFlags == s.csFlags && c.bundled == s.bundled
    && c.ephemeralKey == s.ephemeralKey && c.time == s.time && c.claimVersion == s.claimVersion
  }

  lemma RolesDiffer()
    ensures ROLE_DIAL != ROLE_SERVE
  {
    assert |ROLE_DIAL| != |ROLE_SERVE|;
  }

  lemma BuiltClaimSizes(k: Codec, s: Session, key: Key, peerNonce: Bytes)
    requires GoodCodec(k) && SizedSession(k, s) && |peerNonce| == NONCE_SIZE
    ensures Sizes(BuildClaim(k, s, key, peerNonce))
  {
    var all := [s.selfId, s.peerId, s.alpn, s.cdHash, s.teamId, s.time];
    assert s.selfId == all[0] && s.peerId == all[1] && s.alpn == all[2] && s.cdHash == all[3] && s.teamId == all[4];
    assert s.time == all[5];
  }

  /** What it means that a claim was accepted by session a and was made by session b. */
  lemma AcceptedAndBuilt(k: Codec, a: Session, b: Session, key: Key, nonceFromB: Bytes, nonceFromA: Bytes)
    requires GoodCodec(k) && VerifyClaim(k, BuildClaim(k, b, key, nonceFromA), a, nonceFromB)
    ensures b.dialer != a.dialer && b.alpn == a.alpn && b.selfId == a.peerId && b.peerId == a.selfId
    ensures nonceFromB == b.nonce && nonceFromA == a.nonce
  {
    RolesDiffer();
    assert k.decode64(k.encode64(nonceFromA)) == Some(nonceFromA);
    assert k.decode64(k.encode64(b.nonce)) == Some(b.nonce);
  }

  /**
    Agreement: if a session returns Attested and the claim's key is one that only
    honest sessions hold, then one of them, and only one, is its partner; and no
    other session takes that same one for its partner.  All that the claim says is
    what that partner was given to say.
  */
  lemma Agreement(k: Codec, honest: set<Key>, ws: seq<World>, n: nat, i: nat, key: Key, c: Claim)
    requires GoodCodec(k) && Run(k, honest, ws) && n < |ws| && ws[n].Index(i)
    requires Handshakes.Run(k, ws[n].sessions[i], ws[n].inputs[i]) == Returned(Some(Attested(c)))
    requires k.parseKey(c.attestKey) == Some(key) && key in honest
    ensures exists j :: Partners(k, ws[n], i, j, key, c)
    ensures forall j, j' :: Partners(k, ws[n], i, j, key, c) && Partners(k, ws[n], i, j', key, c) ==> j == j'
    ensures forall i', j, d :: Partners(k, ws[n], i, j, key, c) && Partners(k, ws[n], i', j, key, d) ==> i' == i
  {
    var w := ws[n];
    RunKeepsInv(k, honest, ws, n);
    var a, frames := w.sessions[i], w.inputs[i];
    var wire := frames[1].claim.value;
    assert frames[1] in frames && Deliverable(k, honest, w, frames[1]);
    assert wire.signature == Some(Sig(key, SigningBytes(c)));
    var j :| w.Index(j) && Signs(k, w.sessions[j], w.inputs[j], key, SigningBytes(c));
    PartnerOf(k, honest, w, i, j, key, c);
  }

  lemma PartnerOf(k: Codec, honest: set<Key>, w: World, i: int, j: int, key: Key, c: Claim)
    requires GoodCodec(k) && Inv(k, honest, w) && w.Index(i) && w.Index(j) && Sizes(c)
    requires Handshakes.Run(k, w.sessions[i], w.inputs[i]) == Returned(Some(Attested(c)))
    requires Signs(k, w.sessions[j], w.inputs[j], key, SigningBytes(c))
    ensures Partners(k, w, i, j, key, c)
  {
    var a, b := w.sessions[i], w.sessions[j];
    var nonceFromB, nonceFromA := PeerHello(k, w.inputs[i]).value.1, PeerHello(k, w.inputs[j]).value.1;
    assert b in w.sessions;
    BuiltClaimSizes(k, b, key, nonceFromA);
    SigningBytesInjective(c, BuildClaim(k, b, key, nonceFromA));
    AcceptedAndBuilt(k, a, b, key, nonceFromB, nonceFromA);
  }

  /** What a session's return value says about its mode, its policy and the peer's frames. */
  lemma ReturnedMeans(k: Codec, s: Session, frames: seq<Frame>, r: Option<Attestation>)
    requires Handshakes.Run(k, s, frames) == Returned(r)
    ensures r == None <==> s.mode == Prove
    ensures r == Some(Unattested) <==> s.mode.Verifies() && PeerHello(k, frames).value.0 == Verify
    ensures r == Some(Unattested) ==> s.allowUnattested
    ensures r.Some? && r.value.Attested? ==> s.policy(r.value.claim)
    ensures s.mode == Prove ==> Handshakes.Run(k, s, frames[..1]) == Returned(None)
    ensures frames != [] && frames[0].hello.Some? && frames[0].hello.value.version == 1
    ensures var n := k.decode64(frames[0].hello.value.nonce); n.Some? && |n.value| == 32
  {
    assert frames[..1][0] == frames[0];
  }

  // --------------------------------------------------- two sessions face to face

  /** The two ends of one connection: the other role, mirrored endpoints, one protocol. */
  ghost predicate FaceToFace(a: Session, b: Session) {
    && a.dialer != b.dialer && a.selfId == b.peerId && a.peerId == b.selfId && a.alpn == b.alpn
    && |a.nonce| == 32 && |b.nonce| == 32
    && (a.mode != Verify ==> a.signer.Some?) && (b.mode != Verify ==> b.signer.Some?)
  }

  function HelloOf(k: Codec, s: Session): Frame {
    Frame(Some(Hello(1, k.encode64(s.nonce), Some(s.mode))), None)
  }

  function ClaimFrameOf(c: Claim, key: Key): Frame {
    Frame(None, Some(WireClaim(c, Some(Sig(key, SigningBytes(c))))))
  }

  /** A claim of this session's own with both nonces and its key in it. */
  ghost predicate FullClaim(k: Codec, c: Claim, s: Session, peerNonce: Bytes) {
    && OwnClaim(c, s) && s.signer.Some? && c.attestKey == k.printKey(s.signer.value)
    && c.nonceSelf == k.encode64(s.nonce) && c.noncePeer == k.encode64(peerNonce)
  }

  /**
    An honest peer is believed: given its hello and, if it attests, its full claim
    with its signature, a session returns that claim if its policy accepts it, an
    explicitly unattested result for a peer that only verifies if that is allowed,
    and nothing about the peer in prove mode; otherwise it fails.
  */
  lemma HonestPeer(k: Codec, a: Session, b: Session, c: Claim)
    requires k.Valid() && FaceToFace(a, b) && (b.mode != Verify ==> FullClaim(k, c, b, a.nonce))
    ensures var frames := [HelloOf(k, b)] + (if b.mode == Verify then [] else [ClaimFrameOf(c, b.signer.value)]);
            Handshakes.Run(k, a, frames)
            == if a.mode == Prove then Returned(None)
               else if b.mode == Verify then (if a.allowUnattested then Returned(Some(Unattested)) else Failed)
               else if a.policy(c) then Returned(Some(Attested(c))) else Failed
  {
    var frames := [HelloOf(k, b)] + (if b.mode == Verify then [] else [ClaimFrameOf(c, b.signer.value)]);
    assert frames[0] == HelloOf(k, b);
    assert k.decode64(k.encode64(b.nonce)) == Some(b.nonce) && k.decode64(k.encode64(a.nonce)) == Some(a.nonce);
    if b.mode != Verify {
      assert frames[1] == ClaimFrameOf(c, b.signer.value);
      assert k.parseKey(k.printKey(b.signer.value)) == Some(b.signer.value);
    }
  }

  /**
    And such a claim is what an attesting session signs once it has read its peer's
    hello; the server only after the peer's claim, if there is one to wait for.
  */
  lemma SignsFullClaim(k: Codec, a: Session, b: Session, frames: seq<Frame>)
    requires k.Valid() && FaceToFace(a, b) && b.mode != Verify && frames != [] && frames[0] == HelloOf(k, a)
    ensures Signed(k, b, frames).Some? <==>
              b.dialer || b.mode == Prove || a.mode == Verify || (|frames| >= 2 && frames[1].claim.Some?)
    ensures Signed(k, b, frames).Some? ==> FullClaim(k, Signed(k, b, frames).value, b, a.nonce)
  {
    assert k.decode64(k.encode64(a.nonce)) == Some(a.nonce);
  }
}
