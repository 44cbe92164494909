/** The attestation handshake: signed claims, and the run of one session. */
module Handshakes {
  import opened Wrappers
  import opened Symbols
  import opened Decimal
  import opened Wire

  // ------------------------------------------------------------------- claims

  const CLAIM_CONTEXT: Bytes := Str("enclaveiroh-attest/2")
  const ROLE_DIAL: Bytes := Str("dial")
  const ROLE_SERVE: Bytes := Str("serve")

  datatype Claim = Claim(
    context: Bytes, role: Bytes, localEndpoint: Bytes, remoteEndpoint: Bytes, alpn: Bytes, nonceSelf: Bytes,
    noncePeer: Bytes, cdHash: Bytes, teamId: Bytes, csFlags: word32, bundled: bool, ephemeralKey: bool,
    attestKey: Bytes, time: Bytes, claimVersion: nat)

  function FirstFields(c: Claim): seq<Bytes> {
    [c.context, c.role, c.localEndpoint, c.remoteEndpoint, c.alpn, c.nonceSelf, c.noncePeer, c.cdHash, c.teamId]
  }

  function LastFields(c: Claim): seq<Bytes> { [c.attestKey, c.time] }

  /** binary.BigEndian.AppendUint32 */
  function BigEndian32(n: word32): (r: Bytes)
    ensures |r| == 4
  {
    var a := n / 0x100;
    var b := a / 0x100;
    [Byte(b / 0x100), Byte(b % 0x100), Byte(a % 0x100), Byte(n % 0x100)]
  }

  function BoolByte(b: bool): Sym { if b then Byte(1) else Byte(0) }

  function SigningBytes(c: Claim): Bytes {
    Fields(FirstFields(c)) +
    (BigEndian32(c.csFlags) + [BoolByte(c.bundled), BoolByte(c.ephemeralKey)] +
     (Fields(LastFields(c)) + Uvarint(c.claimVersion)))
  }

  predicate Sizes(c: Claim) {
    AllSized(FirstFields(c)) && AllSized(LastFields(c)) && c.claimVersion <= UINT64_MAX
  }

  lemma BigEndian32Injective(m: word32, n: word32)
    requires BigEndian32(m) == BigEndian32(n)
    ensures m == n
  {
    var a, b := BigEndian32(m), BigEndian32(n);
    assert a[0] == b[0] && a[1] == b[1] && a[2] == b[2] && a[3] == b[3];
  }

  lemma FixedPartInjective(m: word32, a: Sym, b: Sym, r: Bytes, n: word32, c: Sym, d: Sym, s: Bytes)
    requires BigEndian32(m) + [a, b] + r == BigEndian32(n) + [c, d] + s
    ensures m == n && a == c && b == d && r == s
  {
    var x, y := BigEndian32(m) + [a, b] + r, BigEndian32(n) + [c, d] + s;
    assert x[..4] == BigEndian32(m) && y[..4] == BigEndian32(n);
    BigEndian32Injective(m, n);
    assert x[4] == a && y[4] == c && x[5] == b && y[5] == d;
    assert x[6..] == r && y[6..] == s;
  }

  lemma UvarintInjective(m: nat, n: nat)
    requires m <= UINT64_MAX && n <= UINT64_MAX && Uvarint(m) == Uvarint(n)
    ensures m == n
  {
    ReadUvarintWritten(m, []);
    ReadUvarintWritten(n, []);
    assert Uvarint(m) + [] == Uvarint(n) + [];
  }

  lemma FirstFieldsInjective(c: Claim, d: Claim)
    requires FirstFields(c) == FirstFields(d)
    ensures c.context == d.context && c.role == d.role && c.localEndpoint == d.localEndpoint
    ensures c.remoteEndpoint == d.remoteEndpoint && c.alpn == d.alpn && c.nonceSelf == d.nonceSelf
    ensures c.noncePeer == d.noncePeer && c.cdHash == d.cdHash && c.teamId == d.teamId
  {
    var a, b := FirstFields(c), FirstFields(d);
    assert a[0] == b[0] && a[1] == b[1] && a[2] == b[2] && a[3] == b[3] && a[4] == b[4];
    assert a[5] == b[5] && a[6] == b[6] && a[7] == b[7] && a[8] == b[8];
  }

  /** Different claims never sign the same bytes: no field can shift into another. */
  lemma SigningBytesInjective(c: Claim, d: Claim)
    requires Sizes(c) && Sizes(d) && SigningBytes(c) == SigningBytes(d)
    ensures c == d
  {
    var lastC := Fields(LastFields(c)) + Uvarint(c.claimVersion);
    var lastD := Fields(LastFields(d)) + Uvarint(d.claimVersion);
    FieldsInjective(
      FirstFields(c), FirstFields(d),
      BigEndian32(c.csFlags) + [BoolByte(c.bundled), BoolByte(c.ephemeralKey)] + lastC,
      BigEndian32(d.csFlags) + [BoolByte(d.bundled), BoolByte(d.ephemeralKey)] + lastD);
    FirstFieldsInjective(c, d);
    FixedPartInjective(
      c.csFlags, BoolByte(c.bundled), BoolByte(c.ephemeralKey), lastC,
      d.csFlags, BoolByte(d.bundled), BoolByte(d.ephemeralKey), lastD);
    FieldsInjective(LastFields(c), LastFields(d), Uvarint(c.claimVersion), Uvarint(d.claimVersion));
    assert LastFields(c)[0] == LastFields(d)[0] && LastFields(c)[1] == LastFields(d)[1];
    UvarintInjective(c.claimVersion, d.claimVersion);
  }

  /** The bytes that are signed, field by field, in the order of the wire. */
  lemma SigningLayout(c: Claim)
    ensures SigningBytes(c)
            == Field(c.context) + Field(c.role) + Field(c.localEndpoint) + Field(c.remoteEndpoint) + Field(c.alpn)
               + Field(c.nonceSelf) + Field(c.noncePeer) + Field(c.cdHash) + Field(c.teamId)
               + BigEndian32(c.csFlags) + [Byte(if c.bundled then 1 else 0), Byte(if c.ephemeralKey then 1 else 0)]
               + Field(c.attestKey) + Field(c.time) + Uvarint(c.claimVersion)
  {
    FieldsOfTwo(c.attestKey, c.time);
    FieldsOfNine(
      c.context, c.role, c.localEndpoint, c.remoteEndpoint, c.alpn, c.nonceSelf, c.noncePeer, c.cdHash, c.teamId);
  }

  lemma FieldsOfNine(
      a: Bytes, b: Bytes, c: Bytes, d: Bytes, e: Bytes, f: Bytes, g: Bytes, h: Bytes, i: Bytes)
    ensures Fields([a, b, c, d, e, f, g, h, i])
            == Field(a) + Field(b) + Field(c) + Field(d) + Field(e) + Field(f) + Field(g) + Field(h) + Field(i)
  {
    FieldsOfThree(a, b, c);
    FieldsOfThree(d, e, f);
    FieldsOfThree(g, h, i);
    FieldsConcat([d, e, f], [g, h, i]);
    FieldsConcat([a, b, c], [d, e, f] + [g, h, i]);
    assert [a, b, c] + ([d, e, f] + [g, h, i]) == [a, b, c, d, e, f, g, h, i];
  }

  // --------------------------------------------------------------- one session

  /** How nonces and keys are written as text.  Reading may accept other spellings too. */
  datatype Codec = Codec(
    encode64: Bytes -> Bytes, decode64: Bytes -> Option<Bytes>, printKey: Key -> Bytes, parseKey: Bytes -> Option<Key>)
  {
    ghost predicate Valid() {
      && (forall n :: decode64(encode64(n)) == Some(n))
      && (forall k: Key :: parseKey(printKey(k)) == Some(k))
    }
  }

  datatype Mode = Mutual | Prove | Verify {
    predicate Attests() { Mutual? || Prove? }
    predicate Verifies() { Mutual? || Verify? }
  }

  const HELLO_VERSION := 1
  const NONCE_SIZE := 32

  /** mode is None if it is no known mode. */
  datatype Hello = Hello(version: int, nonce: Bytes, mode: Option<Mode>)

  /** signature is None if it is not hex. */
  datatype WireClaim = WireClaim(claim: Claim, signature: Option<Sig>)

  /** A frame from the peer: what it decodes to as each of the two messages. */
  datatype Frame = Frame(hello: Option<Hello>, claim: Option<WireClaim>)

  /** Everything a run of the handshake is given; `signer` is None when there is none or it fails. */
  datatype Session = Session(
    dialer: bool, selfId: Bytes, peerId: Bytes, alpn: Bytes, mode: Mode, signer: Option<Key>, nonce: Bytes,
    cdHash: Bytes, teamId: Bytes, csFlags: word32, bundled: bool, ephemeralKey: bool, claimVersion: nat, time: Bytes,
    policy: Claim -> bool, allowUnattested: bool)
  {
    function Role(): Bytes { if dialer then ROLE_DIAL else ROLE_SERVE }
    function WantRole(): Bytes { if dialer then ROLE_SERVE else ROLE_DIAL }
  }

  /** Attested with the peer's claim, or explicitly not attested. */
  datatype Attestation = Attested(claim: Claim) | Unattested

  function BuildClaim(k: Codec, s: Session, key: Key, peerNonce: Bytes): Claim {
    Claim(CLAIM_CONTEXT, s.Role(), s.selfId, s.peerId, s.alpn, k.encode64(s.nonce), k.encode64(peerNonce), s.cdHash,
          s.teamId, s.csFlags, s.bundled, s.ephemeralKey, k.printKey(key), s.time, s.claimVersion)
  }

  /** nonceEqual */
  predicate NonceEqual(k: Codec, field: Bytes, want: Bytes) { k.decode64(field) == Some(want) }

  predicate VerifyClaimSignature(k: Codec, w: WireClaim) {
    var key := k.parseKey(w.claim.attestKey);
    key.Some? && w.signature == Some(Sig(key.value, SigningBytes(w.claim)))
  }

  predicate VerifyClaim(k: Codec, c: Claim, s: Session, peerNonce: Bytes) {
    && c.context == CLAIM_CONTEXT && c.role == s.WantRole()
    && c.localEndpoint == s.peerId && c.remoteEndpoint == s.selfId && c.alpn == s.alpn
    && NonceEqual(k, c.noncePeer, s.nonce) && NonceEqual(k, c.nonceSelf, peerNonce)
  }

  predicate VerifyPeerClaim(k: Codec, w: WireClaim, s: Session, peerNonce: Bytes) {
    VerifyClaimSignature(k, w) && VerifyClaim(k, w.claim, s, peerNonce) && s.policy(w.claim)
  }

  /** The peer's mode and nonce, from the first frame. */
  function PeerHello(k: Codec, frames: seq<Frame>): Option<(Mode, Bytes)> {
    if frames == [] || frames[0].hello.None? then None
    else
      var h := frames[0].hello.value;
      if h.version != HELLO_VERSION || h.mode.None? then None
      else
        match k.decode64(h.nonce)
        case None => None
        case Some(n) => if |n| != NONCE_SIZE then None else Some((h.mode.value, n))
  }

  /** How the receiving half of the second phase ends: with a transport error, a verdict against the peer, or for it. */
  datatype Verdict = Aborted | Rejected | Accepted(attestation: Option<Attestation>)

  function Judge(k: Codec, s: Session, peerMode: Mode, peerNonce: Bytes, frames: seq<Frame>): Verdict {
    if !s.mode.Verifies() then Accepted(None)
    else if !peerMode.Attests() then (if s.allowUnattested then Accepted(Some(Unattested)) else Rejected)
    else if |frames| < 2 || frames[1].claim.None? then Aborted
    else if VerifyPeerClaim(k, frames[1].claim.value, s, peerNonce) then
      Accepted(Some(Attested(frames[1].claim.value.claim)))
    else Rejected
  }

  datatype Outcome = Failed | Returned(attestation: Option<Attestation>)

  /** What the session returns when these are the frames it gets. */
  function Run(k: Codec, s: Session, frames: seq<Frame>): Outcome {
    if s.mode.Attests() && s.signer.None? then Failed
    else
      match PeerHello(k, frames)
      case None => Failed
      case Some((peerMode, peerNonce)) =>
        match Judge(k, s, peerMode, peerNonce, frames)
        case Accepted(a) => Returned(a)
        case _ => Failed
  }

  /** The claim the session has signed once it has read these frames: the dialer before it judges, the server after. */
  function Signed(k: Codec, s: Session, frames: seq<Frame>): Option<Claim> {
    if !s.mode.Attests() || s.signer.None? then None
    else
      match PeerHello(k, frames)
      case None => None
      case Some((peerMode, peerNonce)) =>
        if !s.dialer && Judge(k, s, peerMode, peerNonce, frames) == Aborted then None
        else Some(BuildClaim(k, s, s.signer.value, peerNonce))
  }

  /** The verdict the peer is told, if the run gets that far: whether its claim, or its having none, was accepted. */
  function Told(k: Codec, s: Session, frames: seq<Frame>): Option<bool> {
    if s.mode.Attests() && s.signer.None? then None
    else
      match PeerHello(k, frames)
      case None => None
      case Some((peerMode, peerNonce)) =>
        match Judge(k, s, peerMode, peerNonce, frames)
        case Aborted => None
        case Rejected => Some(false)
        case Accepted(_) => Some(true)
  }

  /** What a session writes. */
  datatype Message =
    | HelloMessage(nonce: Bytes, mode: Mode)
    | ClaimMessage(claim: Claim, signature: Sig)
    | ResultMessage(ok: bool)

  /** One handshake as it runs: the frames still to read, what was written, and the verdict so far. */
  class Handshake {
    const codec: Codec
    const session: Session
    var frames: seq<Frame>
    var written: seq<Message>
    var peerAtt: Option<Attestation>
    var verifyErr: bool

    constructor (codec: Codec, session: Session, frames: seq<Frame>)
      ensures this.codec == codec && this.session == session && this.frames == frames
      ensures written == [] && peerAtt == None && !verifyErr
    {
      this.codec, this.session, this.frames := codec, session, frames;
      written, peerAtt, verifyErr := [], None, false;
    }

    method ReadFrame() returns (f: Option<Frame>)
      modifies this`frames
      ensures old(frames) == [] ==> f == None && frames == []
      ensures old(frames) != [] ==> f == Some(old(frames)[0]) && frames == old(frames)[1..]
    {
      if frames == [] {
        return None;
      }
      f := Some(frames[0]);
      frames := frames[1..];
    }

    /** The first phase; the peer's mode and nonce. */
    method ExchangeHellos() returns (peer: Option<(Mode, Bytes)>)
      modifies this`frames, this`written
      ensures peer == PeerHello(codec, old(frames))
      ensures peer.Some? ==>
                frames == old(frames)[1..] && written == old(written) + [HelloMessage(session.nonce, session.mode)]
      ensures written == old(written) || written == old(written) + [HelloMessage(session.nonce, session.mode)]
      ensures session.dialer ==> written == old(written) + [HelloMessage(session.nonce, session.mode)]
    {
      if session.dialer {
        written := written + [HelloMessage(session.nonce, session.mode)];
      }
      var f := ReadFrame();
      if f.None? || f.value.hello.None? {
        return None;
      }
      var h := f.value.hello.value;
      if !session.dialer {
        written := written + [HelloMessage(session.nonce, session.mode)];
      }
      if h.version != HELLO_VERSION || h.mode.None? {
        return None;
      }
      var n := codec.decode64(h.nonce);
      if n.None? || |n.value| != NONCE_SIZE {
        return None;
      }
      peer := Some((h.mode.value, n.value));
    }

    /** The send half of the second phase. */
    method SendClaim(peerNonce: Bytes)
      requires session.mode.Attests() ==> session.signer.Some?
      modifies this`written
      ensures written == old(written) + ClaimOf(codec, session, peerNonce)
    {
      if !session.mode.Attests() {
        return;
      }
      var key := session.signer.value;
      var claim := BuildClaim(codec, session, key, peerNonce);
      written := written + [ClaimMessage(claim, Sig(key, SigningBytes(claim)))];
    }

    /** The receive half of the second phase: false on a transport error. */
    method ReceiveClaim(peerMode: Mode, peerNonce: Bytes, ghost all: seq<Frame>) returns (ok: bool)
      requires peerAtt == None && !verifyErr && all != [] && frames == all[1..]
      modifies this`frames, this`peerAtt, this`verifyErr
      ensures match Judge(codec, session, peerMode, peerNonce, all)
              case Aborted => !ok
              case Rejected => ok && verifyErr && peerAtt == None
              case Accepted(a) => ok && !verifyErr && peerAtt == a
    {
      if !session.mode.Verifies() {
        return true;
      }
      if !peerMode.Attests() {
        if !session.allowUnattested {
          verifyErr := true;
          return true;
        }
        peerAtt := Some(Unattested);
        return true;
      }
      var f := ReadFrame();
      if f.None? || f.value.claim.None? {
        return false;
      }
      verifyErr := !VerifyPeerClaim(codec, f.value.claim.value, session, peerNonce);
      if !verifyErr {
        peerAtt := Some(Attested(f.value.claim.value.claim));
      }
      ok := true;
    }

    /** runHandshake */
    method RunHandshake() returns (r: Outcome)
      requires written == [] && peerAtt == None && !verifyErr
      modifies this
      ensures r == Run(codec, session, old(frames))
      ensures forall c, g :: ClaimMessage(c, g) in written <==>
                && Signed(codec, session, old(frames)) == Some(c)
                && session.signer.Some? && g == Sig(session.signer.value, SigningBytes(c))
      ensures forall ok :: ResultMessage(ok) in written <==> Told(codec, session, old(frames)) == Some(ok)
      ensures forall n, m :: HelloMessage(n, m) in written ==> n == session.nonce && m == session.mode
      ensures session.dialer && !(session.mode.Attests() && session.signer.None?) ==>
                written != [] && written[0] == HelloMessage(session.nonce, session.mode)
    {
      ghost var all := frames;
      if session.mode.Attests() && session.signer.None? {
        return Failed;
      }
      var peer := ExchangeHellos();
      if peer.None? {
        return Failed;
      }
      var ok := true;
      if session.dialer {
        SendClaim(peer.value.1);
        ok := ReceiveClaim(peer.value.0, peer.value.1, all);
      } else {
        ok := ReceiveClaim(peer.value.0, peer.value.1, all);
        if ok {
          SendClaim(peer.value.1);
        }
      }
      if !ok {
        return Failed;
      }
      written := written + [ResultMessage(!verifyErr)];
      if verifyErr {
        return Failed;
      }
      r := Returned(peerAtt);
    }
  }

  function ClaimOf(k: Codec, s: Session, peerNonce: Bytes): seq<Message>
    requires s.mode.Attests() ==> s.signer.Some?
  {
    if !s.mode.Attests() then []
    else
      var c := BuildClaim(k, s, s.signer.value, peerNonce);
      [ClaimMessage(c, Sig(s.signer.value, SigningBytes(c)))]
  }
}
