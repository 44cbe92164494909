/** The payment ledger: balances, spent nonces, and signed authorizations. */
module Ledgers {
  import opened Wrappers
  import opened Symbols
  import opened Decimal
  import opened Wire

  const WORD: nat := 0x1_0000_0000_0000_0000

  type word64 = n: nat | n < WORD

  const SCHEME: Bytes := Str("exact")
  const NETWORK: Bytes := Str("iroh:ed25519")
  const SIGNING_DOMAIN: Bytes := Str("x402/iroh/exact/1")

  datatype Authorization = Authorization(
    payer: Bytes, payee: Bytes, value: Bytes, validAfter: Bytes, validBefore: Bytes, nonce: Bytes)

  function AuthFields(network: Bytes, a: Authorization): seq<Bytes> {
    [SIGNING_DOMAIN, network, a.payer, a.payee, a.value, a.validAfter, a.validBefore, a.nonce]
  }

  function SigningMessage(network: Bytes, a: Authorization): Bytes {
    Fields(AuthFields(network, a))
  }

  /** A signing message stands for one network and one authorization only. */
  lemma SigningMessageInjective(m: Bytes, a: Authorization, n: Bytes, b: Authorization)
    requires AllSized(AuthFields(m, a)) && AllSized(AuthFields(n, b))
    requires SigningMessage(m, a) == SigningMessage(n, b)
    ensures m == n && a == b
  {
    var fs, gs := AuthFields(m, a), AuthFields(n, b);
    FieldsInjective(fs, gs, [], []);
    assert fs[1] == gs[1] && fs[2] == gs[2] && fs[3] == gs[3] && fs[4] == gs[4];
    assert fs[5] == gs[5] && fs[6] == gs[6] && fs[7] == gs[7];
  }

  /** The bytes that are signed, field by field, in the order of the wire. */
  lemma SigningLayout(network: Bytes, a: Authorization)
    ensures SigningMessage(network, a)
            == Field(Str("x402/iroh/exact/1")) + Field(network) + Field(a.payer) + Field(a.payee) + Field(a.value)
               + Field(a.validAfter) + Field(a.validBefore) + Field(a.nonce)
  {
    var x, y, z := [SIGNING_DOMAIN, network, a.payer], [a.payee, a.value, a.validAfter], [a.validBefore, a.nonce];
    FieldsOfThree(SIGNING_DOMAIN, network, a.payer);
    FieldsOfThree(a.payee, a.value, a.validAfter);
    FieldsOfTwo(a.validBefore, a.nonce);
    FieldsConcat(y, z);
    FieldsConcat(x, y + z);
    assert x + (y + z) == AuthFields(network, a);
  }

  /** The payload's signature is None when it is not the hex of 64 bytes. */
  datatype Exact = Exact(signature: Option<Sig>, auth: Authorization)

  datatype Payload = Payload(version: nat, exact: Option<Exact>)

  datatype Requirements = Requirements(scheme: Bytes, network: Bytes, payTo: Bytes, amount: Bytes)

  datatype Reason =
    | InvalidVersion | UnsupportedScheme | InvalidNetwork | InvalidPayload | InvalidRequirements | InsufficientFunds

  datatype Checked = Checked(auth: Authorization, payer: Key, payee: Key, value: word64)

  /** The faucet, the longest validity in nanoseconds, the protocol version, and how endpoint ids parse. */
  datatype Config = Config(faucet: word64, maxValidity: int, version: nat, parseId: Bytes -> Option<Key>)

  const DEFAULT_MAX_VALIDITY := 300 * SECOND
  const SECOND := 1_000_000_000

  function SignAuthorization(k: Key, network: Bytes, a: Authorization): Sig {
    Sig(k, SigningMessage(network, a))
  }

  function VerifyAuthorization(cfg: Config, network: Bytes, p: Exact): Option<Key> {
    match (cfg.parseId(p.auth.payer), p.signature)
    case (Some(k), Some(sig)) => if sig == Sig(k, SigningMessage(network, p.auth)) then Some(k) else None
    case _ => None
  }

  // ---------------------------------------------------------------- the clock

  /** Seconds between year 1 and 1970: what time.Unix adds to an int64. */
  const UNIX_TO_INTERNAL := 62_135_596_800

  function WrapInt64(n: int): int {
    (n + 0x8000_0000_0000_0000) % WORD - 0x8000_0000_0000_0000
  }

  /** time.Unix(validBefore, 0).After(now + maxValidity), in nanoseconds since 1970. */
  predicate TooLong(validBefore: int, now: int, maxValidity: int) {
    (WrapInt64(validBefore + UNIX_TO_INTERNAL) - UNIX_TO_INTERNAL) * SECOND > now + maxValidity
  }

  /**
    The validity window is bounded, unless the end of it is so late that the
    addition inside time.Unix wraps around; then it passes as long past.
  */
  lemma TooLongExactly(validBefore: int, now: int, maxValidity: int)
    requires -INT64_MAX - 1 <= validBefore <= INT64_MAX && 0 <= now + maxValidity
    ensures TooLong(validBefore, now, maxValidity) <==>
              validBefore * SECOND > now + maxValidity && validBefore <= INT64_MAX - UNIX_TO_INTERNAL
  {
    if validBefore > INT64_MAX - UNIX_TO_INTERNAL {
      assert WrapInt64(validBefore + UNIX_TO_INTERNAL) == validBefore + UNIX_TO_INTERNAL - WORD;
    } else {
      assert WrapInt64(validBefore + UNIX_TO_INTERNAL) == validBefore + UNIX_TO_INTERNAL;
    }
  }

  // ----------------------------------------------------------------- checking

  predicate HexDigit(s: Sym) {
    s.Byte? && (48 <= s.b <= 57 || 65 <= s.b <= 70 || 97 <= s.b <= 102)
  }

  /** 32 bytes in hex, with or without a leading 0x. */
  predicate GoodNonce(nonce: Bytes) {
    var digits := if Str("0x") <= nonce then nonce[2..] else nonce;
    |digits| == 64 && forall d :: d in digits ==> HexDigit(d)
  }

  /** check, up to the payer's balance. */
  function PreCheck(
    cfg: Config, spent: set<Bytes>, now: int, payload: Payload, reqs: Requirements): Result<Checked, Reason>
  {
    if payload.version != cfg.version then Err(InvalidVersion)
    else if reqs.scheme != SCHEME then Err(UnsupportedScheme)
    else if reqs.network != NETWORK then Err(InvalidNetwork)
    else if payload.exact.None? then Err(InvalidPayload)
    else
      var auth := payload.exact.value.auth;
      if cfg.parseId(reqs.payTo).None? then Err(InvalidRequirements)
      else if cfg.parseId(auth.payee) != cfg.parseId(reqs.payTo) then Err(InvalidPayload)
      else if ParseUint(auth.value).None? || ParseUint(reqs.amount) != ParseUint(auth.value) then Err(InvalidPayload)
      else if ParseInt(auth.validAfter).None? || ParseInt(auth.validBefore).None? then Err(InvalidPayload)
      else if now / SECOND < ParseInt(auth.validAfter).value then Err(InvalidPayload)
      else if now / SECOND > ParseInt(auth.validBefore).value then Err(InvalidPayload)
      else if TooLong(ParseInt(auth.validBefore).value, now,
                      if cfg.maxValidity == 0 then DEFAULT_MAX_VALIDITY else cfg.maxValidity)
      then Err(InvalidPayload)
      else if !GoodNonce(auth.nonce) || auth.nonce in spent then Err(InvalidPayload)
      else
        match VerifyAuthorization(cfg, reqs.network, payload.exact.value)
        case None => Err(InvalidPayload)
        case Some(k) => Ok(Checked(auth, k, cfg.parseId(auth.payee).value, ParseUint(auth.value).value))
  }

  // ------------------------------------------------------------- what is due

  /** When this authorization may be settled: its window is open, and does not reach too far. */
  ghost predicate InWindow(cfg: Config, auth: Authorization, now: int) {
    exists after, before ::
      && ParseInt(auth.validAfter) == Some(after) && ParseInt(auth.validBefore) == Some(before)
      && after * SECOND <= now < (before + 1) * SECOND
      && !TooLong(before, now, if cfg.maxValidity == 0 then 300_000_000_000 else cfg.maxValidity)
  }

  /** The payment asked for, by the requirements' own recipient and amount, in the payer's own authorization. */
  ghost predicate Due(cfg: Config, now: int, p: Payload, reqs: Requirements, c: Checked) {
    && p.version == cfg.version && reqs.scheme == Str("exact") && reqs.network == Str("iroh:ed25519")
    && p.exact.Some? && p.exact.value.auth == c.auth
    && cfg.parseId(reqs.payTo) == Some(c.payee) && cfg.parseId(c.auth.payee) == Some(c.payee)
    && ParseUint(reqs.amount) == Some(c.value) && ParseUint(c.auth.value) == Some(c.value)
    && InWindow(cfg, c.auth, now) && GoodNonce(c.auth.nonce)
    && cfg.parseId(c.auth.payer) == Some(c.payer)
    && p.exact.value.signature == Some(SignAuthorization(c.payer, reqs.network, c.auth))
  }

  /** The checks before the balance pass exactly for a payment that is due and whose nonce is not spent. */
  lemma DueExactly(cfg: Config, spent: set<Bytes>, now: int, p: Payload, reqs: Requirements, c: Checked)
    ensures PreCheck(cfg, spent, now, p, reqs) == Ok(c) <==> Due(cfg, now, p, reqs, c) && c.auth.nonce !in spent
  {
    if p.exact.Some? {
      WindowExactly(cfg, p.exact.value.auth, now);
    }
  }

  lemma WindowExactly(cfg: Config, auth: Authorization, now: int)
    ensures InWindow(cfg, auth, now) <==>
              && ParseInt(auth.validAfter).Some? && ParseInt(auth.validBefore).Some?
              && ParseInt(auth.validAfter).value <= now / SECOND <= ParseInt(auth.validBefore).value
              && !TooLong(ParseInt(auth.validBefore).value, now,
                          if cfg.maxValidity == 0 then DEFAULT_MAX_VALIDITY else cfg.maxValidity)
  {
    if ParseInt(auth.validAfter).Some? && ParseInt(auth.validBefore).Some? {
      SecondsExactly(ParseInt(auth.validAfter).value, now, ParseInt(auth.validBefore).value);
    }
  }

  lemma SecondsExactly(after: int, now: int, before: int)
    ensures after <= now / SECOND <= before <==> after * SECOND <= now < (before + 1) * SECOND
  {
  }

  /** Which reason is given, in the order of the checks. */
  lemma ReasonsExactly(cfg: Config, spent: set<Bytes>, now: int, p: Payload, reqs: Requirements)
    ensures var r := PreCheck(cfg, spent, now, p, reqs);
            && (r == Err(InvalidVersion) <==> p.version != cfg.version)
            && (r == Err(UnsupportedScheme) <==> p.version == cfg.version && reqs.scheme != Str("exact"))
            && (r == Err(InvalidNetwork) <==>
                  p.version == cfg.version && reqs.scheme == Str("exact") && reqs.network != Str("iroh:ed25519"))
            && (r == Err(InvalidRequirements) <==>
                  && p.version == cfg.version && reqs.scheme == Str("exact") && reqs.network == Str("iroh:ed25519")
                  && p.exact.Some? && cfg.parseId(reqs.payTo).None?)
            && r != Err(InsufficientFunds)
  {
  }

  // -------------------------------------------------------------- conservation

  type Balances = map<Key, word64>

  ghost function Pick(ks: set<Key>): (k: Key)
    requires ks != {}
    ensures k in ks
  {
    var k :| k in ks;
    k
  }

  /** The balances of these accounts together. */
  ghost function SumOver(m: Balances, ks: set<Key>): nat
    requires ks <= m.Keys
    decreases |ks|
  {
    if ks == {} then 0 else m[Pick(ks)] + SumOver(m, ks - {Pick(ks)})
  }

  ghost function Sum(m: Balances): nat { SumOver(m, m.Keys) }

  lemma {:induction false} SumTake(m: Balances, ks: set<Key>, k: Key)
    requires ks <= m.Keys && k in ks
    ensures SumOver(m, ks) == m[k] + SumOver(m, ks - {k})
    decreases |ks|
  {
    var j := Pick(ks);
    if j != k {
      SumTake(m, ks - {j}, k);
      SumTake(m, ks - {k}, j);
      assert ks - {j} - {k} == ks - {k} - {j};
    }
  }

  lemma {:induction false} SumFrame(m: Balances, u: Balances, ks: set<Key>)
    requires ks <= m.Keys && ks <= u.Keys && forall k :: k in ks ==> m[k] == u[k]
    ensures SumOver(m, ks) == SumOver(u, ks)
    decreases |ks|
  {
    if ks != {} {
      SumFrame(m, u, ks - {Pick(ks)});
    }
  }

  lemma SumUpdate(m: Balances, k: Key, v: word64)
    ensures k in m ==> Sum(m[k := v]) == Sum(m) - m[k] + v && |m[k := v]| == |m|
    ensures k !in m ==> Sum(m[k := v]) == Sum(m) + v && |m[k := v]| == |m| + 1
  {
    var u, others := m[k := v], m.Keys - {k};
    assert u.Keys == m.Keys + {k} && u.Keys - {k} == others;
    assert |u| == |u.Keys| && |m| == |m.Keys|;
    SumTake(u, u.Keys, k);
    SumFrame(m, u, others);
    if k in m {
      SumTake(m, m.Keys, k);
      assert u.Keys == m.Keys;
    } else {
      assert others == m.Keys;
    }
  }

  lemma SumAtLeast(m: Balances, k: Key)
    requires k in m
    ensures m[k] <= Sum(m)
  {
    SumTake(m, m.Keys, k);
  }

  /** What was ever put into the ledger: the faucet once for every account, and all credits. */
  function Issued(faucet: nat, accounts: nat, credited: nat): nat {
    if accounts == 0 then credited else faucet + Issued(faucet, accounts - 1, credited)
  }

  lemma {:induction false} IssuedIs(faucet: nat, accounts: nat, credited: nat)
    ensures Issued(faucet, accounts, credited) == faucet * accounts + credited
  {
    if accounts > 0 {
      IssuedIs(faucet, accounts - 1, credited);
      assert faucet + faucet * (accounts - 1) == faucet * accounts;
    }
  }

  lemma {:induction false} IssuedMore(faucet: nat, accounts: nat, credited: nat, amount: nat)
    ensures Issued(faucet, accounts, credited + amount) == Issued(faucet, accounts, credited) + amount
  {
    if accounts > 0 {
      IssuedMore(faucet, accounts - 1, credited, amount);
    }
  }

  /**
    The balances add up to what was issued: always modulo 2^64, and exactly as
    long as less than 2^64 was issued.
  */
  ghost predicate Balanced(faucet: nat, balances: Balances, credited: nat) {
    var issued := Issued(faucet, |balances|, credited);
    (issued - Sum(balances)) % WORD == 0 && (issued < WORD ==> Sum(balances) == issued)
  }

  /** account: an account seen for the first time gets the faucet's amount. */
  function Touch(faucet: word64, balances: Balances, id: Key): Balances {
    if id in balances then balances else balances[id := faucet]
  }

  function Add64(a: word64, b: word64): word64 { (a + b) % WORD }

  function Credited(faucet: word64, balances: Balances, id: Key, amount: word64): Balances {
    var b := Touch(faucet, balances, id);
    b[id := Add64(b[id], amount)]
  }

  /** The transfer of Settle; the payer's account is there and has the amount. */
  function Moved(faucet: word64, balances: Balances, payer: Key, payee: Key, value: word64): Balances
    requires payer in balances && balances[payer] >= value
  {
    var b := Touch(faucet, balances[payer := balances[payer] - value], payee);
    b[payee := Add64(b[payee], value)]
  }

  lemma TouchKeepsBalance(faucet: word64, balances: Balances, credited: nat, id: Key)
    requires Balanced(faucet, balances, credited)
    ensures Balanced(faucet, Touch(faucet, balances, id), credited)
  {
    if id !in balances {
      SumUpdate(balances, id, faucet);
      OneMore(faucet, |balances|, credited);
    }
  }

  lemma OneMore(faucet: nat, n: nat, credited: nat)
    ensures Issued(faucet, n + 1, credited) == Issued(faucet, n, credited) + faucet
  {
  }

  /** The numbers of one addition to a balance: issue and sum grow alike, but for a wrap of 2^64. */
  lemma AddKeeps(issued: nat, sum: nat, balance: word64, amount: word64)
    requires (issued - sum) % WORD == 0 && (issued < WORD ==> sum == issued) && balance <= sum
    ensures var sum' := sum - balance + Add64(balance, amount);
            && (issued + amount - sum') % WORD == 0
            && (issued + amount < WORD ==> sum' == issued + amount && Add64(balance, amount) == balance + amount)
  {
    if balance + amount >= WORD {
      assert Add64(balance, amount) == balance + amount - WORD;
    } else {
      assert Add64(balance, amount) == balance + amount;
    }
  }

  lemma CreditKeepsBalance(faucet: word64, balances: Balances, credited: nat, id: Key, amount: word64)
    requires Balanced(faucet, balances, credited)
    ensures Balanced(faucet, Credited(faucet, balances, id, amount), credited + amount)
  {
    TouchKeepsBalance(faucet, balances, credited, id);
    var b := Touch(faucet, balances, id);
    SumAtLeast(b, id);
    SumUpdate(b, id, Add64(b[id], amount));
    IssuedMore(faucet, |b|, credited, amount);
    AddKeeps(Issued(faucet, |b|, credited), Sum(b), b[id], amount);
  }

  /** The payer's part of a payment: the value is out of the books for a moment. */
  lemma PayerPays(faucet: word64, balances: Balances, credited: nat, payer: Key, payee: Key, value: word64)
    requires Balanced(faucet, balances, credited) && payer in balances && balances[payer] >= value
    ensures var b := Touch(faucet, balances[payer := balances[payer] - value], payee);
            var issued := Issued(faucet, |b|, credited);
            && (issued - value - Sum(b)) % WORD == 0 && issued >= value
            && (issued < WORD ==> Sum(b) == issued - value)
  {
    var paid := balances[payer := balances[payer] - value];
    SumAtLeast(balances, payer);
    SumUpdate(balances, payer, balances[payer] - value);
    IssuedAtLeastSum(Issued(faucet, |balances|, credited), Sum(balances), value);
    if payee !in paid {
      SumUpdate(paid, payee, faucet);
      OneMore(faucet, |paid|, credited);
    }
  }

  lemma IssuedAtLeastSum(issued: nat, sum: nat, value: word64)
    requires (issued < WORD ==> sum == issued) && value <= sum
    ensures issued >= value
  {
  }

  /** A payment moves value between accounts, or back to the same one, and changes no total. */
  lemma MoveKeepsBalance(faucet: word64, balances: Balances, credited: nat, payer: Key, payee: Key, value: word64)
    requires Balanced(faucet, balances, credited) && payer in balances && balances[payer] >= value
    ensures Balanced(faucet, Moved(faucet, balances, payer, payee, value), credited)
  {
    var b := Touch(faucet, balances[payer := balances[payer] - value], payee);
    PayerPays(faucet, balances, credited, payer, payee, value);
    SumAtLeast(b, payee);
    SumUpdate(b, payee, Add64(b[payee], value));
    AddBackKeeps(Issued(faucet, |b|, credited), Sum(b), b[payee], value);
  }

  lemma AddBackKeeps(issued: nat, sum: nat, balance: word64, value: word64)
    requires issued >= value && (issued - value - sum) % WORD == 0 && (issued < WORD ==> sum == issued - value)
    requires balance <= sum
    ensures var sum' := sum - balance + Add64(balance, value);
            && (issued - sum') % WORD == 0
            && (issued < WORD ==> sum' == issued && Add64(balance, value) == balance + value)
  {
    if balance + value >= WORD {
      assert Add64(balance, value) == balance + value - WORD;
    } else {
      assert Add64(balance, value) == balance + value;
    }
  }

  // ------------------------------------------------------------------ the ledger

  /** One settled payment, with the signature that was presented for it, what was required, and when. */
  datatype Settled = Settled(payment: Checked, signature: Sig, reqs: Requirements, now: int)

  /**
    No nonce string settles twice, and every settled payment was signed by its
    payer, was to the recipient and of the amount that were required, and was in
    its window.
  */
  ghost predicate Honest(cfg: Config, settled: seq<Settled>, spent: set<Bytes>) {
    && (forall i, j :: 0 <= i < j < |settled| ==> settled[i].payment.auth.nonce != settled[j].payment.auth.nonce)
    && (forall s :: s in settled ==> s.payment.auth.nonce in spent)
    && (forall s :: s in settled ==> Rightful(cfg, s))
  }

  ghost predicate Rightful(cfg: Config, s: Settled) {
    Due(cfg, s.now, Payload(cfg.version, Some(Exact(Some(s.signature), s.payment.auth))), s.reqs, s.payment)
  }

  datatype Settlement = Refused(reason: Reason) | Paid(payer: Key, transaction: Bytes, amount: Bytes)

  class Ledger {
    const cfg: Config
    var balances: Balances
    var spent: set<Bytes>
    ghost var credited: nat
    ghost var settled: seq<Settled>

    ghost predicate Valid()
      reads this
    {
      Balanced(cfg.faucet, balances, credited) && Honest(cfg, settled, spent)
    }

    constructor (cfg: Config)
      ensures Valid() && this.cfg == cfg && balances == map[] && spent == {} && settled == [] && credited == 0
    {
      this.cfg := cfg;
      balances, spent := map[], {};
      credited, settled := 0, [];
    }

    /** account */
    method Account(id: Key) returns (balance: word64)
      modifies this`balances
      ensures balances == Touch(cfg.faucet, old(balances), id)
      ensures id in balances && balance == balances[id]
    {
      if id !in balances {
        balances := balances[id := cfg.faucet];
      }
      balance := balances[id];
    }

    method Credit(id: Key, amount: word64)
      requires Valid()
      modifies this`balances, this`credited
      ensures Valid() && credited == old(credited) + amount
      ensures balances == Credited(cfg.faucet, old(balances), id, amount)
    {
      CreditKeepsBalance(cfg.faucet, balances, credited, id, amount);
      var balance := Account(id);
      balances := balances[id := Add64(balance, amount)];
      credited := credited + amount;
    }

    /** Nothing is ever lost or made: with little enough issued the sum is exact. */
    lemma Conserved()
      requires Valid()
      ensures (cfg.faucet * |balances| + credited) % WORD == Sum(balances) % WORD
      ensures cfg.faucet * |balances| + credited < WORD ==> Sum(balances) == cfg.faucet * |balances| + credited
    {
      IssuedIs(cfg.faucet, |balances|, credited);
      SameRemainder(Issued(cfg.faucet, |balances|, credited), Sum(balances));
    }

    /** check */
    method Check(payload: Payload, reqs: Requirements, now: int) returns (r: Result<Checked, Reason>)
      requires Valid()
      modifies this`balances
      ensures Valid()
      ensures var pre := PreCheck(cfg, spent, now, payload, reqs);
              if pre.Err? then r == pre && balances == old(balances)
              else
                && balances == Touch(cfg.faucet, old(balances), pre.value.payer)
                && pre.value.payer in balances
                && r == if balances[pre.value.payer] < pre.value.value then Err(InsufficientFunds) else pre
    {
      var pre := PreCheck(cfg, spent, now, payload, reqs);
      if pre.Err? {
        return pre;
      }
      TouchKeepsBalance(cfg.faucet, balances, credited, pre.value.payer);
      var balance := Account(pre.value.payer);
      if balance < pre.value.value {
        return Err(InsufficientFunds);
      }
      r := pre;
    }

    /** Verify: checking settles nothing; at most it opens the payer's account. */
    method Verify(payload: Payload, reqs: Requirements, now: int) returns (r: Result<Key, Reason>)
      requires Valid()
      modifies this`balances
      ensures Valid()
      ensures forall id :: id in old(balances) ==> id in balances && balances[id] == old(balances)[id]
      ensures r.Ok? <==> exists c :: Payable(cfg, spent, old(balances), now, payload, reqs, c)
      ensures forall c :: Payable(cfg, spent, old(balances), now, payload, reqs, c) ==> r == Ok(c.payer)
    {
      PayableExactly(cfg, spent, balances, now, payload, reqs);
      var checked := Check(payload, reqs, now);
      match checked
      case Err(e) => r := Err(e);
      case Ok(c) => r := Ok(c.payer);
    }

    /** The two balance updates of Settle. */
    method Transfer(payer: Key, payee: Key, value: word64)
      requires payer in balances && balances[payer] >= value
      modifies this`balances
      ensures balances == Moved(cfg.faucet, old(balances), payer, payee, value)
    {
      balances := balances[payer := balances[payer] - value];
      var balance := Account(payee);
      balances := balances[payee := Add64(balance, value)];
    }

    /**
      Settle.  It pays exactly what is due: a payment with an unspent nonce that
      its payer has the funds for.  Less than 2^64 having been issued, the required
      recipient then has the required amount more, and the payer that much less.
    */
    method Settle(payload: Payload, reqs: Requirements, now: int) returns (r: Settlement)
      requires Valid()
      modifies this
      ensures Valid() && credited == old(credited)
      ensures r.Paid? <==> exists c :: Payable(cfg, old(spent), old(balances), now, payload, reqs, c)
      ensures forall c :: Payable(cfg, old(spent), old(balances), now, payload, reqs, c) ==>
                && r == Paid(c.payer, SigningMessage(NETWORK, c.auth), c.auth.value)
                && spent == old(spent) + {c.auth.nonce}
                && settled == old(settled) + [Settled(c, payload.exact.value.signature.value, reqs, now)]
                && balances == Moved(cfg.faucet, Touch(cfg.faucet, old(balances), c.payer), c.payer, c.payee, c.value)
                && (Issued(cfg.faucet, |balances|, credited) < WORD ==>
                      PaidOver(cfg, old(balances), balances, c.payer, c.payee, c.value))
      ensures r.Refused? ==> spent == old(spent) && settled == old(settled)
      ensures r.Refused? ==> forall id :: id in old(balances) ==> id in balances && balances[id] == old(balances)[id]
      ensures var pre := PreCheck(cfg, old(spent), now, payload, reqs);
              if pre.Err? then r == Refused(pre.error) && balances == old(balances)
              else r.Refused? ==>
                     r == Refused(InsufficientFunds) && balances == Touch(cfg.faucet, old(balances), pre.value.payer)
    {
      ghost var before := balances;
      var checked := Check(payload, reqs, now);
      PayableExactly(cfg, spent, before, now, payload, reqs);
      if checked.Err? {
        return Refused(checked.error);
      }
      var c := checked.value;
      DueExactly(cfg, spent, now, payload, reqs, c);
      assert Payable(cfg, spent, before, now, payload, reqs, c);
      ghost var entry := Settled(c, payload.exact.value.signature.value, reqs, now);
      MoveKeepsBalance(cfg.faucet, balances, credited, c.payer, c.payee, c.value);
      PaysOver(cfg, before, balances, credited, c.payer, c.payee, c.value);
      SettleKeepsHonest(cfg, settled, spent, entry);
      spent := spent + {c.auth.nonce};
      Transfer(c.payer, c.payee, c.value);
      settled := settled + [entry];
      r := Paid(c.payer, SigningMessage(reqs.network, c.auth), c.auth.value);
    }
  }

  /** What an account holds, or would when it is first seen. */
  function Held(cfg: Config, balances: Balances, id: Key): word64 {
    if id in balances then balances[id] else cfg.faucet
  }

  /** Due, not settled before, and the payer has it. */
  ghost predicate Payable(
      cfg: Config, spent: set<Bytes>, balances: Balances, now: int, p: Payload, reqs: Requirements, c: Checked)
  {
    Due(cfg, now, p, reqs, c) && c.auth.nonce !in spent && c.value <= Held(cfg, balances, c.payer)
  }

  lemma PayableExactly(cfg: Config, spent: set<Bytes>, balances: Balances, now: int, p: Payload, reqs: Requirements)
    ensures forall c :: Payable(cfg, spent, balances, now, p, reqs, c) <==>
              && PreCheck(cfg, spent, now, p, reqs) == Ok(c)
              && c.value <= Touch(cfg.faucet, balances, c.payer)[c.payer]
  {
    forall c
      ensures PreCheck(cfg, spent, now, p, reqs) == Ok(c) <==> Due(cfg, now, p, reqs, c) && c.auth.nonce !in spent
    {
      DueExactly(cfg, spent, now, p, reqs, c);
    }
  }

  /** The amount has gone from payer to payee, and nobody else's balance has changed. */
  ghost predicate PaidOver(cfg: Config, before: Balances, after: Balances, payer: Key, payee: Key, value: word64) {
    && payer in after && payee in after
    && (payer != payee ==> after[payer] == Held(cfg, before, payer) - value)
    && (payer != payee ==> after[payee] == Held(cfg, before, payee) + value)
    && (payer == payee ==> after[payer] == Held(cfg, before, payer))
    && forall id :: id in before && id != payer && id != payee ==> id in after && after[id] == before[id]
  }

  lemma PaysOver(
      cfg: Config, before: Balances, touched: Balances, credited: nat, payer: Key, payee: Key, value: word64)
    requires touched == Touch(cfg.faucet, before, payer) && Balanced(cfg.faucet, touched, credited)
    requires payer in touched && touched[payer] >= value
    ensures var after := Moved(cfg.faucet, touched, payer, payee, value);
            Issued(cfg.faucet, |after|, credited) < WORD ==> PaidOver(cfg, before, after, payer, payee, value)
  {
    var after := Moved(cfg.faucet, touched, payer, payee, value);
    assert after.Keys == Touch(cfg.faucet, touched, payee).Keys;
    assert |after| == |after.Keys| && |Touch(cfg.faucet, touched, payee)| == |Touch(cfg.faucet, touched, payee).Keys|;
    if Issued(cfg.faucet, |after|, credited) < WORD {
      MovesExactly(cfg.faucet, touched, credited, payer, payee, value);
    }
  }

  lemma SameRemainder(a: nat, b: nat)
    requires (a - b) % WORD == 0
    ensures a % WORD == b % WORD
  {
  }

  lemma SettleKeepsHonest(cfg: Config, settled: seq<Settled>, spent: set<Bytes>, s: Settled)
    requires Honest(cfg, settled, spent) && s.payment.auth.nonce !in spent && Rightful(cfg, s)
    ensures Honest(cfg, settled + [s], spent + {s.payment.auth.nonce})
  {
  }

  /**
    What a settled payment's signature covers is that payment: the payer signed
    this authorization for this network and no other, and a signature that was
    presented for one settled payment was not presented for a second one.
  */
  lemma SettledAsSigned(
      cfg: Config, settled: seq<Settled>, spent: set<Bytes>, i: nat, k: Key, network: Bytes, a: Authorization)
    requires Honest(cfg, settled, spent) && i < |settled|
    requires settled[i].signature == SignAuthorization(k, network, a)
    requires AllSized(AuthFields(network, a)) && AllSized(AuthFields(NETWORK, settled[i].payment.auth))
    ensures settled[i].payment.payer == k && settled[i].payment.auth == a && network == NETWORK
    ensures forall j :: 0 <= j < |settled| && j != i && AllSized(AuthFields(NETWORK, settled[j].payment.auth)) ==>
              settled[j].signature != settled[i].signature
  {
    assert settled[i] in settled;
    SigningMessageInjective(network, a, NETWORK, settled[i].payment.auth);
    forall j | 0 <= j < |settled| && j != i && AllSized(AuthFields(NETWORK, settled[j].payment.auth))
      ensures settled[j].signature != settled[i].signature
    {
      assert settled[j] in settled;
      assert settled[j].payment.auth != settled[i].payment.auth;
      SignedDiffers(settled[j].payment, settled[i].payment);
    }
  }

  lemma SignedDiffers(a: Checked, b: Checked)
    requires AllSized(AuthFields(NETWORK, a.auth)) && AllSized(AuthFields(NETWORK, b.auth)) && a.auth != b.auth
    ensures SignAuthorization(a.payer, NETWORK, a.auth) != SignAuthorization(b.payer, NETWORK, b.auth)
  {
    if SigningMessage(NETWORK, a.auth) == SigningMessage(NETWORK, b.auth) {
      SigningMessageInjective(NETWORK, a.auth, NETWORK, b.auth);
    }
  }

  /** With less than 2^64 issued, a payment gives the payee exactly what the payer loses. */
  lemma MovesExactly(faucet: word64, balances: Balances, credited: nat, payer: Key, payee: Key, value: word64)
    requires Balanced(faucet, balances, credited) && payer in balances && balances[payer] >= value
    requires Issued(faucet, |Touch(faucet, balances, payee)|, credited) < WORD
    ensures var after := Moved(faucet, balances, payer, payee, value);
            && (payer == payee ==> after == balances)
            && (payer != payee ==> after[payer] == balances[payer] - value)
            && (payer != payee ==> after[payee] == Touch(faucet, balances, payee)[payee] + value)
            && (forall id :: id in balances && id != payer && id != payee ==> id in after && after[id] == balances[id])
  {
    var paid := balances[payer := balances[payer] - value];
    var b := Touch(faucet, paid, payee);
    SumUpdate(balances, payer, balances[payer] - value);
    if payee !in paid {
      SumUpdate(paid, payee, faucet);
      SumUpdate(balances, payee, faucet);
    }
    PayerPays(faucet, balances, credited, payer, payee, value);
    SumAtLeast(b, payee);
    AddBackKeeps(Issued(faucet, |b|, credited), Sum(b), b[payee], value);
  }

  // ------------------------------------------------------- one nonce, spelled twice

  function HexValue(s: Sym): (d: nat)
    requires HexDigit(s)
    ensures d < 16
  {
    if s.b <= 57 then s.b - 48 else if s.b <= 70 then s.b - 55 else s.b - 87
  }

  function HexPart(nonce: Bytes): Bytes { if Str("0x") <= nonce then nonce[2..] else nonce }

  /** The 32 bytes a nonce stands for, as half bytes. */
  function NonceValue(nonce: Bytes): (v: seq<nat>)
    requires GoodNonce(nonce)
  {
    seq(64, i requires 0 <= i < 64 => assert HexPart(nonce)[i] in HexPart(nonce); HexValue(HexPart(nonce)[i]))
  }

  /** Spelled as the wallet does: with 0x, in lower case. */
  predicate Plain(nonce: Bytes) {
    Str("0x") <= nonce && forall s :: s in nonce ==> s.Byte? && !(65 <= s.b <= 70)
  }

  lemma PlainDecides(a: Bytes, b: Bytes)
    requires GoodNonce(a) && GoodNonce(b) && Plain(a) && Plain(b) && NonceValue(a) == NonceValue(b)
    ensures a == b
  {
    var u, v := HexPart(a), HexPart(b);
    PlainPart(a);
    PlainPart(b);
    forall i | 0 <= i < 64 ensures u[i] == v[i] {
      assert u[i] in u && v[i] in v;
      assert NonceValue(a)[i] == HexValue(u[i]) && NonceValue(b)[i] == HexValue(v[i]);
    }
    assert u == v;
  }

  lemma PlainPart(nonce: Bytes)
    requires GoodNonce(nonce) && Plain(nonce)
    ensures nonce == Str("0x") + HexPart(nonce) && |HexPart(nonce)| == 64
    ensures forall d :: d in HexPart(nonce) ==> HexDigit(d) && !(65 <= d.b <= 70)
  {
  }

  lemma NoPrefixInHex(digits: Bytes)
    requires forall d :: d in digits ==> HexDigit(d)
    ensures !(Str("0x") <= digits)
  {
    assert |digits| > 1 ==> digits[1] in digits && digits[1] != Str("0x")[1];
  }

  /** Payments whose nonces are spelled as the wallet does settle at most once for each 32 bytes. */
  lemma PlainNoncesSettleOnce(cfg: Config, settled: seq<Settled>, spent: set<Bytes>, i: nat, j: nat)
    requires Honest(cfg, settled, spent) && i < j < |settled|
    requires Plain(settled[i].payment.auth.nonce) && Plain(settled[j].payment.auth.nonce)
    ensures GoodNonce(settled[i].payment.auth.nonce) && GoodNonce(settled[j].payment.auth.nonce)
    ensures NonceValue(settled[i].payment.auth.nonce) != NonceValue(settled[j].payment.auth.nonce)
  {
    var a, b := settled[i].payment.auth.nonce, settled[j].payment.auth.nonce;
    assert settled[i] in settled && settled[j] in settled;
    if NonceValue(a) == NonceValue(b) {
      PlainDecides(a, b);
    }
  }

  /** The payment with its nonce spelled otherwise, signed by the same key. */
  function Respelled(network: Bytes, p: Payload, k: Key, nonce: Bytes): Payload
    requires p.exact.Some?
  {
    var auth := p.exact.value.auth.(nonce := nonce);
    p.(exact := Some(Exact(Some(SignAuthorization(k, network, auth)), auth)))
  }

  /**
    Once a payment was settled, the same payment signed again over a nonce of the
    same 32 bytes passes exactly if that nonce is another string, not spent yet.
  */
  lemma RespelledPassesExactly(cfg: Config, spent: set<Bytes>, now: int, p: Payload, reqs: Requirements, nonce: Bytes)
    requires PreCheck(cfg, spent, now, p, reqs).Ok?
    requires GoodNonce(nonce) && NonceValue(nonce) == NonceValue(p.exact.value.auth.nonce)
    ensures var done := PreCheck(cfg, spent, now, p, reqs).value;
            PreCheck(cfg, spent + {done.auth.nonce}, now, Respelled(NETWORK, p, done.payer, nonce), reqs)
            == if nonce == done.auth.nonce || nonce in spent then Err(InvalidPayload)
               else Ok(done.(auth := done.auth.(nonce := nonce)))
  {
  }

  /** Every nonce has another spelling. */
  lemma SpelledOtherwise(nonce: Bytes) returns (other: Bytes)
    requires GoodNonce(nonce)
    ensures GoodNonce(other) && NonceValue(other) == NonceValue(nonce) && other != nonce
  {
    var prefix := Str("0x");
    if prefix <= nonce {
      other := nonce[2..];
      NoPrefixInHex(other);
    } else {
      other := prefix + nonce;
      assert other[2..] == nonce;
    }
    assert HexPart(other) == HexPart(nonce);
  }
}
