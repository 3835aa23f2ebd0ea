/** Plugin invocation tokens: their check, and the coordinator that lets each be used once. */
module InvocationTokens {
  import opened Base64Url
  import opened Common

  const MINUTE: int := 60000
  const MAX_LIFETIME: int := 5 * MINUTE
  const CONSUMED_RETENTION: int := 10 * MINUTE
  const CONCURRENCY: nat := 2

  datatype Claims = Claims(installationId: string, toolId: string, requestDigest: string, expiresAt: int, nonce: string)

  /** The text of a token: a payload, identified with the claims that it was written for, and
      all that follows the first dot. */
  datatype Token = Token(claims: Claims, rest: string)

  /** A text up to its first dot. */
  function Part(text: string): string {
    if text == "" || text[0] == '.' then "" else [text[0]] + Part(text[1..])
  }

  /** What follows the first dot of a text, if it has one. */
  function After(text: string): Option<string> {
    if text == "" then None else if text[0] == '.' then Some(text[1..]) else After(text[1..])
  }

  /** HMAC-SHA-256 of a payload under the platform's key. */
  type Mac = Claims -> seq<int>

  ghost predicate IsMac(mac: Mac) {
    forall c {:trigger mac(c)} :: |mac(c)| == 32 && AreBytes(mac(c))
  }

  /** The second part is a signature of the payload in base64, and a third part, if there is
      one, is empty. Parts after the third do not count. */
  predicate Signed(mac: Mac, token: Token) {
    var signature, more := Part(token.rest), After(token.rest);
    && signature != "" && Decode(signature) == Some(mac(token.claims))
    && (more.Some? ==> Part(more.value) == "")
  }

  predicate HasNoDot(text: string) {
    forall i :: 0 <= i < |text| ==> text[i] != '.'
  }

  lemma {:induction false} PartsOf(text: string, more: string)
    requires HasNoDot(text)
    ensures Part(text) == text && After(text) == None
    ensures Part(text + "." + more) == text && After(text + "." + more) == Some(more)
  {
    if text == "" {
      assert ("." + more)[1..] == more;
    } else {
      PartsOf(text[1..], more);
      assert (text + "." + more)[1..] == text[1..] + "." + more;
    }
  }

  datatype Invocation = Invocation(
    token: Token, installationId: string, toolId: string, inputDigest: string, allowed: seq<string>)

  /** verifyInvocationToken. */
  predicate Verifies(mac: Mac, v: Invocation, now: int) {
    var claims := v.token.claims;
    && claims.installationId == v.installationId && claims.toolId == v.toolId
    && now < claims.expiresAt <= now + MAX_LIFETIME
    && claims.requestDigest == v.inputDigest
    && Signed(mac, v.token)
  }

  const ISSUED_LIFETIME: int := 2 * MINUTE

  /** issuePluginInvocationToken. */
  ghost function IssueToken(mac: Mac, installationId: string, toolId: string, requestDigest: string, now: int,
                            nonce: string): Token
    requires IsMac(mac)
  {
    var claims := Claims(installationId, toolId, requestDigest, now + ISSUED_LIFETIME, nonce);
    Token(claims, Encode(mac(claims)))
  }

  lemma IssuedTokenIsSigned(mac: Mac, token: Token)
    requires IsMac(mac) && token.rest == Encode(mac(token.claims))
    ensures Signed(mac, token) && HasNoDot(token.rest)
  {
    RoundTrip(mac(token.claims));
    EncodedText(mac(token.claims));
    PartsOf(token.rest, "");
  }

  /** A token that was issued passes the check for just what it was issued for, and for two
      minutes. */
  lemma IssuedTokenVerifiesWhen(mac: Mac, installationId: string, toolId: string, requestDigest: string,
                                issuedAt: int, nonce: string, v: Invocation, now: int)
    requires IsMac(mac) && issuedAt <= now
    requires v.token == IssueToken(mac, installationId, toolId, requestDigest, issuedAt, nonce)
    ensures Verifies(mac, v, now) <==>
            && now < issuedAt + 2 * MINUTE
            && (v.installationId, v.toolId, v.inputDigest) == (installationId, toolId, requestDigest)
  {
    IssuedTokenIsSigned(mac, v.token);
  }

  datatype Active = Active(installationId: string, allowed: seq<string>)
  datatype State = State(active: map<Token, Active>, consumed: map<Token, int>)

  datatype Answer = Acquired | ConcurrencyLimit | Replayed

  function Recent(consumed: map<Token, int>, now: int): map<Token, int> {
    map t | t in consumed && consumed[t] >= now - CONSUMED_RETENTION :: consumed[t]
  }

  /** The acquire route. The consumed row stays even when the insert after it fails. */
  function AcquireStep(s: State, v: Invocation, now: int): (State, Answer) {
    if |s.active| >= CONCURRENCY then (s, ConcurrencyLimit)
    else
      var recent := Recent(s.consumed, now);
      if v.token in recent then (s.(consumed := recent), Replayed)
      else
        var consumed := recent[v.token := now];
        if v.token in s.active then (s.(consumed := consumed), Replayed)
        else (State(s.active[v.token := Active(v.installationId, v.allowed)], consumed), Acquired)
  }

  function ReleaseStep(s: State, token: Token): State {
    s.(active := s.active - {token})
  }

  /** The text has a row for the installation that allows the capability. */
  predicate Lets(active: map<Token, Active>, token: Token, installationId: string, capabilityId: string) {
    token in active && active[token].installationId == installationId && capabilityId in active[token].allowed
  }

  class PluginCoordinator {
    var active: map<Token, Active>
    var consumed: map<Token, int>

    function Rows(): State
      reads this
    {
      State(active, consumed)
    }

    constructor ()
      ensures Rows() == State(map[], map[])
    {
      active, consumed := map[], map[];
    }

    method Acquire(v: Invocation, now: int) returns (r: Answer)
      modifies this
      ensures (Rows(), r) == AcquireStep(old(Rows()), v, now)
      ensures r == ConcurrencyLimit <==> |old(active)| >= 2
      ensures r == Acquired <==>
                && |old(active)| < 2 && v.token !in old(active)
                && !(v.token in old(consumed) && now - 10 * 60000 <= old(consumed)[v.token])
      ensures active == if r == Acquired then old(active)[v.token := Active(v.installationId, v.allowed)]
                        else old(active)
      ensures r == ConcurrencyLimit ==> consumed == old(consumed)
      ensures r != ConcurrencyLimit ==>
                && v.token in consumed
                && forall t :: t != v.token ==>
                     && (t in consumed <==> t in old(consumed) && now - 10 * 60000 <= old(consumed)[t])
                     && (t in consumed ==> consumed[t] == old(consumed)[t])
      ensures r != ConcurrencyLimit ==>
                consumed[v.token] ==
                if v.token in old(consumed) && now - 10 * 60000 <= old(consumed)[v.token]
                then old(consumed)[v.token] else now
    {
      if |active| >= CONCURRENCY {
        return ConcurrencyLimit;
      }
      consumed := Recent(consumed, now);
      if v.token in consumed {
        return Replayed;
      }
      consumed := consumed[v.token := now];
      if v.token in active {
        return Replayed;
      }
      active := active[v.token := Active(v.installationId, v.allowed)];
      r := Acquired;
    }

    method Release(token: Token)
      modifies this
      ensures Rows() == ReleaseStep(old(Rows()), token)
      ensures token !in active && consumed == old(consumed)
      ensures forall t :: t != token ==> (t in active <==> t in old(active))
      ensures forall t :: t in active ==> active[t] == old(active)[t]
    {
      active := active - {token};
    }

    /** The broker lets a capability through only for an invocation that is running. */
    method Broker(token: Token, installationId: string, capabilityId: string) returns (let: bool)
      ensures let <==> Lets(active, token, installationId, capabilityId)
    {
      if token in active && active[token].installationId == installationId {
        return capabilityId in active[token].allowed;
      }
      let := false;
    }
  }

  // ---- Runs ----

  datatype Op =
    | Invoke(v: Invocation, verifiedAt: int, now: int)
    | Finish(token: Token, now: int)

  /** A run as the callers make it: the clock does not go back, and an invocation is verified
      first and acquired less than `delay` later. */
  ghost predicate Timely(mac: Mac, ops: seq<Op>, delay: int) {
    && (forall i, j :: 0 <= i < j < |ops| ==> ops[i].now <= ops[j].now)
    && (forall i :: 0 <= i < |ops| && ops[i].Invoke? ==>
          && Verifies(mac, ops[i].v, ops[i].verifiedAt)
          && ops[i].verifiedAt <= ops[i].now < ops[i].verifiedAt + delay)
  }

  function Step(s: State, op: Op): State {
    match op
    case Invoke(v, _, now) => AcquireStep(s, v, now).0
    case Finish(token, _) => ReleaseStep(s, token)
  }

  function Run(ops: seq<Op>): State {
    if ops == [] then State(map[], map[]) else Step(Run(ops[..|ops| - 1]), ops[|ops| - 1])
  }

  /** The i-th operation of the run acquires its token. */
  predicate AcquiresAt(ops: seq<Op>, i: nat)
    requires i < |ops|
  {
    ops[i].Invoke? && AcquireStep(Run(ops[..i]), ops[i].v, ops[i].now).1 == Acquired
  }

  lemma RemovalDoesNotGrow<K, V>(m: map<K, V>, k: K)
    ensures |m - {k}| <= |m|
  {
    assert (m - {k}).Keys == m.Keys - {k};
    if k in m {
      assert m.Keys == (m - {k}).Keys + {k};
    } else {
      assert (m - {k}).Keys == m.Keys;
    }
  }

  lemma StepKeepsTwo(s: State, op: Op)
    requires |s.active| <= CONCURRENCY
    ensures |Step(s, op).active| <= CONCURRENCY
  {
    if op.Finish? {
      RemovalDoesNotGrow(s.active, op.token);
    }
  }

  /** At most two invocations are active, whatever the run. */
  lemma {:induction false} AtMostTwoAreActive(ops: seq<Op>)
    ensures |Run(ops).active| <= 2
  {
    if ops != [] {
      AtMostTwoAreActive(ops[..|ops| - 1]);
      StepKeepsTwo(Run(ops[..|ops| - 1]), ops[|ops| - 1]);
    }
  }

  // ---- Who is let through ----

  /** The acquisition at `i` was not released since. */
  ghost predicate IsUnreleased(ops: seq<Op>, i: nat) {
    && i < |ops| && AcquiresAt(ops, i)
    && forall j :: i < j < |ops| && ops[j].Finish? ==> ops[j].token != ops[i].v.token
  }

  lemma UnreleasedBefore(ops: seq<Op>, i: nat)
    requires i < |ops| - 1
    ensures IsUnreleased(ops, i) <==>
            && IsUnreleased(ops[..|ops| - 1], i)
            && (ops[|ops| - 1].Finish? ==> ops[|ops| - 1].token != ops[i].v.token)
  {
    assert ops[..|ops| - 1][..i] == ops[..i];
    hide Run, AcquireStep;
  }

  lemma {:induction false} UnreleasedIsActive(ops: seq<Op>, i: nat)
    requires IsUnreleased(ops, i)
    ensures var v := ops[i].v;
            v.token in Run(ops).active && Run(ops).active[v.token] == Active(v.installationId, v.allowed)
  {
    var m := |ops| - 1;
    if i < m {
      UnreleasedBefore(ops, i);
      UnreleasedIsActive(ops[..m], i);
      hide IsUnreleased;
    }
  }

  lemma {:induction false} ActiveIsUnreleased(ops: seq<Op>, token: Token) returns (i: nat)
    requires token in Run(ops).active
    ensures IsUnreleased(ops, i) && ops[i].v.token == token
  {
    var m := |ops| - 1;
    if AcquiresAt(ops, m) && ops[m].v.token == token {
      i := m;
    } else {
      i := ActiveIsUnreleased(ops[..m], token);
      UnreleasedBefore(ops, i);
      hide IsUnreleased;
    }
  }

  /** The operation at `i` acquired the text for the installation, and allows the capability. */
  ghost predicate Allows(ops: seq<Op>, i: nat, token: Token, installationId: string, capabilityId: string) {
    && IsUnreleased(ops, i) && ops[i].v.token == token
    && ops[i].v.installationId == installationId && capabilityId in ops[i].v.allowed
  }

  /** Over any run: a capability is let through for a text and an installation if and only if an
      invocation with this text, for this installation and with this capability among those that
      it allows, was acquired and has not been released since. */
  lemma LetsThroughWhen(ops: seq<Op>, token: Token, installationId: string, capabilityId: string)
    ensures Lets(Run(ops).active, token, installationId, capabilityId) <==>
            exists i :: Allows(ops, i, token, installationId, capabilityId)
  {
    if Lets(Run(ops).active, token, installationId, capabilityId) {
      var i := ActiveIsUnreleased(ops, token);
      UnreleasedIsActive(ops, i);
      hide Run, IsUnreleased;
      assert Allows(ops, i, token, installationId, capabilityId);
    }
    if i :| Allows(ops, i, token, installationId, capabilityId) {
      UnreleasedIsActive(ops, i);
    }
    hide Run, IsUnreleased;
  }

  ghost predicate Remembers(s: State, token: Token, since: int) {
    token in s.consumed && s.consumed[token] >= since
  }

  lemma StepRemembers(s: State, op: Op, token: Token, since: int)
    requires Remembers(s, token, since) && since <= op.now <= since + CONSUMED_RETENTION
    ensures Remembers(Step(s, op), token, since)
  {}

  lemma AcquisitionConsumes(ops: seq<Op>, i: nat)
    requires i == |ops| - 1 && AcquiresAt(ops, i)
    ensures Remembers(Run(ops), ops[i].v.token, ops[i].now)
  {}

  lemma AcquiresAtInPrefix(ops: seq<Op>, m: nat, i: nat)
    requires i < m <= |ops|
    ensures AcquiresAt(ops[..m], i) == AcquiresAt(ops, i)
  {
    assert ops[..m][..i] == ops[..i];
    hide Run, AcquireStep;
  }

  /** Whoever acquired a token is remembered for ten minutes. */
  lemma {:induction false} AcquisitionIsRemembered(ops: seq<Op>, i: nat, now: int)
    requires i < |ops| && AcquiresAt(ops, i)
    requires forall a, b :: 0 <= a < b < |ops| ==> ops[a].now <= ops[b].now
    requires ops[|ops| - 1].now <= now <= ops[i].now + CONSUMED_RETENTION
    ensures Remembers(Run(ops), ops[i].v.token, ops[i].now)
    decreases |ops|
  {
    hide AcquireStep, Step, Remembers, Run;
    var m := |ops| - 1;
    if i == m {
      AcquisitionConsumes(ops, i);
    } else {
      AcquiresAtInPrefix(ops, m, i);
      AcquisitionIsRemembered(ops[..m], i, ops[m].now);
      LastIsRemembered(ops, ops[i].v.token, ops[i].now);
    }
  }

  lemma LastIsRemembered(ops: seq<Op>, token: Token, since: int)
    requires ops != [] && Remembers(Run(ops[..|ops| - 1]), token, since)
    requires since <= ops[|ops| - 1].now <= since + CONSUMED_RETENTION
    ensures Remembers(Run(ops), token, since)
  {
    hide Step, Remembers;
    StepRemembers(Run(ops[..|ops| - 1]), ops[|ops| - 1], token, since);
  }

  /** The tokens of the run expire within `lifetime` of being verified. */
  ghost predicate ShortLived(ops: seq<Op>, lifetime: int) {
    forall i :: 0 <= i < |ops| && ops[i].Invoke? ==> ops[i].v.token.claims.expiresAt <= ops[i].verifiedAt + lifetime
  }

  lemma RememberedIsNotAcquired(ops: seq<Op>, j: nat, since: int)
    requires j < |ops| && ops[j].Invoke? && ops[j].now <= since + CONSUMED_RETENTION
    requires Remembers(Run(ops[..j]), ops[j].v.token, since)
    ensures !AcquiresAt(ops, j)
  {
    hide Run;
  }

  /** How far apart two acquisitions of one text can be. */
  lemma NotTooLate(mac: Mac, ops: seq<Op>, lifetime: int, delay: int, i: nat, j: nat)
    requires Timely(mac, ops, delay) && ShortLived(ops, lifetime) && lifetime + delay <= CONSUMED_RETENTION + 2
    requires i < j < |ops| && ops[i].Invoke? && ops[j].Invoke? && ops[i].v.token == ops[j].v.token
    ensures ops[j].now <= ops[i].now + CONSUMED_RETENTION
    ensures forall a, b :: 0 <= a < b < |ops| ==> ops[a].now <= ops[b].now
  {
    hide Signed;
  }

  /** No text is acquired twice. */
  ghost predicate TextsAreAcquiredOnce(ops: seq<Op>) {
    forall i, j :: 0 <= i < j < |ops| && AcquiresAt(ops, i) && AcquiresAt(ops, j) ==> ops[i].v.token != ops[j].v.token
  }

  lemma NoSecondAcquisition(ops: seq<Op>, i: nat, j: nat)
    requires forall a, b :: 0 <= a < b < |ops| ==> ops[a].now <= ops[b].now
    requires i < j < |ops| && AcquiresAt(ops, i) && ops[j].Invoke? && ops[i].v.token == ops[j].v.token
    requires ops[j].now <= ops[i].now + CONSUMED_RETENTION
    ensures !AcquiresAt(ops, j)
  {
    hide AcquiresAt, Run, Remembers;
    AcquiresAtInPrefix(ops, j, i);
    AcquisitionIsRemembered(ops[..j], i, ops[j].now);
    RememberedIsNotAcquired(ops, j, ops[i].now);
  }

  /** A text is acquired at most once over any run, although consumed texts are forgotten
      after ten minutes, as long as its lifetime and the delay from its check to its
      acquisition do not exceed ten minutes together. Two milliseconds more do no harm. */
  lemma TokenIsAcquiredOnce(mac: Mac, ops: seq<Op>, lifetime: int, delay: int)
    requires Timely(mac, ops, delay) && ShortLived(ops, lifetime) && lifetime + delay <= 10 * MINUTE + 2
    ensures TextsAreAcquiredOnce(ops)
  {
    hide Timely, ShortLived, AcquireStep, Run;
    forall i, j | 0 <= i < j < |ops| && AcquiresAt(ops, i) && AcquiresAt(ops, j)
      ensures ops[i].v.token != ops[j].v.token
    {
      if ops[i].v.token == ops[j].v.token {
        NotTooLate(mac, ops, lifetime, delay, i, j);
        NoSecondAcquisition(ops, i, j);
      }
    }
  }

  /** The check itself bounds the lifetime by five minutes. */
  lemma CheckBoundsLifetime(mac: Mac, ops: seq<Op>, delay: int)
    requires Timely(mac, ops, delay)
    ensures ShortLived(ops, MAX_LIFETIME)
  {
    hide Signed;
  }

  /** That leaves five minutes for the delay. */
  lemma CheckedTokenIsAcquiredOnce(mac: Mac, ops: seq<Op>)
    requires Timely(mac, ops, 5 * MINUTE + 2)
    ensures TextsAreAcquiredOnce(ops)
  {
    CheckBoundsLifetime(mac, ops, 5 * MINUTE + 2);
    TokenIsAcquiredOnce(mac, ops, MAX_LIFETIME, 5 * MINUTE + 2);
  }

  /** The claims are those of a token that was issued before it was checked. */
  ghost predicate WasIssued(claims: Claims, now: int) {
    claims.expiresAt - ISSUED_LIFETIME <= now
  }

  ghost predicate AllIssued(ops: seq<Op>) {
    forall i :: 0 <= i < |ops| && ops[i].Invoke? ==> WasIssued(ops[i].v.token.claims, ops[i].verifiedAt)
  }

  /** The tokens that the assistant issues live for two minutes, which leaves eight. */
  lemma IssuedTokenIsAcquiredOnce(mac: Mac, ops: seq<Op>)
    requires Timely(mac, ops, 8 * MINUTE + 2) && AllIssued(ops)
    ensures TextsAreAcquiredOnce(ops)
  {
    TokenIsAcquiredOnce(mac, ops, ISSUED_LIFETIME, 8 * MINUTE + 2);
  }

  /** With a longer delay a text is acquired as soon as its check is early enough, released,
      checked again just before it expires, and acquired again after the delay. */
  lemma LongDelayAllowsASecondUse(mac: Mac, token: Token, lifetime: int, delay: int) returns (ops: seq<Op>)
    requires Signed(mac, token) && 1 <= lifetime <= MAX_LIFETIME && lifetime + delay > CONSUMED_RETENTION + 2
    ensures Timely(mac, ops, delay) && ShortLived(ops, lifetime)
    ensures |ops| == 3 && AcquiresAt(ops, 0) && AcquiresAt(ops, 2) && !TextsAreAcquiredOnce(ops)
  {
    hide Signed;
    var v, end := InvocationOf(token, []), token.claims.expiresAt;
    var start := end - lifetime;
    ops := [Invoke(v, start, start), Finish(token, start), Invoke(v, end - 1, end - 2 + delay)];
    var s0 := State(map[], map[]);
    assert ops[..0] == [] && ops[..1] == [ops[0]] && ops[..2] == [ops[0], ops[1]];
    assert ops[..2][..1] == ops[..1] && ops[..1][..0] == [];
    assert Run(ops[..1]) == Step(s0, ops[0]);
    assert Run(ops[..2]) == Step(Run(ops[..1]), ops[1]);
    assert Run(ops[..2]).active == map[];
    assert Run(ops[..2]).consumed == map[token := start];
    assert AcquiresAt(ops, 0) && AcquiresAt(ops, 2) && ops[0].v.token == ops[2].v.token;
  }

  /** The bound is exact: as long as some token is signed, all runs acquire each text at most
      once if and only if the lifetimes, of which the check bounds every one by five minutes,
      and the delays do not exceed ten minutes and two milliseconds together. */
  lemma TextsAreAcquiredOnceWhen(mac: Mac, token: Token, lifetime: int, delay: int)
    requires Signed(mac, token) && 1 <= lifetime
    ensures (forall ops :: Timely(mac, ops, delay) && ShortLived(ops, lifetime) ==> TextsAreAcquiredOnce(ops)) <==>
            Min(lifetime, 5 * MINUTE) + delay <= 10 * MINUTE + 2
  {
    hide Signed, Timely, ShortLived, TextsAreAcquiredOnce;
    var shorter := Min(lifetime, MAX_LIFETIME);
    if shorter + delay <= CONSUMED_RETENTION + 2 {
      forall ops | Timely(mac, ops, delay) && ShortLived(ops, lifetime)
        ensures TextsAreAcquiredOnce(ops)
      {
        CheckBoundsLifetime(mac, ops, delay);
        TokenIsAcquiredOnce(mac, ops, shorter, delay);
      }
    } else {
      var ops := LongDelayAllowsASecondUse(mac, token, shorter, delay);
      LongerIsShortLived(ops, shorter, lifetime);
    }
  }

  lemma LongerIsShortLived(ops: seq<Op>, shorter: int, lifetime: int)
    requires ShortLived(ops, shorter) && shorter <= lifetime
    ensures ShortLived(ops, lifetime)
  {}

  function InvocationOf(token: Token, allowed: seq<string>): Invocation {
    Invocation(token, token.claims.installationId, token.claims.toolId, token.claims.requestDigest, allowed)
  }

  // ---- Texts and claims ----

  /** The tables know texts, and every token that is issued can be spelled in other ways that
      pass the same check: with the padding of its signature, with a dot at the end, and with
      two dots and anything after them. */
  lemma IssuedTokenHasOtherSpellings(mac: Mac, token: Token, more: string)
    requires IsMac(mac) && token.rest == Encode(mac(token.claims))
    ensures var padded := token.(rest := Padded(token.rest)); padded != token && Signed(mac, padded)
    ensures var dotted := token.(rest := token.rest + "."); dotted != token && Signed(mac, dotted)
    ensures var longer := token.(rest := token.rest + ".." + more); longer != token && Signed(mac, longer)
  {
    PaddedIsSigned(mac, token);
    hide Signed, Encode, Padded, AreBytes;
    EmptyThirdPart(mac, token, "");
    EmptyThirdPart(mac, token, "." + more);
    assert token.rest + "." + ("." + more) == token.rest + ".." + more && token.rest + "." + "" == token.rest + ".";
  }

  lemma PaddedIsSigned(mac: Mac, token: Token)
    requires IsMac(mac) && token.rest == Encode(mac(token.claims))
    ensures Padded(token.rest) != token.rest && Signed(mac, token.(rest := Padded(token.rest)))
  {
    var b := mac(token.claims);
    EncodedHasTwoSpellings(b);
    EncodedText(b);
    hide Encode, Padded, Decode, AreBytes, Part, After;
    PartsOf(Padded(token.rest), "");
  }

  lemma EmptyThirdPart(mac: Mac, token: Token, more: string)
    requires IsMac(mac) && token.rest == Encode(mac(token.claims)) && (more == "" || more[0] == '.')
    ensures Signed(mac, token.(rest := token.rest + "." + more))
  {
    IssuedTokenIsSigned(mac, token);
    PartsOf(token.rest, more);
  }

  /** Two texts of the same claims are acquired one after the other. */
  lemma TwoSpellingsAreAcquired(mac: Mac, t: Token, u: Token, allowed: seq<string>) returns (ops: seq<Op>)
    requires t != u && t.claims == u.claims && Signed(mac, t) && Signed(mac, u)
    ensures Timely(mac, ops, 5 * MINUTE + 2) && |ops| == 2 && AcquiresAt(ops, 0) && AcquiresAt(ops, 1)
    ensures ops[0].Invoke? && ops[0].v.token == t && ops[1].Invoke? && ops[1].v.token == u
  {
    hide Signed;
    var now := t.claims.expiresAt - 1;
    ops := [Invoke(InvocationOf(t, allowed), now, now), Invoke(InvocationOf(u, allowed), now, now)];
    var s0 := State(map[], map[]);
    assert ops[..0] == [] && ops[..1] == [ops[0]] && ops[..1][..0] == [];
    assert Run(ops[..1]) == Step(s0, ops[0]);
    assert Run(ops[..1]).active == map[t := Active(t.claims.installationId, allowed)];
    assert Run(ops[..1]).consumed == map[t := now];
  }

  ghost predicate Presents(ops: seq<Op>, texts: iset<Token>) {
    forall i :: 0 <= i < |ops| && ops[i].Invoke? ==> ops[i].v.token in texts
  }

  /** No claims, and hence no nonce of the platform's, are acquired twice. */
  ghost predicate ClaimsAreAcquiredOnce(ops: seq<Op>) {
    forall i, j :: 0 <= i < j < |ops| && AcquiresAt(ops, i) && AcquiresAt(ops, j) ==>
      ops[i].v.token.claims != ops[j].v.token.claims
  }

  ghost predicate OneTextPerClaims(mac: Mac, texts: iset<Token>) {
    forall t, u :: t in texts && u in texts && Signed(mac, t) && Signed(mac, u) && t.claims == u.claims ==> t == u
  }

  /** Every run that presents some texts acquires all claims at most once if and only if no two
      of the texts are spellings of the same claims. */
  lemma ClaimsAreAcquiredOnceWhen(mac: Mac, texts: iset<Token>)
    ensures (forall ops :: Presents(ops, texts) && Timely(mac, ops, 5 * MINUTE + 2) ==> ClaimsAreAcquiredOnce(ops))
            <==> OneTextPerClaims(mac, texts)
  {
    hide Timely, ClaimsAreAcquiredOnce, Presents, Signed;
    if OneTextPerClaims(mac, texts) {
      forall ops | Presents(ops, texts) && Timely(mac, ops, 5 * MINUTE + 2)
        ensures ClaimsAreAcquiredOnce(ops)
      {
        OneTextIsAcquiredOnce(mac, texts, ops);
      }
    } else {
      var t, u :| t in texts && u in texts && Signed(mac, t) && Signed(mac, u) && t.claims == u.claims && t != u;
      var ops := TwoTextsBreakIt(mac, texts, t, u);
    }
  }

  lemma TwoTextsBreakIt(mac: Mac, texts: iset<Token>, t: Token, u: Token) returns (ops: seq<Op>)
    requires t in texts && u in texts && Signed(mac, t) && Signed(mac, u) && t.claims == u.claims && t != u
    ensures Presents(ops, texts) && Timely(mac, ops, 5 * MINUTE + 2) && !ClaimsAreAcquiredOnce(ops)
  {
    ops := TwoSpellingsAreAcquired(mac, t, u, []);
    hide AcquiresAt, Signed;
    assert ops[0].Invoke? && ops[1].Invoke? && AcquiresAt(ops, 0) && AcquiresAt(ops, 1);
  }

  lemma OneTextIsAcquiredOnce(mac: Mac, texts: iset<Token>, ops: seq<Op>)
    requires OneTextPerClaims(mac, texts) && Presents(ops, texts) && Timely(mac, ops, 5 * MINUTE + 2)
    ensures ClaimsAreAcquiredOnce(ops)
  {
    forall i, j | 0 <= i < j < |ops| && AcquiresAt(ops, i) && AcquiresAt(ops, j)
      ensures ops[i].v.token.claims != ops[j].v.token.claims
    {
      CheckedTokenIsAcquiredOnce(mac, ops);
    }
  }
}
