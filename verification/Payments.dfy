/** Challenges: what is signed, what is echoed, and what a credential that passes every check must have been issued
    for. */
module Payments {
  import opened Prelude
  import opened ChronoLite

  const PAYMENT_AUTHORIZATION := "Payment-Authorization"

  const TENANT_PREFIX := "mcp-usage-tenant-v1\0"

  /** An ideal MAC under the server's one secret: a tag determines the input it was computed over. */
  datatype Tag = Tag(input: string)

  datatype PaymentRequest = PaymentRequest(amount: string, currency: string, recipient: string)

  datatype PricedIdentity = PricedIdentity(tenant: Tag, method_: string, name: string, nonce: string)

  /** What a challenge says, and what comes back with a credential, where any field may have been altered and the
      optional ones dropped. */
  datatype Challenge = Challenge(id: Tag, realm: string, method_: string, intent: string, request: string,
                                 expires: Option<string>, digest: Option<string>, state: Option<string>,
                                 header: Option<string>)

  /** Encodings and hashing that live in libraries. */
  datatype Primitives = Primitives(encodeRequest: PaymentRequest -> string,
                                   decodeRequest: string -> Option<PaymentRequest>,
                                   encodeIdentity: PricedIdentity -> string,
                                   decodeIdentity: string -> Option<PricedIdentity>,
                                   contentDigest: string -> string)

  datatype Config = Config(realm: string, method_: string, intent: string, currency: string, recipient: string,
                           ttl: nat)

  /** One call of `challenge`: everything it was given, and the nonce it drew. */
  datatype Issue = Issue(amount: string, tenant: string, method_: string, name: string, nonce: string, body: string,
                         at: nat)

  datatype PaymentError = Malformed | InvalidChallenge | Expired | DigestMismatch | MethodUnsupported | Insufficient

  predicate BarFree(s: string) {
    '|' !in s
  }

  /** The base64url alphabet of RFC 4648 section 5, without padding. */
  predicate Base64Url(s: string) {
    forall c | c in s :: 'a' <= c <= 'z' || 'A' <= c <= 'Z' || '0' <= c <= '9' || c == '-' || c == '_'
  }

  /** What is needed of the libraries: base64url decoders accept only their alphabet and invert their encoders, and a
      content digest (RFC 9530) is a bar-free `sha-256=:...:` that no other body has. */
  ghost predicate Ideal(p: Primitives) {
    && (forall s {:trigger p.decodeRequest(s)} :: p.decodeRequest(s).Some? ==> Base64Url(s))
    && (forall s {:trigger p.decodeIdentity(s)} :: p.decodeIdentity(s).Some? ==> Base64Url(s))
    && (forall r {:trigger p.encodeRequest(r)} :: p.decodeRequest(p.encodeRequest(r)) == Some(r))
    && (forall i {:trigger p.encodeIdentity(i)} :: p.decodeIdentity(p.encodeIdentity(i)) == Some(i))
    && (forall b {:trigger p.contentDigest(b)} :: BarFree(p.contentDigest(b)) && ':' in p.contentDigest(b))
    && (forall b, c {:trigger p.contentDigest(b), p.contentDigest(c)} ::
          p.contentDigest(b) == p.contentDigest(c) ==> b == c)
  }

  function OrEmpty(o: Option<string>): string {
    if o.Some? then o.value else ""
  }

  /** Positional slots joined with `|`; an absent slot is empty, an absent header adds nothing. */
  function BindingInput(c: Challenge): string {
    c.realm + "|" + (c.method_ + "|" + Slots(c))
  }

  function Slots(c: Challenge): string {
    Through(c) + if c.header.Some? then "|" + c.header.value else ""
  }

  function Through(c: Challenge): string {
    c.intent + "|" + c.request + "|" + OrEmpty(c.expires) + "|" + OrEmpty(c.digest) + "|" + OrEmpty(c.state)
  }

  function TenantBinding(tenant: string): Tag {
    Tag(TENANT_PREFIX + tenant)
  }

  function IdentityOf(i: Issue): PricedIdentity {
    PricedIdentity(TenantBinding(i.tenant), i.method_, i.name, i.nonce)
  }

  function RequestText(p: Primitives, cfg: Config, amount: string): string {
    p.encodeRequest(PaymentRequest(amount, cfg.currency, cfg.recipient))
  }

  function StateText(p: Primitives, i: Issue): string {
    p.encodeIdentity(IdentityOf(i))
  }

  function Unsigned(p: Primitives, cfg: Config, i: Issue): Challenge {
    Challenge(Tag(""), cfg.realm, cfg.method_, cfg.intent, RequestText(p, cfg, i.amount), Some(Plus(i.at, cfg.ttl)),
              Some(p.contentDigest(i.body)), Some(StateText(p, i)), Some(PAYMENT_AUTHORIZATION))
  }

  function IssueChallenge(p: Primitives, cfg: Config, i: Issue): Challenge {
    Unsigned(p, cfg, i).(id := Tag(BindingInput(Unsigned(p, cfg, i))))
  }

  /** Every check that runs before the reservation, in its order. */
  function Check(p: Primitives, cfg: Config, c: Challenge, tenant: string, body: string,
                 method_: string, name: string, amount: string, now: nat): Result<PaymentRequest, PaymentError>
  {
    if c.id != Tag(BindingInput(c)) then Err(InvalidChallenge)
    else if c.realm != cfg.realm then Err(InvalidChallenge)
    else if c.method_ != cfg.method_ then Err(MethodUnsupported)
    else if c.expires.None? then Err(InvalidChallenge)
    else if IsAfter(now, c.expires.value) || Less(Plus(now, cfg.ttl), c.expires.value) then Err(Expired)
    else if c.digest.None? then Err(InvalidChallenge)
    else if c.digest.value != p.contentDigest(body) then Err(DigestMismatch)
    else
      var issued := if c.state.Some? then p.decodeIdentity(c.state.value) else None;
      if issued.None? then Err(InvalidChallenge)
      else if issued.value.tenant != TenantBinding(tenant) || issued.value.method_ != method_
           || issued.value.name != name then
        Err(InvalidChallenge)
      else
        var request := p.decodeRequest(c.request);
        if request.None? then Err(InvalidChallenge)
        else if request.value.amount != amount then Err(Insufficient)
        else Ok(request.value)
  }

  /** The tags a client can have seen: challenge identifiers, and the tenant bindings inside their opaque state. */
  ghost predicate Seen(p: Primitives, cfg: Config, issues: set<Issue>, tag: Tag) {
    || (exists i | i in issues :: IssueChallenge(p, cfg, i).id == tag)
    || (exists tenant :: TenantBinding(tenant) == tag)
  }

  /** All the timestamps compared have years of four digits. */
  predicate BeforeLimit(cfg: Config, i: Issue, now: nat) {
    now + cfg.ttl < LIMIT && i.at + cfg.ttl < LIMIT
  }

  predicate WithinLifetime(cfg: Config, i: Issue, now: nat) {
    BeforeLimit(cfg, i, now) ==> i.at <= now <= i.at + cfg.ttl
  }

  /** What a deployment has to configure: an intent without a bar, and a realm that does not begin like a tenant
      binding. Realm and method may contain bars, because they are compared whole. */
  predicate Configured(cfg: Config) {
    BarFree(cfg.intent) && !(TENANT_PREFIX <= cfg.realm)
  }

  // ---------------------------------------------------------------- counting and splitting on bars

  function Bars(s: string): nat {
    if s == "" then 0 else (if s[0] == '|' then 1 else 0) + Bars(s[1..])
  }

  lemma {:induction false} BarsConcat(a: string, b: string)
    ensures Bars(a + b) == Bars(a) + Bars(b)
  {
    if a == "" {
      assert a + b == b;
    } else {
      assert (a + b)[1..] == a[1..] + b;
      BarsConcat(a[1..], b);
    }
  }

  lemma {:induction false} NoBars(s: string)
    ensures Bars(s) == 0 <==> BarFree(s)
  {
    if s != "" {
      NoBars(s[1..]);
      assert s == [s[0]] + s[1..];
    }
  }

  lemma SplitSame(a: string, b: string, d: string)
    requires a + "|" + b == a + "|" + d
    ensures b == d
  {
    assert b == (a + "|" + b)[|a| + 1..] && d == (a + "|" + d)[|a| + 1..];
  }

  lemma SplitLast(a: string, b: string, c: string, d: string)
    requires a + "|" + b == c + "|" + d && BarFree(b) && BarFree(d)
    ensures a == c && b == d
  {
    var left, right := a + "|" + b, c + "|" + d;
    assert left[|a|] == '|' && right[|c|] == '|';
    assert forall i | |a| < i < |left| :: left[i] == b[i - |a| - 1] != '|';
    assert forall i | |c| < i < |right| :: right[i] == d[i - |c| - 1] != '|';
    assert a == left[..|a|] && c == right[..|c|] && b == left[|a| + 1..] && d == right[|c| + 1..];
  }

  lemma BarsThrough(c: Challenge)
    ensures Bars(Through(c)) ==
            4 + Bars(c.intent) + Bars(c.request) + Bars(OrEmpty(c.expires)) + Bars(OrEmpty(c.digest))
                + Bars(OrEmpty(c.state))
  {
    var s1 := c.intent + "|";
    var s2 := s1 + c.request;
    var s3 := s2 + "|";
    var s4 := s3 + OrEmpty(c.expires);
    var s5 := s4 + "|";
    var s6 := s5 + OrEmpty(c.digest);
    BarsConcat(c.intent, "|");
    BarsConcat(s1, c.request);
    BarsConcat(s2, "|");
    BarsConcat(s3, OrEmpty(c.expires));
    BarsConcat(s4, "|");
    BarsConcat(s5, OrEmpty(c.digest));
    BarsConcat(s6, "|");
    BarsConcat(s6 + "|", OrEmpty(c.state));
    assert Bars("|") == 1;
  }

  /** Two bar-free challenges with one slot text agree slot by slot. */
  lemma ThroughInjective(a: Challenge, b: Challenge)
    requires Through(a) == Through(b) && Bars(Through(a)) == 4
    ensures a.intent == b.intent && a.request == b.request && OrEmpty(a.expires) == OrEmpty(b.expires)
    ensures OrEmpty(a.digest) == OrEmpty(b.digest) && OrEmpty(a.state) == OrEmpty(b.state)
  {
    BarsThrough(a);
    BarsThrough(b);
    forall s | s in {a.intent, a.request, OrEmpty(a.expires), OrEmpty(a.digest), OrEmpty(a.state),
                     b.intent, b.request, OrEmpty(b.expires), OrEmpty(b.digest), OrEmpty(b.state)}
      ensures BarFree(s)
    {
      NoBars(s);
    }
    SplitLast(a.intent + "|" + a.request + "|" + OrEmpty(a.expires) + "|" + OrEmpty(a.digest), OrEmpty(a.state),
              b.intent + "|" + b.request + "|" + OrEmpty(b.expires) + "|" + OrEmpty(b.digest), OrEmpty(b.state));
    SplitLast(a.intent + "|" + a.request + "|" + OrEmpty(a.expires), OrEmpty(a.digest),
              b.intent + "|" + b.request + "|" + OrEmpty(b.expires), OrEmpty(b.digest));
    SplitLast(a.intent + "|" + a.request, OrEmpty(a.expires), b.intent + "|" + b.request, OrEmpty(b.expires));
    SplitLast(a.intent, a.request, b.intent, b.request);
  }

  // ---------------------------------------------------------------- slot integrity

  lemma Base64UrlIsBarFree(s: string)
    requires Base64Url(s)
    ensures BarFree(s) && ':' !in s
  {
  }

  /** A number of years is written in digits. */
  lemma {:induction false} YearTextIsBarFree(year: nat)
    ensures BarFree(YearText(year))
  {
    if year >= 10000 {
      YearTextIsBarFree(year / 10);
    }
  }

  lemma FormatIsBarFree(seconds: nat)
    ensures BarFree(Format(seconds))
  {
    TextIsBarFree(InstantOf(seconds));
  }

  lemma TextIsBarFree(t: Instant)
    requires ValidInstant(t)
    ensures BarFree(Text(t))
  {
    YearTextIsBarFree(t.date.year);
  }

  /** Bar-free fields leave only the four separators. */
  lemma FourBars(c: Challenge)
    requires BarFree(c.intent) && BarFree(c.request) && BarFree(OrEmpty(c.expires)) && BarFree(OrEmpty(c.digest))
             && BarFree(OrEmpty(c.state))
    ensures Bars(Through(c)) == 4
  {
    BarsThrough(c);
    NoBars(c.intent);
    NoBars(c.request);
    NoBars(OrEmpty(c.expires));
    NoBars(OrEmpty(c.digest));
    NoBars(OrEmpty(c.state));
  }

  lemma EncodedTexts(p: Primitives, cfg: Config, i: Issue)
    requires Ideal(p)
    ensures p.decodeRequest(RequestText(p, cfg, i.amount))
            == Some(PaymentRequest(i.amount, cfg.currency, cfg.recipient))
    ensures p.decodeIdentity(StateText(p, i)) == Some(IdentityOf(i))
    ensures Base64Url(RequestText(p, cfg, i.amount)) && Base64Url(StateText(p, i))
  {
    var request := PaymentRequest(i.amount, cfg.currency, cfg.recipient);
    assert p.decodeRequest(p.encodeRequest(request)) == Some(request);
    assert p.decodeIdentity(p.encodeIdentity(IdentityOf(i))) == Some(IdentityOf(i));
  }

  lemma ExpiryIsBarFree(at: nat, ttl: nat)
    ensures BarFree(Plus(at, ttl))
  {
    FormatIsBarFree(Saturate(at + ttl));
  }

  lemma IssuedFields(p: Primitives, cfg: Config, i: Issue)
    requires Ideal(p)
    ensures var c := IssueChallenge(p, cfg, i);
            && Base64Url(c.request) && Base64Url(c.state.value) && BarFree(c.digest.value) && BarFree(c.expires.value)
            && c.intent == cfg.intent && c.header == Some("Payment-Authorization") && BarFree(PAYMENT_AUTHORIZATION)
  {
    EncodedTexts(p, cfg, i);
    ExpiryIsBarFree(i.at, cfg.ttl);
    HeaderIsBarFree();
    assert BarFree(p.contentDigest(i.body));
  }

  lemma HeaderIsBarFree()
    ensures BarFree(PAYMENT_AUTHORIZATION)
  {
  }

  lemma IssuedSlots(p: Primitives, cfg: Config, i: Issue)
    requires Ideal(p) && Configured(cfg)
    ensures Bars(Through(IssueChallenge(p, cfg, i))) == 4
  {
    var c := IssueChallenge(p, cfg, i);
    IssuedFields(p, cfg, i);
    Base64UrlIsBarFree(c.request);
    Base64UrlIsBarFree(c.state.value);
    assert c.intent == cfg.intent;
    FourBars(c);
  }

  /** No tenant binding is the tag of a presented challenge. */
  lemma TenantBindingIsNoChallenge(cfg: Config, c: Challenge, tenant: string)
    requires Configured(cfg) && c.realm == cfg.realm
    ensures Tag(BindingInput(c)) != TenantBinding(tenant)
  {
    var input := BindingInput(c);
    assert !(TENANT_PREFIX <= input) by {
      assert BarFree(TENANT_PREFIX);
      if |c.realm| >= |TENANT_PREFIX| {
        assert input[..|TENANT_PREFIX|] == c.realm[..|TENANT_PREFIX|];
      } else {
        assert input[|c.realm|] == '|';
      }
    }
    assert TENANT_PREFIX <= TENANT_PREFIX + tenant;
  }

  /** An echo that signs like an issued challenge and passes the later checks is that challenge, slot by slot. The echo
      may put bars in its fields and may leave the header out; the digest and the opaque state pin every split. */
  lemma SlotsDetermineTheChallenge(p: Primitives, cfg: Config, echo: Challenge, i: Issue, body: string)
    requires Ideal(p) && Configured(cfg)
    requires Slots(echo) == Slots(IssueChallenge(p, cfg, i))
    requires echo.expires.Some? && echo.digest == Some(p.contentDigest(body))
    requires echo.state.Some? && p.decodeIdentity(echo.state.value).Some?
    ensures var c := IssueChallenge(p, cfg, i);
            && echo.intent == c.intent && echo.request == c.request && echo.expires == c.expires
            && echo.digest == c.digest && echo.state == c.state && echo.header == c.header
  {
    var c := IssueChallenge(p, cfg, i);
    IssuedSlots(p, cfg, i);
    IssuedFields(p, cfg, i);
    Base64UrlIsBarFree(echo.state.value);
    Base64UrlIsBarFree(c.state.value);
    HeaderIsPresent(echo, c);
    SplitSlots(echo, c);
  }

  /** Without a header the last slots of the echo would read state = header and digest = state, but a digest has a
      colon. */
  lemma HeaderIsPresent(echo: Challenge, c: Challenge)
    requires Slots(echo) == Slots(c) && c.header.Some? && BarFree(c.header.value)
    requires echo.digest.Some? && BarFree(echo.digest.value) && ':' in echo.digest.value && echo.state.Some?
             && BarFree(echo.state.value)
    requires c.state.Some? && BarFree(c.state.value) && ':' !in c.state.value
    ensures echo.header.Some?
  {
    if echo.header.None? {
      var front := echo.intent + "|" + echo.request + "|" + OrEmpty(echo.expires);
      SlotsOf(c);
      assert Through(echo) + "" == Through(echo);
      assert Slots(echo) == front + "|" + echo.digest.value + "|" + echo.state.value;
      SplitLast(front + "|" + echo.digest.value, echo.state.value, Through(c), c.header.value);
      SplitLast(front, echo.digest.value,
                c.intent + "|" + c.request + "|" + OrEmpty(c.expires) + "|" + OrEmpty(c.digest), c.state.value);
      assert false;
    }
  }

  lemma SplitSlots(echo: Challenge, c: Challenge)
    requires Slots(echo) == Slots(c) && echo.header.Some? && c.header.Some?
    requires Bars(Through(c)) == 4 && BarFree(c.header.value)
    ensures echo.intent == c.intent && echo.request == c.request && OrEmpty(echo.expires) == OrEmpty(c.expires)
    ensures OrEmpty(echo.digest) == OrEmpty(c.digest) && OrEmpty(echo.state) == OrEmpty(c.state)
            && echo.header == c.header
  {
    SlotsOf(echo);
    SlotsOf(c);
    CountBars(echo, c);
    SplitLast(Through(echo), echo.header.value, Through(c), c.header.value);
    ThroughInjective(echo, c);
  }

  lemma SlotsOf(c: Challenge)
    requires c.header.Some?
    ensures Slots(c) == Through(c) + "|" + c.header.value
  {
    assert Through(c) + ("|" + c.header.value) == Through(c) + "|" + c.header.value;
  }

  /** Four separators and a fifth leave no bar for the fields. */
  lemma CountBars(echo: Challenge, c: Challenge)
    requires echo.header.Some? && c.header.Some? && Bars(Through(c)) == 4 && BarFree(c.header.value)
    requires Through(echo) + "|" + echo.header.value == Through(c) + "|" + c.header.value
    ensures Bars(Through(echo)) == 4 && BarFree(echo.header.value)
  {
    BarsThrough(echo);
    BarsConcat(Through(echo) + "|", echo.header.value);
    BarsConcat(Through(echo), "|");
    BarsConcat(Through(c) + "|", c.header.value);
    BarsConcat(Through(c), "|");
    NoBars(c.header.value);
    NoBars(echo.header.value);
  }

  /** A credential that passes every check is an issued challenge, unaltered, and is redeemed for what it was issued
      for: the same tenant, priced identity, amount and body at any time, and within its lifetime while years have
      four digits. */
  lemma RedeemedAsIssued(p: Primitives, cfg: Config, issues: set<Issue>, echo: Challenge, tenant: string, body: string,
                         method_: string, name: string, amount: string, now: nat)
    requires Ideal(p) && Configured(cfg)
    requires Seen(p, cfg, issues, echo.id)
    requires Check(p, cfg, echo, tenant, body, method_, name, amount, now).Ok?
    ensures exists i | i in issues ::
              && echo == IssueChallenge(p, cfg, i)
              && i.tenant == tenant && i.method_ == method_ && i.name == name && i.amount == amount && i.body == body
              && WithinLifetime(cfg, i, now)
  {
    var i := RedeemedIssue(p, cfg, issues, echo, tenant, body, method_, name, amount, now);
  }

  lemma RedeemedIssue(p: Primitives, cfg: Config, issues: set<Issue>, echo: Challenge, tenant: string, body: string,
                      method_: string, name: string, amount: string, now: nat) returns (i: Issue)
    requires Ideal(p) && Configured(cfg)
    requires Seen(p, cfg, issues, echo.id)
    requires Check(p, cfg, echo, tenant, body, method_, name, amount, now).Ok?
    ensures i in issues && echo == IssueChallenge(p, cfg, i)
    ensures i.tenant == tenant && i.method_ == method_ && i.name == name && i.amount == amount && i.body == body
    ensures WithinLifetime(cfg, i, now)
  {
    i := EchoIsIssued(p, cfg, issues, echo, body);
    ChecksPin(p, cfg, i, tenant, body, method_, name, amount, now);
  }

  lemma EchoIsIssued(p: Primitives, cfg: Config, issues: set<Issue>, echo: Challenge, body: string) returns (i: Issue)
    requires Ideal(p) && Configured(cfg)
    requires Seen(p, cfg, issues, echo.id)
    requires echo.id == Tag(BindingInput(echo)) && echo.realm == cfg.realm && echo.method_ == cfg.method_
    requires echo.expires.Some? && echo.digest == Some(p.contentDigest(body))
    requires echo.state.Some? && p.decodeIdentity(echo.state.value).Some?
    ensures i in issues && echo == IssueChallenge(p, cfg, i)
  {
    forall t ensures TenantBinding(t) != echo.id {
      TenantBindingIsNoChallenge(cfg, echo, t);
    }
    i :| i in issues && IssueChallenge(p, cfg, i).id == echo.id;
    SameInput(p, cfg, echo, i);
    SlotsDetermineTheChallenge(p, cfg, echo, i, body);
  }

  lemma SameInput(p: Primitives, cfg: Config, echo: Challenge, i: Issue)
    requires Configured(cfg) && echo.realm == cfg.realm && echo.method_ == cfg.method_
    requires Tag(BindingInput(echo)) == IssueChallenge(p, cfg, i).id
    ensures Slots(echo) == Slots(IssueChallenge(p, cfg, i))
  {
    var c := IssueChallenge(p, cfg, i);
    SignedOver(p, cfg, i);
    SplitSame(c.realm, echo.method_ + "|" + Slots(echo), c.method_ + "|" + Slots(c));
    SplitSame(c.method_, Slots(echo), Slots(c));
  }

  lemma SignedOver(p: Primitives, cfg: Config, i: Issue)
    ensures IssueChallenge(p, cfg, i).id == Tag(BindingInput(IssueChallenge(p, cfg, i)))
  {
  }

  lemma ChecksPin(p: Primitives, cfg: Config, i: Issue, tenant: string, body: string,
                  method_: string, name: string, amount: string, now: nat)
    requires Ideal(p)
    requires Check(p, cfg, IssueChallenge(p, cfg, i), tenant, body, method_, name, amount, now).Ok?
    ensures i.tenant == tenant && i.method_ == method_ && i.name == name && i.amount == amount && i.body == body
    ensures WithinLifetime(cfg, i, now)
  {
    var c := IssueChallenge(p, cfg, i);
    EncodedTexts(p, cfg, i);
    assert TenantBinding(tenant).input[|TENANT_PREFIX|..] == tenant;
    assert TenantBinding(i.tenant).input[|TENANT_PREFIX|..] == i.tenant;
    assert p.contentDigest(body) == p.contentDigest(i.body);
    assert c.expires.value == Plus(i.at, cfg.ttl);
    assert InWindow(now, cfg.ttl, Plus(i.at, cfg.ttl));
    if BeforeLimit(cfg, i, now) {
      IssuedWindow(now, cfg.ttl, i.at);
    }
  }

  /** An issued challenge, echoed as it was, is redeemed by exactly the call it was issued for, within its lifetime;
      and each refusal gives the first of its reasons: too late or too early, another body, another caller or
      identity, another price. */
  lemma IssuedIsRedeemable(p: Primitives, cfg: Config, i: Issue, tenant: string, body: string,
                           method_: string, name: string, amount: string, now: nat)
    requires Ideal(p)
    requires now + cfg.ttl < LIMIT && i.at + cfg.ttl < LIMIT
    ensures var verdict := Check(p, cfg, IssueChallenge(p, cfg, i), tenant, body, method_, name, amount, now);
            && (verdict.Ok? <==>
                && i.tenant == tenant && i.method_ == method_ && i.name == name && i.amount == amount && i.body == body
                && i.at <= now <= i.at + cfg.ttl)
            && (verdict.Ok? ==> verdict.value == PaymentRequest(amount, cfg.currency, cfg.recipient))
            && (verdict == Err(Expired) <==> !(i.at <= now <= i.at + cfg.ttl))
            && (verdict == Err(DigestMismatch) <==> i.at <= now <= i.at + cfg.ttl && i.body != body)
            && (verdict == Err(InvalidChallenge) <==>
                && i.at <= now <= i.at + cfg.ttl && i.body == body
                && (i.tenant != tenant || i.method_ != method_ || i.name != name))
            && (verdict == Err(Insufficient) <==>
                && i.at <= now <= i.at + cfg.ttl && i.body == body
                && i.tenant == tenant && i.method_ == method_ && i.name == name && i.amount != amount)
  {
    var c := IssueChallenge(p, cfg, i);
    EncodedTexts(p, cfg, i);
    SignedOver(p, cfg, i);
    IssuedWindow(now, cfg.ttl, i.at);
    VerdictByFields(p, cfg, c, IdentityOf(i), PaymentRequest(i.amount, cfg.currency, cfg.recipient), i.body,
                    tenant, body, method_, name, amount, now);
    assert TenantBinding(tenant).input[|TENANT_PREFIX|..] == tenant;
    assert TenantBinding(i.tenant).input[|TENANT_PREFIX|..] == i.tenant;
  }

  /** The verdict on a correctly signed challenge, field by field. */
  lemma VerdictByFields(p: Primitives, cfg: Config, c: Challenge, identity: PricedIdentity, request: PaymentRequest,
                        issuedFor: string, tenant: string, body: string, method_: string, name: string, amount: string,
                        now: nat)
    requires Ideal(p)
    requires c.id == Tag(BindingInput(c)) && c.realm == cfg.realm && c.method_ == cfg.method_
    requires c.expires.Some? && c.digest == Some(p.contentDigest(issuedFor))
    requires c.state.Some? && p.decodeIdentity(c.state.value) == Some(identity)
    requires p.decodeRequest(c.request) == Some(request)
    ensures Check(p, cfg, c, tenant, body, method_, name, amount, now) ==
            if !InWindow(now, cfg.ttl, c.expires.value) then Err(Expired)
            else if issuedFor != body then Err(DigestMismatch)
            else if identity.tenant != TenantBinding(tenant) || identity.method_ != method_
                 || identity.name != name then
              Err(InvalidChallenge)
            else if request.amount != amount then Err(Insufficient)
            else Ok(request)
  {
    assert p.contentDigest(issuedFor) == p.contentDigest(body) ==> issuedFor == body;
  }

  /** An altered challenge no longer fits its identifier, and one of another deployment is refused for what it is. */
  lemma ForeignIsRefused(p: Primitives, cfg: Config, other: Config, c: Challenge, i: Issue, tenant: string,
                         body: string,
                         method_: string, name: string, amount: string, now: nat)
    ensures c.id.input != BindingInput(c) ==>
              Check(p, cfg, c, tenant, body, method_, name, amount, now) == Err(InvalidChallenge)
    ensures other.realm != cfg.realm ==>
              Check(p, cfg, IssueChallenge(p, other, i), tenant, body, method_, name, amount, now)
                  == Err(InvalidChallenge)
    ensures other.realm == cfg.realm && other.method_ != cfg.method_ ==>
              Check(p, cfg, IssueChallenge(p, other, i), tenant, body, method_, name, amount, now)
                  == Err(MethodUnsupported)
  {
    SignedOver(p, other, i);
  }

  lemma IssuedWindow(now: nat, ttl: nat, at: nat)
    requires now + ttl < LIMIT && at + ttl < LIMIT
    ensures InWindow(now, ttl, Plus(at, ttl)) <==> at <= now <= at + ttl
  {
    WindowIsNumeric(now, ttl, Saturate(at + ttl));
  }

  /** A challenge whose expiry needs a year of five or six digits is never redeemed: its expiry does not read back. */
  lemma FarExpiryIsRefused(p: Primitives, cfg: Config, i: Issue, tenant: string, body: string,
                           method_: string, name: string, amount: string, now: nat)
    requires 10000 <= InstantOf(Saturate(i.at + cfg.ttl)).date.year < 1000000
    ensures Check(p, cfg, IssueChallenge(p, cfg, i), tenant, body, method_, name, amount, now) == Err(Expired)
  {
    SignedOver(p, cfg, i);
    FarExpiryIsPast(i.at, cfg.ttl, now);
    RefusedAsExpired(p, cfg, IssueChallenge(p, cfg, i), tenant, body, method_, name, amount, now, Plus(i.at, cfg.ttl));
  }

  lemma FarExpiryIsPast(at: nat, ttl: nat, now: nat)
    requires 10000 <= InstantOf(Saturate(at + ttl)).date.year < 1000000
    ensures IsAfter(now, Plus(at, ttl))
  {
    LongYearDoesNotParse(InstantOf(Saturate(at + ttl)));
  }

  lemma RefusedAsExpired(p: Primitives, cfg: Config, c: Challenge, tenant: string, body: string,
                         method_: string, name: string, amount: string, now: nat, expires: string)
    requires c.id == Tag(BindingInput(c)) && c.realm == cfg.realm && c.method_ == cfg.method_
    requires c.expires == Some(expires) && IsAfter(now, expires)
    ensures Check(p, cfg, c, tenant, body, method_, name, amount, now) == Err(Expired)
  {
  }

  /** Two challenges share an identifier only when they share their nonce and every bound parameter. */
  lemma IdentifierNamesOneChallenge(p: Primitives, cfg: Config, i: Issue, j: Issue)
    requires Ideal(p) && Configured(cfg)
    requires IssueChallenge(p, cfg, i).id == IssueChallenge(p, cfg, j).id
    ensures IssueChallenge(p, cfg, i) == IssueChallenge(p, cfg, j)
    ensures i.nonce == j.nonce && i.body == j.body && i.amount == j.amount
  {
    var a, b := IssueChallenge(p, cfg, i), IssueChallenge(p, cfg, j);
    SignedOver(p, cfg, i);
    SameInput(p, cfg, a, j);
    EncodedTexts(p, cfg, i);
    EncodedTexts(p, cfg, j);
    SlotsDetermineTheChallenge(p, cfg, a, j, i.body);
  }

  lemma SplitFirst(a: string, b: string, c: string, d: string)
    requires a + "|" + b == c + "|" + d && BarFree(a) && BarFree(c)
    ensures a == c && b == d
  {
    var left, right := a + "|" + b, c + "|" + d;
    assert left[|a|] == '|' && right[|c|] == '|';
    assert forall i | 0 <= i < |a| :: left[i] == a[i] != '|';
    assert forall i | 0 <= i < |c| :: right[i] == c[i] != '|';
    assert a == left[..|a|] && c == right[..|c|] && b == left[|a| + 1..] && d == right[|c| + 1..];
  }

  /** Between deployments whose realm and method have no bar either, an identifier binds those too. */
  lemma IdentifierBindsTheDeployment(p: Primitives, cfg: Config, i: Issue, other: Config, j: Issue)
    requires Ideal(p) && Configured(cfg) && Configured(other)
    requires BarFree(cfg.realm) && BarFree(other.realm) && BarFree(cfg.method_) && BarFree(other.method_)
    requires IssueChallenge(p, cfg, i).id == IssueChallenge(p, other, j).id
    ensures IssueChallenge(p, cfg, i) == IssueChallenge(p, other, j)
    ensures cfg.realm == other.realm && cfg.method_ == other.method_ && cfg.intent == other.intent
  {
    var a, b := IssueChallenge(p, cfg, i), IssueChallenge(p, other, j);
    SignedOver(p, cfg, i);
    SignedOver(p, other, j);
    SplitFirst(a.realm, a.method_ + "|" + Slots(a), b.realm, b.method_ + "|" + Slots(b));
    SplitFirst(a.method_, Slots(a), b.method_, Slots(b));
    EncodedTexts(p, cfg, i);
    SlotsDetermineTheChallenge(p, other, a, j, i.body);
  }
}
