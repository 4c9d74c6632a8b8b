/** Encoders and a digest that meet every assumption `Payments.Ideal` makes, so its theorems are about something. */
module IdealPrimitives {
  import opened Prelude
  import opened Payments

  function Unary(n: nat): string {
    if n == 0 then "b" else "a" + Unary(n - 1)
  }

  /** A text in three letters, one of which ends it: no code is the beginning of another. */
  function Spell(s: string): string {
    if s == "" then "c" else Unary(s[0] as int) + Spell(s[1..])
  }

  predicate Letters(s: string) {
    forall c | c in s :: 'a' <= c <= 'c'
  }

  lemma {:induction false} UnaryInjective(m: nat, x: string, n: nat, y: string)
    requires Unary(m) + x == Unary(n) + y
    ensures m == n && x == y
  {
    var left, right := Unary(m) + x, Unary(n) + y;
    assert left[0] == (if m == 0 then 'b' else 'a') && right[0] == if n == 0 then 'b' else 'a';
    if m == 0 {
      assert x == left[1..] == right[1..] == y;
    } else {
      assert left[1..] == Unary(m - 1) + x && right[1..] == Unary(n - 1) + y;
      UnaryInjective(m - 1, x, n - 1, y);
    }
  }

  lemma FirstLetter(s: string, x: string)
    ensures (Spell(s) + x)[0] == if s == "" then 'c' else if s[0] as int == 0 then 'b' else 'a'
  {
    if s != "" {
      assert Spell(s)[0] == Unary(s[0] as int)[0];
    }
  }

  lemma {:induction false} SpellInjective(s: string, x: string, t: string, y: string)
    requires Spell(s) + x == Spell(t) + y
    ensures s == t && x == y
  {
    FirstLetter(s, x);
    FirstLetter(t, y);
    if s == "" {
      assert x == (Spell(s) + x)[1..] && y == (Spell(t) + y)[1..];
    } else {
      assert Spell(s) + x == Unary(s[0] as int) + (Spell(s[1..]) + x);
      assert Spell(t) + y == Unary(t[0] as int) + (Spell(t[1..]) + y);
      UnaryInjective(s[0] as int, Spell(s[1..]) + x, t[0] as int, Spell(t[1..]) + y);
      SpellInjective(s[1..], x, t[1..], y);
      assert s == [s[0]] + s[1..] && t == [t[0]] + t[1..];
    }
  }

  lemma {:induction false} UnaryLetters(n: nat)
    ensures Letters(Unary(n))
  {
    if n > 0 {
      UnaryLetters(n - 1);
    }
  }

  lemma {:induction false} SpellLetters(s: string)
    ensures Letters(Spell(s))
  {
    if s != "" {
      UnaryLetters(s[0] as int);
      SpellLetters(s[1..]);
    }
  }

  function EncodeRequest(r: PaymentRequest): string {
    Spell(r.amount) + (Spell(r.currency) + (Spell(r.recipient) + ""))
  }

  function EncodeIdentity(i: PricedIdentity): string {
    Spell(i.tenant.input) + (Spell(i.method_) + (Spell(i.name) + (Spell(i.nonce) + "")))
  }

  function Digest(body: string): string {
    ":" + (Spell(body) + "")
  }

  ghost function DecodeRequest(s: string): Option<PaymentRequest> {
    if exists r :: EncodeRequest(r) == s then var r :| EncodeRequest(r) == s; Some(r) else None
  }

  ghost function DecodeIdentity(s: string): Option<PricedIdentity> {
    if exists i :: EncodeIdentity(i) == s then var i :| EncodeIdentity(i) == s; Some(i) else None
  }

  lemma RequestInjective(a: PaymentRequest, b: PaymentRequest)
    requires EncodeRequest(a) == EncodeRequest(b)
    ensures a == b
  {
    SpellInjective(a.amount, Spell(a.currency) + (Spell(a.recipient) + ""), b.amount,
                   Spell(b.currency) + (Spell(b.recipient) + ""));
    SpellInjective(a.currency, Spell(a.recipient) + "", b.currency, Spell(b.recipient) + "");
    SpellInjective(a.recipient, "", b.recipient, "");
  }

  lemma IdentityInjective(a: PricedIdentity, b: PricedIdentity)
    requires EncodeIdentity(a) == EncodeIdentity(b)
    ensures a == b
  {
    SpellInjective(a.tenant.input, Spell(a.method_) + (Spell(a.name) + (Spell(a.nonce) + "")),
                   b.tenant.input, Spell(b.method_) + (Spell(b.name) + (Spell(b.nonce) + "")));
    SpellInjective(a.method_, Spell(a.name) + (Spell(a.nonce) + ""), b.method_, Spell(b.name) + (Spell(b.nonce) + ""));
    SpellInjective(a.name, Spell(a.nonce) + "", b.name, Spell(b.nonce) + "");
    SpellInjective(a.nonce, "", b.nonce, "");
  }

  lemma EncodedLetters(r: PaymentRequest, i: PricedIdentity)
    ensures Letters(EncodeRequest(r)) && Letters(EncodeIdentity(i))
  {
    SpellLetters(r.amount);
    SpellLetters(r.currency);
    SpellLetters(r.recipient);
    SpellLetters(i.tenant.input);
    SpellLetters(i.method_);
    SpellLetters(i.name);
    SpellLetters(i.nonce);
  }

  lemma DecodersInvert(r: PaymentRequest, i: PricedIdentity)
    ensures DecodeRequest(EncodeRequest(r)) == Some(r) && DecodeIdentity(EncodeIdentity(i)) == Some(i)
  {
    RequestInjective(DecodeRequest(EncodeRequest(r)).value, r);
    IdentityInjective(DecodeIdentity(EncodeIdentity(i)).value, i);
  }

  lemma DigestIsIdeal(b: string, c: string)
    ensures BarFree(Digest(b)) && ':' in Digest(b) && (Digest(b) == Digest(c) ==> b == c)
  {
    SpellLetters(b);
    assert Digest(b)[0] == ':';
    if Digest(b) == Digest(c) {
      assert Spell(b) + "" == Digest(b)[1..] && Spell(c) + "" == Digest(c)[1..];
      SpellInjective(b, "", c, "");
    }
  }

  lemma AcceptedAlphabet(s: string)
    ensures DecodeRequest(s).Some? || DecodeIdentity(s).Some? ==> Base64Url(s)
  {
    if DecodeRequest(s).Some? {
      var r :| EncodeRequest(r) == s;
      EncodedLetters(r, PricedIdentity(Tag(""), "", "", ""));
    }
    if DecodeIdentity(s).Some? {
      var i :| EncodeIdentity(i) == s;
      EncodedLetters(PaymentRequest("", "", ""), i);
    }
  }

  /** The assumptions about the libraries can be met together. */
  lemma IdealPrimitivesExist() returns (p: Primitives)
    ensures Ideal(p)
  {
    p := Primitives(EncodeRequest, DecodeRequest, EncodeIdentity, DecodeIdentity, Digest);
    forall s ensures p.decodeRequest(s).Some? || p.decodeIdentity(s).Some? ==> Base64Url(s) {
      AcceptedAlphabet(s);
    }
    forall r ensures p.decodeRequest(p.encodeRequest(r)) == Some(r) {
      DecodersInvert(r, PricedIdentity(Tag(""), "", "", ""));
    }
    forall i ensures p.decodeIdentity(p.encodeIdentity(i)) == Some(i) {
      DecodersInvert(PaymentRequest("", "", ""), i);
    }
    forall b, c ensures BarFree(p.contentDigest(b)) && ':' in p.contentDigest(b)
      ensures p.contentDigest(b) == p.contentDigest(c) ==> b == c
    {
      DigestIsIdeal(b, c);
    }
  }
}
