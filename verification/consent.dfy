/** The signature on the consent page: what it covers, and what verifies against it. */
module Consent {
  import opened Basics
  import opened Bytes

  /** An authorization request. Scopes are not signed: the user picks them on the page. */
  datatype Request = Request(
    client: bytes, redirect: bytes, state: bytes, challenge: bytes, resource: bytes, scopes: seq<bytes>)

  /** No key is the zero signer. mac is HMAC-SHA-256 under the key. */
  datatype Signer = Signer(key: bytes, mac: bytes -> bytes)

  const TTL := 600
  const MAX_INT64 := 0x7FFF_FFFF_FFFF_FFFF
  const TWO_64 := 0x1_0000_0000_0000_0000

  const POINT: byte := 0x2E
  const PLUS: byte := 0x2B
  const MINUS: byte := 0x2D

  predicate Int64(n: int) {
    -MAX_INT64 - 1 <= n <= MAX_INT64
  }

  // ---- what is signed

  /** The low k bytes of n, the highest first. */
  function BigEndian(n: nat, k: nat): (b: bytes)
    ensures |b| == k
  {
    if k == 0 then [] else BigEndian(n / 256, k - 1) + [n % 256]
  }

  function FromBigEndian(b: bytes): nat {
    if b == [] then 0 else 256 * FromBigEndian(b[..|b| - 1]) + b[|b| - 1]
  }

  function Power256(k: nat): nat {
    if k == 0 then 1 else 256 * Power256(k - 1)
  }

  lemma {:induction false} BigEndianRoundTrip(n: nat, k: nat)
    requires n < Power256(k)
    ensures FromBigEndian(BigEndian(n, k)) == n
  {
    if k > 0 {
      BigEndianRoundTrip(n / 256, k - 1);
      assert BigEndian(n, k)[..k - 1] == BigEndian(n / 256, k - 1);
    }
  }

  /** The conversion uint64(n) of an int64. */
  function Unsigned(n: int): nat
    requires Int64(n)
  {
    if n < 0 then n + TWO_64 else n
  }

  function Word(n: nat): bytes {
    BigEndian(n, 8)
  }

  lemma WordIsInjective(m: nat, n: nat)
    requires m < TWO_64 && n < TWO_64 && Word(m) == Word(n)
    ensures m == n
  {
    assert Power256(8) == TWO_64 by {
      assert Power256(4) == 0x1_0000_0000;
    }
    BigEndianRoundTrip(m, 8);
    BigEndianRoundTrip(n, 8);
  }

  /** Every field behind its length. */
  function Prefixed(fields: seq<bytes>): bytes {
    if fields == [] then [] else Prefixed(fields[..|fields| - 1]) + Word(|fields[|fields| - 1]|) + fields[|fields| - 1]
  }

  function Fields(user: bytes, req: Request): seq<bytes> {
    [user, req.client, req.redirect, req.state, req.challenge, req.resource]
  }

  function Encoded(exp: int, user: bytes, req: Request): bytes
    requires Int64(exp)
  {
    Word(Unsigned(exp)) + Prefixed(Fields(user, req))
  }

  /** A Go string's length is an int. */
  predicate Lengths(fields: seq<bytes>) {
    forall i :: 0 <= i < |fields| ==> |fields[i]| <= MAX_INT64
  }

  predicate Sizes(user: bytes, req: Request) {
    Lengths(Fields(user, req))
  }

  /** mac writes the expiry, then each field, into the hash. */
  method MacInput(exp: int, user: bytes, req: Request) returns (written: bytes)
    requires Int64(exp)
    ensures written == Encoded(exp, user, req)
  {
    hide BigEndian;
    written := Word(Unsigned(exp));
    var fields := Fields(user, req);
    for i := 0 to |fields|
      invariant written == Word(Unsigned(exp)) + Prefixed(fields[..i])
    {
      assert fields[..i + 1][..i] == fields[..i];
      written := written + Word(|fields[i]|);
      written := written + fields[i];
    }
    assert fields[..|fields|] == fields;
  }

  lemma FieldIsReadBack(f: bytes, g: bytes, r: bytes, s: bytes)
    requires |f| <= MAX_INT64 && |g| <= MAX_INT64
    requires Word(|f|) + f + r == Word(|g|) + g + s
    ensures f == g && r == s
  {
    var a, b := Word(|f|) + f + r, Word(|g|) + g + s;
    assert a[..8] == Word(|f|) && b[..8] == Word(|g|);
    WordIsInjective(|f|, |g|);
    assert a[8..8 + |f|] == f && b[8..8 + |g|] == g;
    assert a[8 + |f|..] == r && b[8 + |g|..] == s;
  }

  lemma {:induction false} PrefixedFront(f: bytes, rest: seq<bytes>)
    ensures Prefixed([f] + rest) == Word(|f|) + f + Prefixed(rest)
  {
    hide BigEndian;
    var all := [f] + rest;
    if rest == [] {
      assert all[..0] == [];
      assert Prefixed(all) == Prefixed(all[..0]) + Word(|f|) + f;
    } else {
      var n := |rest| - 1;
      PrefixedFront(f, rest[..n]);
      assert all[..n + 1] == [f] + rest[..n];
    }
  }

  lemma {:induction false} PrefixedIsInjective(a: seq<bytes>, b: seq<bytes>)
    requires |a| == |b| && Lengths(a) && Lengths(b) && Prefixed(a) == Prefixed(b)
    ensures a == b
  {
    hide Prefixed, Word;
    if a != [] {
      assert a == [a[0]] + a[1..] && b == [b[0]] + b[1..];
      PrefixedFront(a[0], a[1..]);
      PrefixedFront(b[0], b[1..]);
      FieldIsReadBack(a[0], b[0], Prefixed(a[1..]), Prefixed(b[1..]));
      PrefixedIsInjective(a[1..], b[1..]);
    }
  }

  /** The signed bytes determine the expiry, the user and every field: "ab" + "c" and "a" + "bc" sign
      differently. */
  lemma EncodedIsInjective(e: int, u: bytes, r: Request, f: int, v: bytes, s: Request)
    requires Int64(e) && Int64(f) && Sizes(u, r) && Sizes(v, s) && Encoded(e, u, r) == Encoded(f, v, s)
    ensures e == f && u == v && r.(scopes := []) == s.(scopes := [])
  {
    hide Prefixed, BigEndian;
    var a, b := Encoded(e, u, r), Encoded(f, v, s);
    assert a[..8] == Word(Unsigned(e)) && b[..8] == Word(Unsigned(f));
    WordIsInjective(Unsigned(e), Unsigned(f));
    assert a[8..] == Prefixed(Fields(u, r)) && b[8..] == Prefixed(Fields(v, s));
    PrefixedIsInjective(Fields(u, r), Fields(v, s));
    assert Fields(u, r)[0] == u && Fields(u, r)[1] == r.client && Fields(u, r)[2] == r.redirect &&
           Fields(u, r)[3] == r.state && Fields(u, r)[4] == r.challenge && Fields(u, r)[5] == r.resource;
    assert Fields(v, s)[0] == v && Fields(v, s)[1] == s.client && Fields(v, s)[2] == s.redirect &&
           Fields(v, s)[3] == s.state && Fields(v, s)[4] == s.challenge && Fields(v, s)[5] == s.resource;
  }

  // ---- decimal

  /** strconv.FormatInt(n, 10). */
  function FormatInt(n: int): bytes {
    if n < 0 then [MINUS] + Decimal(-n) else Decimal(n)
  }

  /** The number a run of digits spells, leading zeros or not. */
  function Digits(s: bytes): (n: Option<nat>) {
    if s == [] then Some(0)
    else if !IsDigit(s[|s| - 1]) then None
    else
      match Digits(s[..|s| - 1])
      case None => None
      case Some(high) => Some(10 * high + (s[|s| - 1] - 0x30))
  }

  /** strconv.ParseInt(s, 10, 64): one optional sign, at least one digit, in range. */
  function ParseInt(s: bytes): (n: Option<int>)
    ensures n.Some? ==> Int64(n.value)
  {
    var signed := s != [] && (s[0] == PLUS || s[0] == MINUS);
    var digits := if signed then s[1..] else s;
    if digits == [] then None
    else
      match Digits(digits)
      case None => None
      case Some(m) =>
        var n := (if signed && s[0] == MINUS then -1 else 1) * m;
        if Int64(n) then Some(n) else None
  }

  lemma {:induction false} DecimalIsDigits(n: nat)
    ensures Digits(Decimal(n)) == Some(n)
    decreases n
  {
    var s := Decimal(n);
    if n < 10 {
      assert s[..|s| - 1] == [];
    } else {
      DecimalIsDigits(n / 10);
      assert s[..|s| - 1] == Decimal(n / 10);
    }
  }

  lemma ParsesWhatWasFormatted(n: int)
    requires Int64(n)
    ensures ParseInt(FormatInt(n)) == Some(n)
    ensures POINT !in FormatInt(n)
  {
    hide Digits;
    DecimalIsDigits(if n < 0 then -n else n);
    if n < 0 {
      assert FormatInt(n)[1..] == Decimal(-n);
    } else {
      assert IsDigit(Decimal(n)[0]);
    }
  }

  // ---- hex

  function HexDigit(n: nat): byte
    requires n < 16
  {
    if n < 10 then 0x30 + n else 0x57 + n
  }

  function HexValue(b: byte): (n: Option<nat>)
    ensures n.Some? ==> n.value < 16
  {
    if 0x30 <= b <= 0x39 then Some(b - 0x30)
    else if 0x61 <= b <= 0x66 then Some(b - 0x57)
    else if 0x41 <= b <= 0x46 then Some(b - 0x37)
    else None
  }

  /** hex.EncodeToString. */
  function Hex(s: bytes): bytes {
    if s == [] then [] else [HexDigit(s[0] / 16), HexDigit(s[0] % 16)] + Hex(s[1..])
  }

  /** hex.DecodeString: pairs of digits in either case. */
  function Unhex(s: bytes): Option<bytes> {
    if s == [] then Some([])
    else if |s| == 1 then None
    else
      match (HexValue(s[0]), HexValue(s[1]), Unhex(s[2..]))
      case (Some(h), Some(l), Some(rest)) => Some([h * 16 + l] + rest)
      case _ => None
  }

  lemma {:induction false} HexRoundTrip(s: bytes)
    ensures Unhex(Hex(s)) == Some(s)
  {
    if s != [] {
      HexRoundTrip(s[1..]);
      assert Hex(s)[2..] == Hex(s[1..]);
      assert s == [s[0]] + s[1..];
    }
  }

  // ---- sign and verify

  /** strings.Cut(s, "."). */
  function Cut(s: bytes): Option<(bytes, bytes)> {
    if s == [] then None
    else if s[0] == POINT then Some(([], s[1..]))
    else
      match Cut(s[1..])
      case None => None
      case Some((before, after)) => Some(([s[0]] + before, after))
  }

  lemma {:induction false} CutAtTheFirst(a: bytes, b: bytes)
    requires POINT !in a
    ensures Cut(a + [POINT] + b) == Some((a, b))
  {
    var s := a + [POINT] + b;
    if a == [] {
      assert s[1..] == b;
    } else {
      CutAtTheFirst(a[1..], b);
      assert s[1..] == a[1..] + [POINT] + b;
      assert s[0] == a[0] && a == [a[0]] + a[1..];
    }
  }

  /** What a signature says: its expiry and its MAC. */
  function Reading(sig: bytes): (r: Option<(int, bytes)>)
    ensures r.Some? ==> Int64(r.value.0)
  {
    match Cut(sig)
    case None => None
    case Some((exp, mac)) =>
      match (ParseInt(exp), Unhex(mac))
      case (Some(e), Some(m)) => Some((e, m))
      case _ => None
  }

  function Sign(s: Signer, now: int, user: bytes, req: Request): bytes
    requires Int64(now + TTL)
  {
    if s.key == [] then []
    else FormatInt(now + TTL) + [POINT] + Hex(s.mac(Encoded(now + TTL, user, req)))
  }

  /** In the order the code asks: a key, a dot, an expiry not yet past, a MAC that decodes and is ours. */
  predicate Verify(s: Signer, now: int, sig: bytes, user: bytes, req: Request) {
    s.key != [] &&
    match Cut(sig)
    case None => false
    case Some((expText, macText)) =>
      match ParseInt(expText)
      case None => false
      case Some(exp) =>
        now <= exp &&
        match Unhex(macText)
        case None => false
        case Some(mac) => mac == s.mac(Encoded(exp, user, req))
  }

  type Values = map<string, seq<bytes>>

  /** url.Values.Get: the first value, or nothing. */
  function Get(form: Values, key: string): bytes {
    if key in form && form[key] != [] then form[key][0] else []
  }

  function Posted(form: Values): Request {
    Request(Get(form, "client_id"), Get(form, "redirect_uri"), Get(form, "state"), Get(form, "code_challenge"),
            Get(form, "resource"), [])
  }

  function VerifyForm(s: Signer, now: int, form: Values, user: bytes): Option<Request> {
    if Verify(s, now, Get(form, "consent"), user, Posted(form)) then Some(Posted(form)) else None
  }

  // ---- what verifies

  ghost predicate Injective(s: Signer) {
    forall a, b :: s.mac(a) == s.mac(b) ==> a == b
  }

  lemma SignIsReadBack(s: Signer, now: int, user: bytes, req: Request)
    requires Int64(now + TTL) && s.key != []
    ensures Reading(Sign(s, now, user, req)) == Some((now + TTL, s.mac(Encoded(now + TTL, user, req))))
  {
    hide Encoded, FormatInt, Hex, Unhex, ParseInt, Cut;
    var mac := s.mac(Encoded(now + TTL, user, req));
    ParsesWhatWasFormatted(now + TTL);
    HexRoundTrip(mac);
    CutAtTheFirst(FormatInt(now + TTL), Hex(mac));
  }

  /** However a signature is spelled, it verifies for the user, the request and the expiry its MAC was
      made for, and for nothing else. */
  lemma VerifiesExactlyWhatItsMacCovers(s: Signer, now: int, sig: bytes, user: bytes, req: Request,
                                        exp: int, signedUser: bytes, signedReq: Request)
    requires Injective(s) && s.key != [] && Int64(exp) && Sizes(user, req) && Sizes(signedUser, signedReq)
    requires Reading(sig).Some? && Reading(sig).value.1 == s.mac(Encoded(exp, signedUser, signedReq))
    ensures Verify(s, now, sig, user, req) <==>
            Reading(sig).value.0 == exp && now <= exp && user == signedUser && req.(scopes := []) == signedReq.(scopes := [])
  {
    hide Prefixed, BigEndian, Cut, ParseInt, Unhex;
    var e := Reading(sig).value.0;
    if s.mac(Encoded(e, user, req)) == s.mac(Encoded(exp, signedUser, signedReq)) {
      EncodedIsInjective(e, user, req, exp, signedUser, signedReq);
    }
  }

  /** A signature Sign issued verifies exactly for the user it was shown to and the request it was
      shown for, until ten minutes have passed. */
  lemma IssuedSignatureVerifiesExactly(s: Signer, issued: int, signedUser: bytes, signedReq: Request,
                                       now: int, user: bytes, req: Request)
    requires Injective(s) && s.key != [] && Int64(issued + TTL) && Sizes(user, req) && Sizes(signedUser, signedReq)
    ensures Verify(s, now, Sign(s, issued, signedUser, signedReq), user, req) <==>
            now <= issued + TTL && user == signedUser && req.(scopes := []) == signedReq.(scopes := [])
  {
    hide Sign, Verify, Encoded;
    SignIsReadBack(s, issued, signedUser, signedReq);
    VerifiesExactlyWhatItsMacCovers(s, now, Sign(s, issued, signedUser, signedReq), user, req,
                                    issued + TTL, signedUser, signedReq);
  }

  /** A posted form with an issued signature is accepted exactly when every protocol field is the one
      that was signed; what comes back is the signed request, with its scopes left to the user. */
  lemma FormReadsBackTheSignedRequest(s: Signer, issued: int, signedUser: bytes, req: Request,
                                      now: int, form: Values, user: bytes)
    requires Injective(s) && s.key != [] && Int64(issued + TTL) && Sizes(user, Posted(form)) && Sizes(signedUser, req)
    requires Get(form, "consent") == Sign(s, issued, signedUser, req)
    ensures VerifyForm(s, now, form, user).Some? <==>
            now <= issued + TTL && user == signedUser && Posted(form) == req.(scopes := [])
    ensures VerifyForm(s, now, form, user).Some? ==> VerifyForm(s, now, form, user).value == req.(scopes := [])
  {
    hide Sign, Verify;
    IssuedSignatureVerifiesExactly(s, issued, signedUser, req, now, user, Posted(form));
  }

  /** The zero signer signs nothing and verifies nothing, so the consent page fails closed. */
  lemma ZeroSignerFailsClosed(s: Signer, now: int, form: Values, user: bytes, req: Request)
    requires s.key == [] && Int64(now + TTL)
    ensures Sign(s, now, user, req) == [] && VerifyForm(s, now, form, user) == None
  {}
}
