/**
 server/remote_auth.cpp: tokens. A token is the hexadecimal form of
 user(8) issued(8) expires(8) nonce(16) hmac(32), integers big endian; HMAC-SHA256 is a
 parameter of the model.
*/
module Auth {
  import opened Common
  import opened ByteOrder

  const TOKEN_TTL_SECONDS: nat := 12 * 60 * 60
  const NONCE_BYTES: nat := 16
  const PAYLOAD_BYTES: nat := 40
  const MAC_BYTES: nat := 32
  const TOKEN_BYTES: nat := PAYLOAD_BYTES + MAC_BYTES
  const TOKEN_HEX_BYTES: nat := TOKEN_BYTES * 2

  type Mac = m: Bytes | |m| == MAC_BYTES witness seq(MAC_BYTES, _ => 0)
  type U64 = n: nat | n <= U64_MAX
  type Nonce = n: Bytes | |n| == NONCE_BYTES witness seq(NONCE_BYTES, _ => 0)

  datatype Key = Key(secret: Bytes, hmac: (Bytes, Bytes) -> Mac)

  datatype Payload = Payload(user: U64, issuedAt: U64, expiresAt: U64)

  // ----- hexadecimal -----

  function HexDigit(v: nat): byte
    requires v < 16
  {
    if v < 10 then 48 + v else 87 + v
  }

  /** -1 for a byte that is no hexadecimal digit; both cases are read. */
  function HexValue(c: byte): int {
    if 48 <= c <= 57 then c - 48
    else if 97 <= c <= 102 then c - 87
    else if 65 <= c <= 70 then c - 55
    else -1
  }

  function ToHex(s: Bytes): (r: Bytes)
    ensures |r| == 2 * |s|
  {
    if s == [] then [] else [HexDigit(s[0] / 16), HexDigit(s[0] % 16)] + ToHex(s[1..])
  }

  function FromHex(h: Bytes): (r: Option<Bytes>)
    ensures r.Some? ==> |h| == 2 * |r.value|
  {
    if h == [] then Some([])
    else if |h| == 1 || HexValue(h[0]) < 0 || HexValue(h[1]) < 0 then None
    else
      match FromHex(h[2..])
      case None => None
      case Some(rest) => Some([HexValue(h[0]) * 16 + HexValue(h[1])] + rest)
  }

  function LowerByte(c: byte): byte {
    if 65 <= c <= 70 then c + 32 else c
  }

  function Lower(h: Bytes): (r: Bytes)
    ensures |r| == |h|
  {
    seq(|h|, i requires 0 <= i < |h| => LowerByte(h[i]))
  }

  /** Decoding inverts encoding, and accepts exactly the encodings in either case. */
  lemma {:induction false} FromHexReadsExactlyHex(h: Bytes, s: Bytes)
    ensures FromHex(h) == Some(s) <==> Lower(h) == ToHex(s)
  {
    if h != [] && |h| > 1 && s != [] {
      FromHexReadsExactlyHex(h[2..], s[1..]);
      assert Lower(h) == [LowerByte(h[0]), LowerByte(h[1])] + Lower(h[2..]);
      assert Lower(h)[2..] == Lower(h[2..]) && ToHex(s)[2..] == ToHex(s[1..]);
      HexPair(h[0], h[1], s[0]);
      assert s == [s[0]] + s[1..];
      if Lower(h) == ToHex(s) {
        assert Lower(h)[0] == HexDigit(s[0] / 16) && Lower(h)[1] == HexDigit(s[0] % 16);
      }
    }
  }

  lemma HexPair(a: byte, b: byte, v: byte)
    ensures (HexValue(a) >= 0 && HexValue(b) >= 0 && HexValue(a) * 16 + HexValue(b) == v)
            <==> (LowerByte(a) == HexDigit(v / 16) && LowerByte(b) == HexDigit(v % 16))
  {
    HexOne(a, v / 16);
    HexOne(b, v % 16);
  }

  lemma HexOne(a: byte, v: nat)
    requires v < 16
    ensures HexValue(a) == v <==> LowerByte(a) == HexDigit(v)
    ensures HexValue(a) < 16
  {}

  method EncodeHex(s: Bytes) returns (r: Bytes)
    ensures r == ToHex(s)
  {
    r := [];
    for i := 0 to |s|
      invariant r + ToHex(s[i..]) == ToHex(s)
    {
      assert s[i..][1..] == s[i + 1..];
      r := r + [HexDigit(s[i] / 16), HexDigit(s[i] % 16)];
    }
  }

  function Prefixed(s: Bytes, r: Option<Bytes>): Option<Bytes> {
    if r.None? then None else Some(s + r.value)
  }

  lemma PrefixedTwice(s: Bytes, t: Bytes, r: Option<Bytes>)
    ensures Prefixed(s, Prefixed(t, r)) == Prefixed(s + t, r) && Prefixed([], r) == r
  {
    if r.Some? { assert s + (t + r.value) == s + t + r.value && [] + r.value == r.value; }
  }

  method DecodeHex(h: Bytes) returns (r: Option<Bytes>)
    ensures r == FromHex(h)
  {
    if |h| % 2 != 0 {
      return None;
    }
    var out: Bytes := [];
    var i := 0;
    PrefixedTwice([], [], FromHex(h));
    while i < |h| / 2
      invariant 0 <= i <= |h| / 2
      invariant FromHex(h) == Prefixed(out, FromHex(h[2 * i..]))
    {
      var high, low := HexValue(h[2 * i]), HexValue(h[2 * i + 1]);
      assert h[2 * i..][2..] == h[2 * (i + 1)..];
      if high < 0 || low < 0 {
        return None;
      }
      PrefixedTwice(out, [high * 16 + low], FromHex(h[2 * (i + 1)..]));
      out := out + [high * 16 + low];
      i := i + 1;
    }
    assert h[2 * i..] == [] && out + [] == out;
    return Some(out);
  }

  // ----- the payload -----

  function PayloadBytes(p: Payload, nonce: Nonce): (r: Bytes)
    ensures |r| == PAYLOAD_BYTES
  {
    BigEndian(p.user, 8) + BigEndian(p.issuedAt, 8) + BigEndian(p.expiresAt, 8) + nonce
  }

  /** The token a key makes of a payload and a nonce. */
  function Seal(key: Key, p: Payload, nonce: Nonce): (r: Bytes)
    ensures |r| == TOKEN_HEX_BYTES
  {
    var signed := PayloadBytes(p, nonce);
    ToHex(signed + key.hmac(key.secret, signed))
  }

  function Expiry(now: U64): U64 { (now + TOKEN_TTL_SECONDS) % (U64_MAX + 1) }

  /** The token a login at `now` hands out. */
  function Token(key: Key, user: U64, now: U64, nonce: Nonce): Bytes {
    Seal(key, Payload(user, now, Expiry(now)), nonce)
  }

  function ParsePayload(signed: Bytes): Payload
    requires |signed| == PAYLOAD_BYTES
  {
    Pow256Widths();
    Payload(FromBigEndian(signed[..8]), FromBigEndian(signed[8..16]), FromBigEndian(signed[16..24]))
  }

  function Verify(key: Key, token: Bytes, now: U64): Option<Payload> {
    if key.secret == [] || |token| != TOKEN_HEX_BYTES then None
    else
      match FromHex(token)
      case None => None
      case Some(raw) =>
        if key.hmac(key.secret, raw[..PAYLOAD_BYTES]) != raw[PAYLOAD_BYTES..] then None
        else
          var p := ParsePayload(raw[..PAYLOAD_BYTES]);
          if p.user == 0 || p.expiresAt <= now then None else Some(p)
  }

  // ----- what a token is worth -----

  lemma PayloadReadsBack(p: Payload, nonce: Nonce)
    ensures ParsePayload(PayloadBytes(p, nonce)) == p
  {
    var r := PayloadBytes(p, nonce);
    Pow256Widths();
    assert r[..8] == BigEndian(p.user, 8);
    assert r[8..16] == BigEndian(p.issuedAt, 8);
    assert r[16..24] == BigEndian(p.expiresAt, 8);
    BigEndianReadsBack(p.user, 8);
    BigEndianReadsBack(p.issuedAt, 8);
    BigEndianReadsBack(p.expiresAt, 8);
  }

  lemma PayloadWritesBack(signed: Bytes)
    requires |signed| == PAYLOAD_BYTES
    ensures PayloadBytes(ParsePayload(signed), signed[24..]) == signed
  {
    BigEndianWritesBack(signed[..8]);
    BigEndianWritesBack(signed[8..16]);
    BigEndianWritesBack(signed[16..24]);
    assert signed == signed[..8] + signed[8..16] + signed[16..24] + signed[24..];
  }

  /** Verification succeeds for exactly the sealed payloads (in either case of the digits) that
      name a user and have not reached their expiry second. */
  lemma VerifyAcceptsExactlySealed(key: Key, token: Bytes, now: U64, p: Payload)
    requires key.secret != []
    ensures Verify(key, token, now) == Some(p)
            <==> p.user != 0 && now < p.expiresAt && exists nonce :: Lower(token) == Seal(key, p, nonce)
  {
    if Verify(key, token, now) == Some(p) {
      var raw := FromHex(token).value;
      var signed := raw[..PAYLOAD_BYTES];
      PayloadWritesBack(signed);
      var nonce: Nonce := signed[24..];
      assert raw == signed + raw[PAYLOAD_BYTES..];
      FromHexReadsExactlyHex(token, raw);
      assert Lower(token) == Seal(key, p, nonce);
    }
    if nonce :| p.user != 0 && now < p.expiresAt && Lower(token) == Seal(key, p, nonce) {
      var signed := PayloadBytes(p, nonce);
      var raw := signed + key.hmac(key.secret, signed);
      FromHexReadsExactlyHex(token, raw);
      assert raw[..PAYLOAD_BYTES] == signed && raw[PAYLOAD_BYTES..] == key.hmac(key.secret, signed);
      PayloadReadsBack(p, nonce);
    }
  }

  lemma {:induction false} ToHexIsLower(s: Bytes)
    ensures Lower(ToHex(s)) == ToHex(s)
  {
    if s != [] {
      ToHexIsLower(s[1..]);
      assert ToHex(s) == [HexDigit(s[0] / 16), HexDigit(s[0] % 16)] + ToHex(s[1..]);
      assert Lower(ToHex(s)) == [LowerByte(HexDigit(s[0] / 16)), LowerByte(HexDigit(s[0] % 16))] + Lower(ToHex(s[1..]));
    }
  }

  /** A token issued for an account verifies until, and not including, its expiry second. */
  lemma IssuedTokenVerifiesUntilExpiry(key: Key, user: U64, at: U64, nonce: Nonce, now: U64)
    requires key.secret != [] && user != 0
    ensures Verify(key, Token(key, user, at, nonce), now)
            == if now < Expiry(at) then Some(Payload(user, at, Expiry(at))) else None
  {
    var p := Payload(user, at, Expiry(at));
    var token := Token(key, user, at, nonce);
    var signed := PayloadBytes(p, nonce);
    ToHexIsLower(signed + key.hmac(key.secret, signed));
    VerifyAcceptsExactlySealed(key, token, now, p);
    match Verify(key, token, now) {
      case None =>
      case Some(q) =>
        VerifyAcceptsExactlySealed(key, token, now, q);
        SealDeterminesPayload(key, token, p, q);
    }
  }

  lemma SealDeterminesPayload(key: Key, token: Bytes, p: Payload, q: Payload)
    requires exists n :: Lower(token) == Seal(key, p, n)
    requires exists n :: Lower(token) == Seal(key, q, n)
    ensures p == q
  {
    var n :| Lower(token) == Seal(key, p, n);
    var m :| Lower(token) == Seal(key, q, m);
    var a := PayloadBytes(p, n) + key.hmac(key.secret, PayloadBytes(p, n));
    var b := PayloadBytes(q, m) + key.hmac(key.secret, PayloadBytes(q, m));
    FromHexReadsExactlyHex(token, a);
    FromHexReadsExactlyHex(token, b);
    assert a == b;
    assert PayloadBytes(p, n) == a[..PAYLOAD_BYTES] && PayloadBytes(q, m) == b[..PAYLOAD_BYTES];
    PayloadReadsBack(p, n);
    PayloadReadsBack(q, m);
  }

  // ----- the code -----

  method AppendU64BE(out: Bytes, value: U64) returns (r: Bytes)
    ensures r == out + BigEndian(value, 8)
  {
    r := out;
    var k := 8;
    assert BigEndian(ShiftRight(value, 8), 0) == [];
    while k > 0
      invariant 0 <= k <= 8
      invariant r == out + BigEndian(ShiftRight(value, k), 8 - k)
    {
      k := k - 1;
      ShiftOneMore(value, k);
      r := r + [ShiftRight(value, k) % 256];
    }
  }

  method LoadU64BE(data: Bytes, at: nat) returns (value: U64)
    requires at + 8 <= |data|
    ensures value == FromBigEndian(data[at..at + 8])
  {
    Pow256Widths();
    var acc: nat := 0;
    for k := 0 to 8
      invariant acc == FromBigEndian(data[at..at + k])
    {
      var grown := data[at..at + k + 1];
      assert grown[..k] == data[at..at + k] && grown[k] == data[at + k];
      acc := acc * 256 + data[at + k];
    }
    value := acc;
  }

  /** `nonce` is what the random source answered; None is its failure. */
  method IssueToken(key: Key, user: U64, now: U64, nonce: Option<Nonce>) returns (token: Option<Bytes>)
    ensures token.Some? <==> key.secret != [] && nonce.Some?
    ensures token.Some? ==> token.value == Token(key, user, now, nonce.value)
  {
    if key.secret == [] {
      return None;
    }
    if nonce.None? {
      return None;
    }
    var signed := AppendU64BE([], user);
    signed := AppendU64BE(signed, now);
    signed := AppendU64BE(signed, Expiry(now));
    signed := signed + nonce.value;
    assert signed == PayloadBytes(Payload(user, now, Expiry(now)), nonce.value);
    var hex := EncodeHex(signed + key.hmac(key.secret, signed));
    return Some(hex);
  }

  method VerifyToken(key: Key, token: Bytes, now: U64) returns (payload: Option<Payload>)
    ensures payload == Verify(key, token, now)
  {
    if key.secret == [] || |token| != TOKEN_HEX_BYTES {
      return None;
    }
    var raw := DecodeHex(token);
    if raw.None? {
      return None;
    }
    var signed := raw.value[..PAYLOAD_BYTES];
    if key.hmac(key.secret, signed) != raw.value[PAYLOAD_BYTES..] {
      return None;
    }
    var user := LoadU64BE(signed, 0);
    var issued := LoadU64BE(signed, 8);
    var expires := LoadU64BE(signed, 16);
    if user == 0 || expires <= now {
      return None;
    }
    return Some(Payload(user, issued, expires));
  }
}
