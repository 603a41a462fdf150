/**
 * The VAPID side of a Web Push (internal/services/notifications.go,
 * decodePrivateKey and createVAPIDToken): the 32-byte private-key check,
 * the JWT claims, the token's three dot-separated segments and the 64-byte
 * ES256 signature r || s of section 3.4 of RFC 7518.
 *
 * base64url, JSON, SHA-256, the P-256 curve and the random ECDSA signer are
 * foreign: they enter as function parameters, and only the length checks,
 * the byte layout and the token's assembly are modelled.
 */
module Vapid {
  import opened Wrappers

  /** Go's byte. */
  newtype byte = b: int | 0 <= b < 256

  // ---------------------------------------------------------------------
  // Big-endian byte strings, as math/big reads and writes them

  /** 256 to the k-th power. */
  function Pow256(k: nat): (p: nat)
    ensures p >= 1
  {
    if k == 0 then 1 else 256 * Pow256(k - 1)
  }

  /** big.Int.SetBytes: the unsigned big-endian number the bytes spell. */
  function Value(bs: seq<byte>): nat
    decreases |bs|
  {
    if bs == [] then 0 else Value(bs[..|bs| - 1]) * 256 + bs[|bs| - 1] as int
  }

  lemma {:induction false} ValueBound(bs: seq<byte>)
    ensures Value(bs) < Pow256(|bs|)
    decreases |bs|
  {
    if bs != [] {
      var init := bs[..|bs| - 1];
      ValueBound(init);
      assert Value(init) + 1 <= Pow256(|init|);
      assert (Value(init) + 1) * 256 <= Pow256(|init|) * 256;
    }
  }

  /** big.Int.Bytes: the big-endian bytes of n, without leading zeros (none at all for 0). */
  function MinimalBytes(n: nat): seq<byte>
    decreases n
  {
    if n == 0 then [] else MinimalBytes(n / 256) + [(n % 256) as byte]
  }

  lemma ValueAppend(bs: seq<byte>, b: byte)
    ensures Value(bs + [b]) == Value(bs) * 256 + b as int
  {
    assert (bs + [b])[..|bs|] == bs;
  }

  /** SetBytes undoes Bytes. */
  lemma {:induction false} MinimalBytesValue(n: nat)
    ensures Value(MinimalBytes(n)) == n
    decreases n
  {
    if n != 0 {
      var q := n / 256;
      MinimalBytesValue(q);
      assert MinimalBytes(n) == MinimalBytes(q) + [(n % 256) as byte];
      ValueAppend(MinimalBytes(q), (n % 256) as byte);
      var v := Value(MinimalBytes(q));
      assert v == q;
      assert Value(MinimalBytes(n)) == v * 256 + n % 256;
    }
  }

  /** Bytes never starts with a zero byte. */
  lemma {:induction false} MinimalBytesNoLeadingZero(n: nat)
    requires n > 0
    ensures MinimalBytes(n)[0] != 0
    decreases n
  {
    if n / 256 > 0 {
      MinimalBytesNoLeadingZero(n / 256);
    }
  }

  /** A number below 256^k takes at most k bytes. */
  lemma {:induction false} MinimalBytesLength(n: nat, k: nat)
    requires n < Pow256(k)
    ensures |MinimalBytes(n)| <= k
    decreases k
  {
    if n != 0 {
      assert k > 0;
      MinimalBytesLength(n / 256, k - 1);
    }
  }

  /** `bs` right-aligned in `width` bytes, zero bytes before it. */
  function LeftPad(bs: seq<byte>, width: nat): (p: seq<byte>)
    requires |bs| <= width
    ensures |p| == width && p[width - |bs|..] == bs
    ensures forall j :: 0 <= j < width - |bs| ==> p[j] == 0
  {
    seq(width - |bs|, _ => 0 as byte) + bs
  }

  lemma {:induction false} ValueOfZeros(k: nat)
    ensures Value(seq(k, _ => 0 as byte)) == 0
    decreases k
  {
    if k > 0 {
      ValueOfZeros(k - 1);
      assert seq(k, _ => 0 as byte)[..k - 1] == seq(k - 1, _ => 0 as byte);
    }
  }

  /** Zero bytes in front do not change the number. */
  lemma {:induction false} LeftPadValue(bs: seq<byte>, width: nat)
    requires |bs| <= width
    ensures Value(LeftPad(bs, width)) == Value(bs)
    decreases |bs|
  {
    var zeros := seq(width - |bs|, _ => 0 as byte);
    if bs == [] {
      assert LeftPad(bs, width) == zeros;
      ValueOfZeros(width);
    } else {
      var init := bs[..|bs| - 1];
      LeftPadValue(init, width - 1);
      assert LeftPad(bs, width)[..width - 1] == LeftPad(init, width - 1);
    }
  }

  // ---------------------------------------------------------------------
  // decodePrivateKey

  /** The private scalar D, as big.Int.SetBytes reads the 32 raw bytes. */
  datatype PrivateKey = PrivateKey(d: nat)

  datatype KeyError = KeyNotBase64 | InvalidKeyLength(length: int) | KeyRejectedByCurve

  const KeyLength := 32

  /**
   * decodePrivateKey: base64url-decode, insist on exactly 32 bytes, let the
   * curve accept the scalar, and read it as a big-endian number.
   * `decode` is base64.RawURLEncoding.DecodeString (None on a decoding
   * error); `onCurve` is whether ecdh.P256().NewPrivateKey accepts the bytes.
   */
  function DecodePrivateKey(encoded: string, decode: string -> Option<seq<byte>>, onCurve: seq<byte> -> bool): (r: Result<PrivateKey, KeyError>)
    ensures decode(encoded).None? ==> r == Failure(KeyNotBase64)
    ensures decode(encoded).Some? && |decode(encoded).value| != KeyLength ==> r == Failure(InvalidKeyLength(|decode(encoded).value|))
    ensures r.Success? <==> decode(encoded).Some? && |decode(encoded).value| == KeyLength && onCurve(decode(encoded).value)
    ensures r.Success? ==> r.value.d == Value(decode(encoded).value) && r.value.d < Pow256(KeyLength)
  {
    match decode(encoded)
    case None => Failure(KeyNotBase64)
    case Some(raw) =>
      if |raw| != KeyLength then Failure(InvalidKeyLength(|raw|))
      else if !onCurve(raw) then Failure(KeyRejectedByCurve)
      else
        ValueBound(raw);
        Success(PrivateKey(Value(raw)))
  }

  // ---------------------------------------------------------------------
  // The ES256 signature buffer

  const ScalarLength := 32
  const SignatureLength := 64

  /** The 64-byte signature: r right-aligned in bytes 0..31, s in bytes 32..63. */
  function SignatureBytes(r: nat, s: nat): (sig: seq<byte>)
    requires r < Pow256(ScalarLength) && s < Pow256(ScalarLength)
    ensures |sig| == SignatureLength
    ensures Value(sig[..ScalarLength]) == r && Value(sig[ScalarLength..]) == s
  {
    MinimalBytesLength(r, ScalarLength);
    MinimalBytesLength(s, ScalarLength);
    var sig := LeftPad(MinimalBytes(r), ScalarLength) + LeftPad(MinimalBytes(s), ScalarLength);
    assert sig[..ScalarLength] == LeftPad(MinimalBytes(r), ScalarLength);
    assert sig[ScalarLength..] == LeftPad(MinimalBytes(s), ScalarLength);
    LeftPadValue(MinimalBytes(r), ScalarLength);
    LeftPadValue(MinimalBytes(s), ScalarLength);
    MinimalBytesValue(r);
    MinimalBytesValue(s);
    sig
  }

  /** Go's `copy(dst[start:start+len(src)], src)`: only that window changes. */
  method CopyInto(dst: array<byte>, src: seq<byte>, start: nat)
    requires start + |src| <= dst.Length
    modifies dst
    ensures forall j :: 0 <= j < |src| ==> dst[start + j] == src[j]
    ensures forall j :: 0 <= j < dst.Length && !(start <= j < start + |src|) ==> dst[j] == old(dst[j])
  {
    var k := 0;
    while k < |src|
      invariant 0 <= k <= |src|
      invariant forall j :: 0 <= j < k ==> dst[start + j] == src[j]
      invariant forall j :: 0 <= j < dst.Length && !(start <= j < start + k) ==> dst[j] == old(dst[j])
    {
      dst[start + k] := src[k];
      k := k + 1;
    }
  }

  /**
   * The buffer as createVAPIDToken fills it: `make([]byte, 64)` and two
   * copies of r.Bytes() and s.Bytes() into the tail of each half.
   */
  method Signature(r: nat, s: nat) returns (sig: array<byte>)
    requires r < Pow256(ScalarLength) && s < Pow256(ScalarLength)
    ensures fresh(sig)
    ensures sig[..] == SignatureBytes(r, s)
  {
    var rBytes := MinimalBytes(r);
    var sBytes := MinimalBytes(s);
    MinimalBytesLength(r, ScalarLength);
    MinimalBytesLength(s, ScalarLength);
    sig := new byte[SignatureLength](_ => 0);
    var rStart := ScalarLength - |rBytes|;
    var sStart := SignatureLength - |sBytes|;
    CopyInto(sig, rBytes, rStart);
    ghost var afterR := sig[..];
    CopyInto(sig, sBytes, sStart);

    var expected := LeftPad(rBytes, ScalarLength) + LeftPad(sBytes, ScalarLength);
    forall j | 0 <= j < SignatureLength
      ensures sig[j] == expected[j]
    {
      if j < ScalarLength {
        assert sig[j] == afterR[j];
        if j >= rStart {
          assert sig[rStart + (j - rStart)] == rBytes[j - rStart];
        }
      } else if j >= sStart {
        assert sig[sStart + (j - sStart)] == sBytes[j - sStart];
      }
    }
    assert sig[..] == expected;
  }

  // ---------------------------------------------------------------------
  // Audience and claims (section 2 of RFC 8292)

  /** The index of the first `c` in s, if any. */
  function FirstIndex(s: string, c: char): (r: Option<nat>)
    ensures r.None? <==> c !in s
    ensures r.Some? ==> r.value < |s| && s[r.value] == c && c !in s[..r.value]
    decreases |s|
  {
    if s == [] then None
    else if s[0] == c then Some(0)
    else match FirstIndex(s[1..], c)
      case None => None
      case Some(i) =>
        assert s[..i + 1] == [s[0]] + s[1..][..i];
        Some(i + 1)
  }

  lemma FirstIndexAfter(p: string, c: char, q: string)
    requires c !in p
    ensures FirstIndex(p + [c] + q, c) == Some(|p|)
  {
    var t := p + [c] + q;
    assert t[|p|] == c && t[..|p|] == p;
  }

  /** The audience claim: the push service's origin, `scheme://host`. */
  function Audience(scheme: string, host: string): (a: string)
    ensures |a| == |scheme| + 3 + |host|
    ensures a[..|scheme|] == scheme && a[|scheme|..|scheme| + 3] == "://" && a[|scheme| + 3..] == host
  {
    scheme + "://" + host
  }

  /** A scheme never holds a colon, so the origin splits back into scheme and host. */
  lemma AudienceSplits(scheme: string, host: string)
    requires ':' !in scheme
    ensures SplitOrigin(Audience(scheme, host)) == Some((scheme, host))
  {
    var a := Audience(scheme, host);
    assert a == scheme + [':'] + ("//" + host);
    FirstIndexAfter(scheme, ':', "//" + host);
    assert a[|scheme|..|scheme| + 3] == "://";
    assert a[..|scheme|] == scheme && a[|scheme| + 3..] == host;
  }

  /** An origin read back into its scheme and host, at the first colon. */
  function SplitOrigin(a: string): Option<(string, string)> {
    match FirstIndex(a, ':')
    case None => None
    case Some(i) =>
      if i + 3 <= |a| && a[i..i + 3] == "://" then Some((a[..i], a[i + 3..])) else None
  }

  datatype Claims = Claims(aud: string, exp: int, sub: string)

  const Subject := "mailto:admin@health-balance.local"
  /** exp is issued 24 hours ahead, the longest section 2 of RFC 8292 allows. */
  const TokenLifetime := 24 * 60 * 60

  /** The claims of a token issued at Unix time `now`. */
  function VapidClaims(audience: string, now: int): (c: Claims)
    ensures c.aud == audience
    ensures c.exp == now + TokenLifetime && now < c.exp <= now + 86400
    ensures c.sub == Subject && |c.sub| > 7 && c.sub[..7] == "mailto:"
  {
    Claims(audience, now + TokenLifetime, Subject)
  }

  // ---------------------------------------------------------------------
  // The token


  predicate IsAscii(s: string) {
    forall i :: 0 <= i < |s| ==> s[i] < 128 as char
  }

  /** Go's []byte(s) for an ASCII string: one byte per character, holding its code. */
  function Ascii(s: string): (bs: seq<byte>)
    requires IsAscii(s)
    ensures |bs| == |s|
    ensures forall i :: 0 <= i < |s| ==> bs[i] as int == s[i] as int
  {
    seq(|s|, i requires 0 <= i < |s| => s[i] as int as byte)
  }

  /** The JOSE header. */
  const Header := "{\"alg\":\"ES256\",\"typ\":\"JWT\"}"

  /** The header as the ASCII bytes that are base64url-encoded. */
  const HeaderBytes: seq<byte> := Ascii(Header)

  /** The pieces of a string between dots. */
  function Segments(t: string): (parts: seq<string>)
    ensures |parts| >= 1
    decreases |t|
  {
    match FirstIndex(t, '.')
    case None => [t]
    case Some(i) => [t[..i]] + Segments(t[i + 1..])
  }

  lemma SegmentsOfJoin(a: string, rest: string)
    requires '.' !in a
    ensures Segments(a + "." + rest) == [a] + Segments(rest)
  {
    FirstIndexAfter(a, '.', rest);
    assert (a + "." + rest)[..|a|] == a;
    assert (a + "." + rest)[|a| + 1..] == rest;
  }

  /** Three dot-free pieces joined with dots split back into exactly those pieces. */
  lemma {:induction false} TokenSegments(header: string, payload: string, sig: string)
    requires '.' !in header && '.' !in payload && '.' !in sig
    ensures Segments(header + "." + payload + "." + sig) == [header, payload, sig]
  {
    assert header + "." + payload + "." + sig == header + "." + (payload + "." + sig);
    SegmentsOfJoin(header, payload + "." + sig);
    SegmentsOfJoin(payload, sig);
    assert FirstIndex(sig, '.').None?;
  }

  /** base64url (RFC 4648, section 5) never produces a dot. */
  predicate DotFree(s: string) {
    '.' !in s
  }

  datatype TokenError = SigningFailed

  /**
   * createVAPIDToken. `encode` is base64.RawURLEncoding.EncodeToString,
   * `json` the JSON marshalling of the claims, and `sign` ECDSA over the
   * SHA-256 of the unsigned token (None when the signer fails) giving r
   * and s, both below the P-256 group order and so within 32 bytes.
   */
  function CreateVapidToken(
    audience: string, now: int,
    encode: seq<byte> -> string, json: Claims -> seq<byte>, sign: string -> Option<(nat, nat)>): (r: Result<string, TokenError>)
    requires forall bs :: DotFree(encode(bs))
    requires forall u :: sign(u).Some? ==> sign(u).value.0 < Pow256(ScalarLength) && sign(u).value.1 < Pow256(ScalarLength)
    ensures var unsigned := encode(HeaderBytes) + "." + encode(json(VapidClaims(audience, now)));
            r.Failure? <==> sign(unsigned).None?
    ensures r.Success? ==>
              var parts := Segments(r.value);
              && |parts| == 3
              && parts[0] == encode(HeaderBytes)
              && parts[1] == encode(json(VapidClaims(audience, now)))
              && var rs := sign(parts[0] + "." + parts[1]);
                 rs.Some? && parts[2] == encode(SignatureBytes(rs.value.0, rs.value.1))
  {
    var header := encode(HeaderBytes);
    var payload := encode(json(VapidClaims(audience, now)));
    var unsigned := header + "." + payload;
    match sign(unsigned)
    case None => Failure(SigningFailed)
    case Some((rr, ss)) =>
      var sig := encode(SignatureBytes(rr, ss));
      assert DotFree(header) && DotFree(payload) && DotFree(sig);
      TokenSegments(header, payload, sig);
      Success(unsigned + "." + sig)
  }

  /**
   * The token sendPush builds for an endpoint carries, as its aud claim,
   * the endpoint's origin `scheme://host`, which reads back to that scheme
   * and host, and expires 24 hours after `now`.
   */
  lemma TokenCarriesOrigin(
    scheme: string, host: string, now: int,
    encode: seq<byte> -> string, json: Claims -> seq<byte>, sign: string -> Option<(nat, nat)>)
    requires ':' !in scheme
    requires forall bs :: DotFree(encode(bs))
    requires forall u :: sign(u).Some? ==> sign(u).value.0 < Pow256(ScalarLength) && sign(u).value.1 < Pow256(ScalarLength)
    requires CreateVapidToken(Audience(scheme, host), now, encode, json, sign).Success?
    ensures var parts := Segments(CreateVapidToken(Audience(scheme, host), now, encode, json, sign).value);
            parts[1] == encode(json(Claims(Audience(scheme, host), now + TokenLifetime, Subject)))
    ensures SplitOrigin(VapidClaims(Audience(scheme, host), now).aud) == Some((scheme, host))
  {
    AudienceSplits(scheme, host);
  }
}
