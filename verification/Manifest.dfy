/**
 Signed update manifests: the 104-byte body, its hex form, and what a device
 accepts. Hashing, signatures and UTF-8 are parameters.
 */
module Manifest {
  import opened Bytes

  const FORMAT_VERSION: byte := 1
  const BODY_LEN := 104
  const SIGNATURE_LEN := 64
  const MANIFEST_LEN := 168
  const VERSION_LEN := 32

  /** "FOTA" */
  const MAGIC: seq<byte> := [0x46, 0x4F, 0x54, 0x41]

  datatype Manifest = Manifest(
    buildId: u64, securityVersion: u32, imageSize: u32, sha256: seq<byte>, version: seq<byte>, keyId: seq<byte>)

  datatype Error =
    | Length
    | InvalidHex
    | BadMagic
    | UnsupportedFormat(b: byte)
    | Reserved
    | InvalidVersion
    | UnknownKey
    | BadSignature
    | Rollback(manifest: u32, minimum: u32)
    | SizeMismatch
    | HashMismatch

  datatype Result<+T> = Ok(value: T) | Err(error: Error)

  type Utf8 = seq<byte> -> bool

  // ---- The body --------------------------------------------------------------

  function Zeros(n: nat): (s: seq<byte>)
    ensures |s| == n && forall i :: 0 <= i < n ==> s[i] == 0
  {
    seq(n, _ => 0)
  }

  /** Field widths fit, and the version is UTF-8 text without a NUL. */
  predicate WellFormed(m: Manifest, utf8: Utf8) {
    && |m.sha256| == 32 && |m.keyId| == 8
    && |m.version| <= VERSION_LEN && 0 !in m.version && utf8(m.version)
  }

  function EncodeBody(m: Manifest): (b: seq<byte>)
    requires |m.sha256| == 32 && |m.keyId| == 8 && |m.version| <= VERSION_LEN
    ensures |b| == BODY_LEN
  {
    MAGIC + [FORMAT_VERSION] + Zeros(3)
    + LeBytes(m.buildId, 8) + LeBytes(m.securityVersion, 4) + LeBytes(m.imageSize, 4)
    + m.sha256 + (m.version + Zeros(VERSION_LEN - |m.version|)) + m.keyId + Zeros(8)
  }

  /** Bytes before the first NUL. */
  function UntilNul(s: seq<byte>): (n: nat)
    ensures n <= |s| && 0 !in s[..n] && (n < |s| ==> s[n] == 0)
  {
    if s == [] || s[0] == 0 then 0
    else
      var n := UntilNul(s[1..]);
      assert s[..n + 1] == [s[0]] + s[1..][..n];
      n + 1
  }

  predicate AllZero(s: seq<byte>) {
    forall i :: 0 <= i < |s| ==> s[i] == 0
  }

  function Word64(b: seq<byte>): u64
    requires |b| == 8
  {
    Pow256Values();
    LeValue(b)
  }

  function Word32(b: seq<byte>): u32
    requires |b| == 4
  {
    Pow256Values();
    LeValue(b)
  }

  function DecodeBody(b: seq<byte>, utf8: Utf8): Result<Manifest>
    requires |b| == BODY_LEN
  {
    if b[0..4] != MAGIC then Err(BadMagic)
    else if b[4] != FORMAT_VERSION then Err(UnsupportedFormat(b[4]))
    else if !AllZero(b[5..8]) || !AllZero(b[96..104]) then Err(Reserved)
    else
      var rawVersion := b[56..88];
      var len := UntilNul(rawVersion);
      if !AllZero(rawVersion[len..]) || !utf8(rawVersion[..len]) then Err(InvalidVersion)
      else Ok(Manifest(Word64(b[8..16]), Word32(b[16..20]), Word32(b[20..24]), b[24..56], rawVersion[..len], b[88..96]))
  }

  lemma EncodedFields(m: Manifest)
    requires |m.sha256| == 32 && |m.keyId| == 8 && |m.version| <= VERSION_LEN
    ensures var b := EncodeBody(m);
            && b[0..4] == MAGIC && b[4] == FORMAT_VERSION && b[5..8] == Zeros(3)
            && b[8..16] == LeBytes(m.buildId, 8) && b[16..20] == LeBytes(m.securityVersion, 4)
            && b[20..24] == LeBytes(m.imageSize, 4) && b[24..56] == m.sha256
            && b[56..88] == m.version + Zeros(VERSION_LEN - |m.version|)
            && b[88..96] == m.keyId && b[96..104] == Zeros(8)
  {
    hide LeBytes;
  }

  lemma BodyIsItsFields(b: seq<byte>)
    requires |b| == BODY_LEN
    ensures b == b[0..4] + [b[4]] + b[5..8] + b[8..16] + b[16..20] + b[20..24] + b[24..56] + b[56..88] + b[88..96] + b[96..104]
  {}

  lemma {:induction false} PaddedVersion(version: seq<byte>, pad: nat)
    requires 0 !in version
    ensures UntilNul(version + Zeros(pad)) == |version|
    decreases |version|
  {
    if version == [] {
      assert version + Zeros(pad) == Zeros(pad);
    } else {
      assert version[0] in version;
      PaddedVersion(version[1..], pad);
      assert (version + Zeros(pad))[1..] == version[1..] + Zeros(pad);
    }
  }

  /** A body decodes to a manifest exactly if it is that manifest's encoding: one body, one encoding. */
  lemma DecodeIffEncoded(b: seq<byte>, m: Manifest, utf8: Utf8)
    requires |b| == BODY_LEN
    ensures DecodeBody(b, utf8) == Ok(m) <==> WellFormed(m, utf8) && b == EncodeBody(m)
  {
    if WellFormed(m, utf8) && b == EncodeBody(m) {
      EncodedDecodes(m, utf8);
    }
    if DecodeBody(b, utf8) == Ok(m) {
      DecodedEncodes(b, m, utf8);
    }
  }

  lemma EncodedDecodes(m: Manifest, utf8: Utf8)
    requires WellFormed(m, utf8)
    ensures DecodeBody(EncodeBody(m), utf8) == Ok(m)
  {
    hide LeBytes, LeValue, EncodeBody, Pow256;
    EncodedFields(m);
    PaddedVersion(m.version, VERSION_LEN - |m.version|);
    var raw := m.version + Zeros(VERSION_LEN - |m.version|);
    assert raw[..|m.version|] == m.version;
    Pow256Values();
    LeBytesValue(m.buildId, 8);
    LeBytesValue(m.securityVersion, 4);
    LeBytesValue(m.imageSize, 4);
  }

  lemma DecodedEncodes(b: seq<byte>, m: Manifest, utf8: Utf8)
    requires |b| == BODY_LEN && DecodeBody(b, utf8) == Ok(m)
    ensures WellFormed(m, utf8) && b == EncodeBody(m)
  {
    hide LeBytes, LeValue, Pow256;
    LeValueBytes(b[8..16]);
    LeValueBytes(b[16..20]);
    LeValueBytes(b[20..24]);
    var raw := b[56..88];
    PaddingIsZeros(raw, UntilNul(raw));
    assert b[5..8] == Zeros(3) && b[96..104] == Zeros(8);
    hide UntilNul;
    BodyIsItsFields(b);
  }

  lemma PaddingIsZeros(raw: seq<byte>, n: nat)
    requires n <= |raw| && AllZero(raw[n..])
    ensures raw == raw[..n] + Zeros(|raw| - n)
  {
    assert raw[n..] == Zeros(|raw| - n);
  }

  // ---- Hexadecimal -----------------------------------------------------------

  /** The lower-case digit of a nibble. */
  function HexDigit(n: nat): byte
    requires n < 16
  {
    if n < 10 then 0x30 + n else 0x61 + n - 10
  }

  function Nibble(c: byte): (n: Option<nat>)
    ensures n.Some? ==> n.value < 16
  {
    if 0x30 <= c <= 0x39 then Some(c - 0x30)
    else if 0x61 <= c <= 0x66 then Some(c - 0x61 + 10)
    else if 0x41 <= c <= 0x46 then Some(c - 0x41 + 10)
    else None
  }

  function EncodeHex(bytes: seq<byte>): (hex: seq<byte>)
    ensures |hex| == 2 * |bytes|
  {
    if bytes == [] then [] else [HexDigit(bytes[0] / 16), HexDigit(bytes[0] % 16)] + EncodeHex(bytes[1..])
  }

  function DecodeHex(hex: seq<byte>): (r: Option<seq<byte>>)
    ensures r.Some? ==> |r.value| == |hex| / 2
    decreases |hex|
  {
    if |hex| < 2 then Some([])
    else
      match (Nibble(hex[0]), Nibble(hex[1]), DecodeHex(hex[2..]))
      case (Some(hi), Some(lo), Some(rest)) => Some([16 * hi + lo] + rest)
      case _ => None
  }

  /** The same digits in lower case. */
  function Lower(hex: seq<byte>): (s: seq<byte>)
    ensures |s| == |hex|
  {
    seq(|hex|, i requires 0 <= i < |hex| => if 0x41 <= hex[i] <= 0x46 then hex[i] + 0x20 else hex[i])
  }

  /** Hex text decodes to bytes exactly if, lower-cased, it is their encoding. */
  lemma {:induction false} HexIff(hex: seq<byte>, bytes: seq<byte>)
    requires |hex| == 2 * |bytes|
    ensures DecodeHex(hex) == Some(bytes) <==> Lower(hex) == EncodeHex(bytes)
    decreases |hex|
  {
    if bytes != [] {
      HexIff(hex[2..], bytes[1..]);
      var l, e := Lower(hex), EncodeHex(bytes);
      assert l[2..] == Lower(hex[2..]) && e[2..] == EncodeHex(bytes[1..]);
      assert l == e <==> l[0] == e[0] && l[1] == e[1] && l[2..] == e[2..] by {
        assert l == [l[0], l[1]] + l[2..] && e == [e[0], e[1]] + e[2..];
      }
      NibbleIff(hex[0], bytes[0] / 16);
      NibbleIff(hex[1], bytes[0] % 16);
      assert bytes == [bytes[0]] + bytes[1..];
    }
  }

  lemma NibbleIff(c: byte, n: nat)
    requires n < 16
    ensures Nibble(c) == Some(n) <==> (if 0x41 <= c <= 0x46 then c + 0x20 else c) == HexDigit(n)
  {}

  // ---- What a device accepts -------------------------------------------------

  type Key = seq<byte>

  /** Key identifiers, which 32-byte strings are keys, and signature checking. */
  datatype Crypto = Crypto(keyId: Key -> seq<byte>, isKey: Key -> bool, verify: (Key, seq<byte>, seq<byte>) -> bool)

  datatype Signed = Signed(body: seq<byte>, signature: seq<byte>, manifest: Manifest)

  /** `SignedManifest::from_hex` */
  function FromHex(hex: seq<byte>, utf8: Utf8): Result<Signed> {
    if |hex| != 2 * MANIFEST_LEN then Err(Length)
    else
      match DecodeHex(hex)
      case None => Err(InvalidHex)
      case Some(bytes) =>
        match DecodeBody(bytes[..BODY_LEN], utf8)
        case Ok(m) => Ok(Signed(bytes[..BODY_LEN], bytes[BODY_LEN..], m))
        case Err(e) => Err(e)
  }

  /** "ferrite-ota-manifest-v1" followed by the body. */
  function SigningMessage(body: seq<byte>): seq<byte> {
    [0x66, 0x65, 0x72, 0x72, 0x69, 0x74, 0x65, 0x2D, 0x6F, 0x74, 0x61, 0x2D,
     0x6D, 0x61, 0x6E, 0x69, 0x66, 0x65, 0x73, 0x74, 0x2D, 0x76, 0x31] + body
  }

  /** The first trusted key with this identifier. */
  function FindKey(c: Crypto, trusted: seq<Key>, id: seq<byte>): (k: Option<Key>)
    ensures k.Some? ==> k.value in trusted && c.keyId(k.value) == id
  {
    if trusted == [] then None
    else if c.keyId(trusted[0]) == id then Some(trusted[0])
    else FindKey(c, trusted[1..], id)
  }

  datatype Policy = Policy(trusted: seq<Key>, minSecurityVersion: u32)

  /** `UpdatePolicy::check`: signature first, then the anti-rollback floor. */
  function Check(c: Crypto, p: Policy, s: Signed): Result<Manifest> {
    match FindKey(c, p.trusted, s.manifest.keyId)
    case None => Err(UnknownKey)
    case Some(key) =>
      if !c.isKey(key) then Err(UnknownKey)
      else if !c.verify(key, SigningMessage(s.body), s.signature) then Err(BadSignature)
      else if s.manifest.securityVersion < p.minSecurityVersion then
        Err(Rollback(s.manifest.securityVersion, p.minSecurityVersion))
      else Ok(s.manifest)
  }

  /** A trusted key signed exactly this manifest, which is not below the floor. */
  ghost predicate Authorised(c: Crypto, p: Policy, m: Manifest, signature: seq<byte>) {
    && |m.sha256| == 32 && |m.keyId| == 8 && |m.version| <= VERSION_LEN
    && m.securityVersion >= p.minSecurityVersion
    && exists key :: key in p.trusted && c.keyId(key) == m.keyId && c.verify(key, SigningMessage(EncodeBody(m)), signature)
  }

  /** Whatever hex the server sends, an accepted manifest is one a trusted key signed. */
  lemma AcceptedIsAuthorised(c: Crypto, p: Policy, hex: seq<byte>, utf8: Utf8)
    requires FromHex(hex, utf8).Ok? && Check(c, p, FromHex(hex, utf8).value).Ok?
    ensures var s := FromHex(hex, utf8).value;
            Check(c, p, s).value == s.manifest && Authorised(c, p, s.manifest, s.signature)
  {
    hide DecodeBody, EncodeBody;
    var s := FromHex(hex, utf8).value;
    DecodedEncodes(s.body, s.manifest, utf8);
    var key := FindKey(c, p.trusted, s.manifest.keyId).value;
    assert key in p.trusted && c.keyId(key) == s.manifest.keyId
        && c.verify(key, SigningMessage(EncodeBody(s.manifest)), s.signature);
  }

  /** Every trusted key is a key, and no two share an identifier. */
  ghost predicate Configured(c: Crypto, trusted: seq<Key>) {
    && (forall i :: 0 <= i < |trusted| ==> c.isKey(trusted[i]))
    && (forall i, j :: 0 <= i < j < |trusted| ==> c.keyId(trusted[i]) != c.keyId(trusted[j]))
  }

  lemma {:induction false} FindsKey(c: Crypto, trusted: seq<Key>, key: Key)
    requires Configured(c, trusted) && key in trusted
    ensures FindKey(c, trusted, c.keyId(key)) == Some(key) && c.isKey(key)
    decreases |trusted|
  {
    if key != trusted[0] {
      assert key in trusted[1..];
      FindsKey(c, trusted[1..], key);
      var i :| 0 < i < |trusted| && trusted[i] == key;
    }
  }

  /** The text of a manifest signed with `signature`, in either case. */
  ghost predicate Carries(hex: seq<byte>, m: Manifest, signature: seq<byte>, utf8: Utf8) {
    WellFormed(m, utf8) && |signature| == SIGNATURE_LEN && Lower(hex) == EncodeHex(EncodeBody(m) + signature)
  }

  lemma CarriedDecodes(hex: seq<byte>, m: Manifest, signature: seq<byte>, utf8: Utf8)
    requires Carries(hex, m, signature, utf8)
    ensures FromHex(hex, utf8) == Ok(Signed(EncodeBody(m), signature, m))
  {
    hide DecodeHex, DecodeBody, EncodeBody, Lower, EncodeHex;
    var bytes := EncodeBody(m) + signature;
    HexIff(hex, bytes);
    assert bytes[..BODY_LEN] == EncodeBody(m) && bytes[BODY_LEN..] == signature;
    EncodedDecodes(m, utf8);
  }

  lemma DecodedCarries(hex: seq<byte>, utf8: Utf8)
    requires FromHex(hex, utf8).Ok?
    ensures var s := FromHex(hex, utf8).value; Carries(hex, s.manifest, s.signature, utf8)
  {
    hide DecodeBody, EncodeBody, Lower, EncodeHex;
    var bytes := DecodeHex(hex).value;
    var s := FromHex(hex, utf8).value;
    HexIff(hex, bytes);
    DecodedEncodes(s.body, s.manifest, utf8);
    assert bytes == s.body + s.signature;
  }

  /** A device accepts a header exactly if it carries a manifest that a trusted key signed, at or above the floor. */
  lemma AcceptedIff(c: Crypto, p: Policy, hex: seq<byte>, utf8: Utf8, m: Manifest)
    requires Configured(c, p.trusted)
    ensures (FromHex(hex, utf8).Ok? && Check(c, p, FromHex(hex, utf8).value) == Ok(m))
       <==> exists signature :: Carries(hex, m, signature, utf8) && Authorised(c, p, m, signature)
  {
    hide FromHex, Carries, EncodeBody;
    if FromHex(hex, utf8).Ok? && Check(c, p, FromHex(hex, utf8).value) == Ok(m) {
      AcceptedIsAuthorised(c, p, hex, utf8);
      DecodedCarries(hex, utf8);
      var s := FromHex(hex, utf8).value;
      assert Carries(hex, m, s.signature, utf8) && Authorised(c, p, m, s.signature);
    }
    if signature :| Carries(hex, m, signature, utf8) && Authorised(c, p, m, signature) {
      CarriedDecodes(hex, m, signature, utf8);
      var key :| key in p.trusted && c.keyId(key) == m.keyId && c.verify(key, SigningMessage(EncodeBody(m)), signature);
      FindsKey(c, p.trusted, key);
    }
  }
}
