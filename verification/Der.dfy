/**
 The distinguished encoding used for timestamp requests and replies
 (X.690 sections 8.1.3 and 8.3; RFC 3161 sections 2.4.1 and 2.4.2).
 */
module Der {
  import opened Bytes

  const INTEGER: byte := 0x02
  const OCTET_STRING: byte := 0x04
  const SEQUENCE: byte := 0x30

  // ---- Big-endian numbers ----------------------------------------------------------

  /** `to_be_bytes` of an n-byte number. */
  function BeBytes(v: nat, n: nat): (s: seq<byte>)
    ensures |s| == n
  {
    if n == 0 then [] else BeBytes(v / 256, n - 1) + [v % 256]
  }

  /** `fold(0, |acc, b| (acc << 8) | b)` */
  function BeValue(s: seq<byte>): nat {
    if s == [] then 0 else BeValue(s[..|s| - 1]) * 256 + s[|s| - 1]
  }

  function LeadingZeros(s: seq<byte>): (n: nat)
    ensures n <= |s|
    ensures forall i :: 0 <= i < n ==> s[i] == 0
    ensures n < |s| ==> s[n] != 0
  {
    if s == [] || s[0] != 0 then 0 else 1 + LeadingZeros(s[1..])
  }

  lemma {:induction false} BeRoundTrip(v: nat, n: nat)
    requires v < Pow256(n)
    ensures BeValue(BeBytes(v, n)) == v
    decreases n
  {
    if n > 0 {
      assert v / 256 < Pow256(n - 1);
      BeRoundTrip(v / 256, n - 1);
      assert BeBytes(v, n)[..n - 1] == BeBytes(v / 256, n - 1);
    }
  }

  lemma {:induction false} BeValueBound(s: seq<byte>)
    ensures BeValue(s) < Pow256(|s|)
    decreases |s|
  {
    if s != [] { BeValueBound(s[..|s| - 1]); }
  }

  lemma {:induction false} BeZeros(s: seq<byte>, k: nat)
    requires k <= |s| && forall i :: 0 <= i < k ==> s[i] == 0
    ensures BeValue(s[k..]) == BeValue(s)
    decreases |s|
  {
    if k < |s| {
      BeZeros(s[..|s| - 1], k);
      assert s[k..][..|s[k..]| - 1] == s[..|s| - 1][k..];
    } else if s != [] {
      BeZeros(s[..|s| - 1], k - 1);
      assert s[..|s| - 1][k - 1..] == [] == s[k..];
    }
  }

  /** A first byte that is not zero makes the number large. */
  lemma {:induction false} BeValueAtLeast(s: seq<byte>)
    requires s != [] && s[0] != 0
    ensures Pow256(|s| - 1) <= BeValue(s)
    decreases |s|
  {
    if |s| > 1 { BeValueAtLeast(s[..|s| - 1]); }
  }

  /** The bytes of v without leading zeros. */
  function Minimal(v: u64): seq<byte> {
    var b := BeBytes(v, 8);
    b[LeadingZeros(b)..]
  }

  lemma MinimalMeans(v: u64)
    ensures BeValue(Minimal(v)) == v && |Minimal(v)| <= 8
    ensures Minimal(v) != [] ==> Minimal(v)[0] != 0
    ensures Minimal(v) == [] <==> v == 0
    ensures |Minimal(v)| <= 4 <==> v < 0x1_0000_0000
  {
    var b := BeBytes(v, 8);
    Pow256Values();
    BeRoundTrip(v, 8);
    BeZeros(b, LeadingZeros(b));
    hide BeBytes, LeadingZeros;
    var m := Minimal(v);
    BeValueBound(m);
    if m != [] { BeValueAtLeast(m); }
    hide BeValue;
    if |m| <= 4 { PowMonotone(|m|, 4); } else { PowMonotone(4, |m| - 1); }
  }

  lemma {:induction false} PowMonotone(m: nat, n: nat)
    requires m <= n
    ensures Pow256(m) <= Pow256(n)
    decreases n - m
  {
    if m < n { PowMonotone(m, n - 1); }
  }

  // ---- Tag, length, content ----------------------------------------------------------

  /** A slice whose length is a usize. */
  predicate Sized(s: seq<byte>) { |s| < 0x1_0000_0000_0000_0000 }

  /** `der` */
  function Der(tag: byte, content: seq<byte>): seq<byte>
    requires Sized(content)
  {
    if |content| < 0x80 then [tag, |content|] + content
    else
      MinimalMeans(|content|);
      [tag, 0x80 + |Minimal(|content|)|] + Minimal(|content|) + content
  }

  datatype Tlv = Tlv(tag: byte, content: seq<byte>, rest: seq<byte>)

  /** `read_tlv`: at most four length bytes, not necessarily the fewest. */
  function ReadTlv(buf: seq<byte>): Option<Tlv> {
    if |buf| < 2 then None
    else
      var first := buf[1];
      var n := if first < 0x80 then 0 else first - 0x80;
      if first >= 0x80 && (n == 0 || n > 4 || |buf| - 2 < n) then None
      else
        var len := if first < 0x80 then first else BeValue(buf[2..2 + n]);
        TakeContent(buf[0], len, buf[2 + n..])
  }

  function TakeContent(tag: byte, len: nat, rest: seq<byte>): Option<Tlv> {
    if |rest| < len then None else Some(Tlv(tag, rest[..len], rest[len..]))
  }

  lemma ShortReadsBack(tag: byte, content: seq<byte>, rest: seq<byte>)
    requires |content| < 0x80
    ensures ReadTlv([tag, |content|] + content + rest) == Some(Tlv(tag, content, rest))
  {
    var buf := [tag, |content|] + content + rest;
    assert buf[2..] == content + rest;
    assert (content + rest)[..|content|] == content && (content + rest)[|content|..] == rest;
    hide BeValue;
  }

  lemma Slices(head: seq<byte>, m: seq<byte>, content: seq<byte>, rest: seq<byte>)
    requires |head| == 2
    ensures var buf := head + m + content + rest;
            && buf[0] == head[0] && buf[1] == head[1]
            && buf[2..2 + |m|] == m && buf[2 + |m|..] == content + rest
  {
  }

  lemma LongRead(buf: seq<byte>, m: seq<byte>, content: seq<byte>, rest: seq<byte>)
    requires 1 <= |m| <= 8 && BeValue(m) == |content| && 2 + |m| <= |buf|
    requires buf[1] == 0x80 + |m| && buf[2..2 + |m|] == m && buf[2 + |m|..] == content + rest
    ensures ReadTlv(buf) == if |m| <= 4 then Some(Tlv(buf[0], content, rest)) else None
  {
    hide BeValue;
    Halves(content, rest);
    if |m| <= 4 {
      assert ReadTlv(buf) == TakeContent(buf[0], |content|, buf[2 + |m|..]);
    }
  }

  lemma Halves(content: seq<byte>, rest: seq<byte>)
    ensures (content + rest)[..|content|] == content && (content + rest)[|content|..] == rest
  {
  }

  lemma LongReadsBack(tag: byte, m: seq<byte>, content: seq<byte>, rest: seq<byte>)
    requires 1 <= |m| <= 8 && BeValue(m) == |content|
    ensures ReadTlv([tag, 0x80 + |m|] + m + content + rest) == if |m| <= 4 then Some(Tlv(tag, content, rest)) else None
  {
    hide BeValue, ReadTlv;
    Slices([tag, 0x80 + |m|], m, content, rest);
    LongRead([tag, 0x80 + |m|] + m + content + rest, m, content, rest);
  }

  /** What was encoded is read back exactly if its length fits four bytes. */
  lemma ReadsBackIff(tag: byte, content: seq<byte>, rest: seq<byte>)
    requires Sized(content)
    ensures ReadTlv(Der(tag, content) + rest) == Some(Tlv(tag, content, rest)) <==> |content| < 0x1_0000_0000
    ensures |content| >= 0x1_0000_0000 ==> ReadTlv(Der(tag, content) + rest).None?
  {
    hide ReadTlv, Minimal, BeValue;
    if |content| < 0x80 {
      ShortReadsBack(tag, content, rest);
    } else {
      MinimalMeans(|content|);
      LongReadsBack(tag, Minimal(|content|), content, rest);
    }
  }

  /** Whatever is read lies in the buffer: the content and what follows are its end. */
  lemma ReadIsSuffix(buf: seq<byte>)
    requires ReadTlv(buf).Some?
    ensures var t := ReadTlv(buf).value;
            && t.tag == buf[0]
            && |t.content| + |t.rest| + 2 <= |buf| <= |t.content| + |t.rest| + 6
            && buf[|buf| - |t.content| - |t.rest|..] == t.content + t.rest
  {
    hide BeValue;
  }

  // ---- Integers ---------------------------------------------------------------------------

  /** The content octets of `der_uint`. */
  function UintContent(v: u64): (c: seq<byte>)
  {
    var b := BeBytes(v, 8);
    var skip := if LeadingZeros(b) < 7 then LeadingZeros(b) else 7;
    if b[skip] >= 0x80 then [0] + b[skip..] else b[skip..]
  }

  function DerUint(v: u64): seq<byte> { Der(INTEGER, UintContent(v)) }

  /** The content is the number, not negative, in the fewest octets. */
  lemma UintCanonical(v: u64)
    ensures var c := UintContent(v);
            && 1 <= |c| <= 9 && BeValue(c) == v
            && c[0] < 0x80
            && (|c| > 1 && c[0] == 0 ==> c[1] >= 0x80)
            && (|c| <= 4 <==> v < 0x8000_0000)
  {
    var b := BeBytes(v, 8);
    var skip := if LeadingZeros(b) < 7 then LeadingZeros(b) else 7;
    BeRoundTrip(v, 8);
    BeZeros(b, skip);
    hide BeBytes, LeadingZeros;
    var c := UintContent(v);
    if b[skip] >= 0x80 { BeZeros(c, 1); }
    UintLength(c, v);
  }

  lemma {:induction false} FirstOctet(c: seq<byte>)
    requires c != []
    ensures c[0] * Pow256(|c| - 1) <= BeValue(c) < (c[0] + 1) * Pow256(|c| - 1)
    decreases |c|
  {
    var k := |c| - 1;
    if k > 0 {
      FirstOctet(c[..k]);
      Scale(c[0], Pow256(k - 1), BeValue(c[..k]), c[k]);
    } else {
      assert c[..0] == [];
    }
  }

  lemma Scale(a: nat, p: nat, v: nat, b: byte)
    requires a * p <= v < (a + 1) * p
    ensures a * (256 * p) <= v * 256 + b < (a + 1) * (256 * p)
  {
    assert a * (256 * p) == 256 * (a * p);
    assert (a + 1) * (256 * p) == 256 * ((a + 1) * p);
  }

  lemma Below(a: nat, p: nat, v: nat)
    requires v < (a + 1) * p && a < 0x80 && p <= 0x100_0000
    ensures v < 0x8000_0000
  {
    assert (a + 1) * p <= 0x80 * p;
  }

  lemma AtLeast(a: nat, p: nat, v: nat, x: nat, q: nat)
    requires a * p <= v && x <= a && q <= p
    ensures x * q <= v
  {
    assert x * q <= a * q <= a * p;
  }

  /** A number that starts with a clear bit, and is not padded, has at most four octets exactly below 2^31. */
  lemma UintLength(c: seq<byte>, v: nat)
    requires c != [] && BeValue(c) == v && c[0] < 0x80 && (|c| > 1 && c[0] == 0 ==> c[1] >= 0x80)
    ensures |c| <= 4 <==> v < 0x8000_0000
  {
    Pow256Values();
    assert Pow256(4) == 256 * Pow256(3);
    FirstOctet(c);
    BeZeros(c, if c[0] == 0 then 1 else 0);
    hide BeValue, Pow256;
    if |c| <= 4 {
      PowMonotone(|c| - 1, 3);
      Below(c[0], Pow256(|c| - 1), v);
    } else if c[0] != 0 {
      PowMonotone(4, |c| - 1);
      AtLeast(c[0], Pow256(|c| - 1), v, 1, Pow256(4));
    } else {
      FirstOctet(c[1..]);
      PowMonotone(3, |c| - 2);
      AtLeast(c[1], Pow256(|c| - 2), v, 0x80, Pow256(3));
    }
  }

  // ---- Requests and replies ------------------------------------------------------------------

  const SHA256_OID: seq<byte> := [0x60, 0x86, 0x48, 0x01, 0x65, 0x03, 0x04, 0x02, 0x01]

  function ImprintContent(digest: seq<byte>): (s: seq<byte>)
    requires |digest| == 32
    ensures |s| == 49
  {
    Der(SEQUENCE, Der(0x06, SHA256_OID) + Der(0x05, [])) + Der(OCTET_STRING, digest)
  }

  function Imprint(digest: seq<byte>): (s: seq<byte>)
    requires |digest| == 32
  {
    Der(SEQUENCE, ImprintContent(digest))
  }

  function RequestBody(digest: seq<byte>, nonce: u64): (s: seq<byte>)
    requires |digest| == 32
    ensures |s| < 300
  {
    UintCanonical(1);
    UintCanonical(nonce);
    DerUint(1) + Imprint(digest) + DerUint(nonce) + Der(0x01, [0xFF])
  }

  /** `tsa_request` */
  function TsaRequest(digest: seq<byte>, nonce: u64): seq<byte>
    requires |digest| == 32
  {
    Der(SEQUENCE, RequestBody(digest, nonce))
  }

  datatype Status = Status(code: u32) | Malformed | NoToken

  /** `tsa_response_status` */
  function ResponseStatus(resp: seq<byte>): Status {
    match ReadTlv(resp)
    case None => Malformed
    case Some(outer) =>
      if outer.tag != SEQUENCE then Malformed
      else
        match ReadTlv(outer.content)
        case None => Malformed
        case Some(info) =>
          if info.tag != SEQUENCE then Malformed
          else
            match ReadTlv(info.content)
            case None => Malformed
            case Some(status) =>
              if status.tag != INTEGER || status.content == [] || |status.content| > 4 then Malformed
              else
                BeValueBound(status.content);
                FourOctets(status.content);
                var code := BeValue(status.content);
                if code <= 1 && info.rest == [] then NoToken else Status(code)
  }

  lemma FourOctets(c: seq<byte>)
    requires |c| <= 4
    ensures Pow256(|c|) <= 0x1_0000_0000
  {
    Pow256Values();
    PowMonotone(|c|, 4);
  }

  /**
   A reply that carries `code`, an explanation and a token, as an authority
   encodes it. The explanation is whatever follows the code in the status
   information, such as the free text and failure bits of a refusal.
   */
  function Response(code: u64, explanation: seq<byte>, token: seq<byte>): seq<byte>
    requires |explanation| < 0x1000_0000 && |token| < 0x1000_0000
  {
    UintCanonical(code);
    Der(SEQUENCE, Der(SEQUENCE, DerUint(code) + explanation) + token)
  }

  /** Exactly the codes below 2^31 are read back, and a granted one only together with a token. */
  lemma StatusReadBack(code: u64, explanation: seq<byte>, token: seq<byte>)
    requires |explanation| < 0x1000_0000 && |token| < 0x1000_0000
    ensures ResponseStatus(Response(code, explanation, token))
         == if code >= 0x8000_0000 then Malformed else if code <= 1 && token == [] then NoToken else Status(code)
  {
    UintCanonical(code);
    var c := UintContent(code);
    hide UintContent, BeValue;
    ReadsBackIff(INTEGER, c, explanation);
    var info := Der(INTEGER, c) + explanation;
    ReadsBackIff(SEQUENCE, info, token);
    var body := Der(SEQUENCE, info) + token;
    ReadsBackIff(SEQUENCE, body, []);
    assert Der(SEQUENCE, body) + [] == Der(SEQUENCE, body);
    hide ReadTlv, Der;
  }

  /** Encodings are self-delimiting. */
  lemma DerUnique(t1: byte, c1: seq<byte>, r1: seq<byte>, t2: byte, c2: seq<byte>, r2: seq<byte>)
    requires |c1| < 0x1_0000_0000 && |c2| < 0x1_0000_0000
    requires Der(t1, c1) + r1 == Der(t2, c2) + r2
    ensures t1 == t2 && c1 == c2 && r1 == r2
  {
    ReadsBackIff(t1, c1, r1);
    ReadsBackIff(t2, c2, r2);
    hide Der, ReadTlv;
  }

  lemma ImprintInjective(d1: seq<byte>, d2: seq<byte>)
    requires |d1| == |d2| == 32 && Imprint(d1) == Imprint(d2)
    ensures d1 == d2
  {
    var algorithm := Der(SEQUENCE, Der(0x06, SHA256_OID) + Der(0x05, []));
    var x1, x2 := Der(OCTET_STRING, d1), Der(OCTET_STRING, d2);
    assert |algorithm| == 15 && |x1| == |x2| == 34;
    assert algorithm + x1 == algorithm + x2 by {
      assert Imprint(d1) + [] == Imprint(d1) == Imprint(d2) + [];
      DerUnique(SEQUENCE, algorithm + x1, [], SEQUENCE, algorithm + x2, []);
    }
    assert x1 == (algorithm + x1)[15..] == (algorithm + x2)[15..] == x2;
    assert d1 == x1[2..] && d2 == x2[2..];
  }

  /** Three encodings in a row, one after the other. */
  lemma ThreeUnique(t: byte, a: seq<byte>, u: byte, b1: seq<byte>, b2: seq<byte>,
                    w: byte, c1: seq<byte>, c2: seq<byte>, end: seq<byte>)
    requires |a| < 0x1000 && |b1| < 0x1000 && |b2| < 0x1000 && |c1| < 0x1000 && |c2| < 0x1000
    ensures Der(t, a) + Der(u, b1) + Der(w, c1) + end == Der(t, a) + Der(u, b2) + Der(w, c2) + end ==>
              b1 == b2 && c1 == c2
  {
    hide Der;
    if Der(t, a) + Der(u, b1) + Der(w, c1) + end == Der(t, a) + Der(u, b2) + Der(w, c2) + end {
      var x1, x2 := Der(w, c1) + end, Der(w, c2) + end;
      assert Der(t, a) + (Der(u, b1) + x1) == Der(t, a) + Der(u, b1) + Der(w, c1) + end;
      assert Der(t, a) + (Der(u, b2) + x2) == Der(t, a) + Der(u, b2) + Der(w, c2) + end;
      DerUnique(t, a, Der(u, b1) + x1, t, a, Der(u, b2) + x2);
      DerUnique(u, b1, x1, u, b2, x2);
      DerUnique(w, c1, end, w, c2, end);
    }
  }

  /** A request determines the digest and the nonce it was made for. */
  lemma RequestInjective(d1: seq<byte>, n1: u64, d2: seq<byte>, n2: u64)
    requires |d1| == |d2| == 32
    ensures TsaRequest(d1, n1) == TsaRequest(d2, n2) <==> (d1, n1) == (d2, n2)
  {
    if TsaRequest(d1, n1) == TsaRequest(d2, n2) {
      RequestDetermines(d1, n1, d2, n2);
    }
  }

  lemma RequestDetermines(d1: seq<byte>, n1: u64, d2: seq<byte>, n2: u64)
    requires |d1| == |d2| == 32
    ensures TsaRequest(d1, n1) == TsaRequest(d2, n2) ==> d1 == d2 && n1 == n2
  {
    var b1, b2 := RequestBody(d1, n1), RequestBody(d2, n2);
    if Der(SEQUENCE, b1) != Der(SEQUENCE, b2) { return; }
    assert b1 == b2 by {
      hide Der, RequestBody;
      assert Der(SEQUENCE, b1) + [] == Der(SEQUENCE, b1) == Der(SEQUENCE, b2) == Der(SEQUENCE, b2) + [];
      DerUnique(SEQUENCE, b1, [], SEQUENCE, b2, []);
    }
    hide Der, UintContent, BeValue, ImprintContent;
    UintCanonical(1);
    UintCanonical(n1);
    UintCanonical(n2);
    ThreeUnique(INTEGER, UintContent(1), SEQUENCE, ImprintContent(d1), ImprintContent(d2),
                INTEGER, UintContent(n1), UintContent(n2), Der(0x01, [0xFF]));
    ImprintInjective(d1, d2);
  }
}
