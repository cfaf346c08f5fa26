/**
 Run-length compression of chunk payloads, and the transport that applies it.
 A run of three or more equal bytes, or any run of the marker, becomes
 marker, byte, count; everything else is copied.
 */
module Rle {
  import opened Bytes
  import opened Wire
  import opened Crc16

  const MARKER: byte := 0xFF
  const MAX_RUN := 255

  // ---- Specification ---------------------------------------------------------

  function Repeat(b: byte, n: nat): (s: seq<byte>)
    ensures |s| == n && forall i :: 0 <= i < n ==> s[i] == b
  {
    seq(n, _ => b)
  }

  /** Equal bytes at the front of s, counted up to `MAX_RUN`. */
  function RunLength(s: seq<byte>): (n: nat)
    requires s != []
    ensures 1 <= n <= |s| && n <= MAX_RUN
    ensures s[..n] == Repeat(s[0], n)
  {
    RunFrom(s, 1)
  }

  function RunFrom(s: seq<byte>, n: nat): (m: nat)
    requires 1 <= n <= |s| && n <= MAX_RUN
    requires forall i :: 0 <= i < n ==> s[i] == s[0]
    ensures n <= m <= |s| && m <= MAX_RUN
    ensures forall i :: 0 <= i < m ==> s[i] == s[0]
    decreases |s| - n
  {
    if n < |s| && s[n] == s[0] && n < MAX_RUN then RunFrom(s, n + 1) else n
  }

  function Token(b: byte, run: nat): (t: seq<byte>)
    requires 1 <= run <= MAX_RUN
    ensures 1 <= |t|
  {
    if run >= 3 || b == MARKER then [MARKER, b, run] else Repeat(b, run)
  }

  function Compressed(s: seq<byte>): seq<byte>
    decreases |s|
  {
    if s == [] then [] else Token(s[0], RunLength(s)) + Compressed(s[RunLength(s)..])
  }

  function Expand(s: seq<byte>): Option<seq<byte>>
    decreases |s|
  {
    if s == [] then Some([])
    else if s[0] != MARKER then
      match Expand(s[1..])
      case Some(t) => Some([s[0]] + t)
      case None => None
    else if |s| < 3 then None
    else
      match Expand(s[3..])
      case Some(t) => Some(Repeat(s[1], s[2]) + t)
      case None => None
  }

  // ---- The loops -------------------------------------------------------------

  /** The inner loop that measures a run. */
  method CountRun(input: seq<byte>, i: nat) returns (run: nat)
    requires i < |input|
    ensures run == RunLength(input[i..])
  {
    run := 1;
    while i + run < |input| && input[i + run] == input[i] && run < MAX_RUN
      invariant 1 <= run <= MAX_RUN && i + run <= |input|
      invariant forall k :: 0 <= k < run ==> input[i..][k] == input[i]
      invariant RunFrom(input[i..], run) == RunLength(input[i..])
    {
      run := run + 1;
    }
  }

  /** Writes one token at `o`, or stops when the output is full. */
  method PutToken(b: byte, run: nat, out: array<byte>, o: nat) returns (fits: bool)
    requires 1 <= run <= MAX_RUN && o <= out.Length
    modifies out
    ensures fits <==> o + |Token(b, run)| <= out.Length
    ensures fits ==> out[o..o + |Token(b, run)|] == Token(b, run)
    ensures out[..o] == old(out[..o])
  {
    if run >= 3 || b == MARKER {
      if o + 3 > out.Length {
        return false;
      }
      out[o], out[o + 1], out[o + 2] := MARKER, b, run;
    } else {
      for k := 0 to run
        invariant o + k <= out.Length
        invariant out[o..o + k] == Repeat(b, k)
        invariant out[..o] == old(out[..o])
      {
        if o + k >= out.Length {
          return false;
        }
        out[o + k] := b;
      }
    }
    return true;
  }

  /** Compresses `input` into `out[from..]`. */
  method RleCompress(input: seq<byte>, out: array<byte>, from: nat) returns (n: Option<nat>)
    requires from <= out.Length
    modifies out
    ensures n == if |Compressed(input)| <= out.Length - from && |Compressed(input)| < |input|
                 then Some(|Compressed(input)|) else None
    ensures n.Some? ==> out[from..from + n.value] == Compressed(input)
    ensures out[..from] == old(out[..from])
  {
    hide Compressed, Token, RunLength;
    var i, o := 0, from;
    ghost var head := old(out[..from]);
    ghost var done: seq<byte> := [];
    CompressedNothing();
    assert done + Compressed(input[0..]) == Compressed(input);
    while i < |input|
      invariant i <= |input| && from <= o <= out.Length
      invariant out[..o] == head + done
      invariant done + Compressed(input[i..]) == Compressed(input)
    {
      var run := CountRun(input, i);
      CompressedStep(input, i, done);
      ghost var token := Token(input[i], run);
      var fits := PutToken(input[i], run, out, o);
      if !fits {
        Take(out[..], head, done, o);
        return None;
      }
      assert out[..o + |token|] == out[..o] + out[o..o + |token|] == head + done + token;
      assert head + done + token == head + (done + token);
      o := o + |Token(input[i], run)|;
      done := done + token;
      i := i + run;
    }
    CompressedNothing();
    assert input[i..] == [] && done + [] == done;
    Take(out[..], head, done, o);
    if o - from < |input| {
      return Some(o - from);
    } else {
      return None;
    }
  }

  lemma CompressedNothing()
    ensures Compressed([]) == []
  {}

  lemma CompressedStep(input: seq<byte>, i: nat, done: seq<byte>)
    requires i < |input|
    ensures var run := RunLength(input[i..]);
            done + Compressed(input[i..]) == done + Token(input[i], run) + Compressed(input[i + run..])
  {
    var run := RunLength(input[i..]);
    assert input[i..][run..] == input[i + run..];
    var token, tail := Token(input[i], run), Compressed(input[i + run..]);
    assert done + (token + tail) == done + token + tail;
  }

  lemma Take(whole: seq<byte>, head: seq<byte>, done: seq<byte>, o: nat)
    requires o <= |whole| && whole[..o] == head + done
    ensures whole[..|head|] == head && whole[|head|..o] == done
  {
    assert whole[..|head|] == whole[..o][..|head|];
    assert whole[|head|..o] == whole[..o][|head|..];
  }

  predicate Fits(t: Option<seq<byte>>, cap: nat) {
    t.Some? && |t.value| <= cap
  }

  method RleDecompress(input: seq<byte>, out: array<byte>) returns (n: Option<nat>)
    modifies out
    ensures n.Some? <==> Fits(Expand(input), out.Length)
    ensures n.Some? ==> n.value <= out.Length && out[..n.value] == Expand(input).value
  {
    var i, o := 0, 0;
    PrependNothing(Expand(input));
    while i < |input|
      invariant i <= |input| && o <= out.Length
      invariant Expand(input) == Prepend(out[..o], Expand(input[i..]))
    {
      ghost var done := out[..o];
      assert input[i..][1..] == input[i + 1..];
      if input[i] == MARKER {
        if i + 2 >= |input| {
          return None;
        }
        var b, count := input[i + 1], input[i + 2];
        assert input[i..][3..] == input[i + 3..];
        PrependTwice(done, Repeat(b, count), Expand(input[i + 3..]));
        if o + count > out.Length {
          return None;
        }
        ghost var start := o;
        for k := 0 to count
          invariant o == start + k <= out.Length
          invariant out[..o] == done + Repeat(b, k)
        {
          out[o] := b;
          o := o + 1;
        }
        i := i + 3;
      } else {
        PrependTwice(done, [input[i]], Expand(input[i + 1..]));
        if o >= out.Length {
          return None;
        }
        out[o] := input[i];
        o := o + 1;
        i := i + 1;
        assert out[..o] == done + [input[i - 1]];
      }
    }
    return Some(o);
  }

  ghost function Prepend(a: seq<byte>, t: Option<seq<byte>>): Option<seq<byte>> {
    match t
    case Some(b) => Some(a + b)
    case None => None
  }

  lemma PrependNothing(t: Option<seq<byte>>)
    ensures Prepend([], t) == t
  {
    if t.Some? {
      assert [] + t.value == t.value;
    }
  }

  lemma PrependTwice(a: seq<byte>, b: seq<byte>, t: Option<seq<byte>>)
    ensures Prepend(a, Prepend(b, t)) == Prepend(a + b, t)
  {
    if t.Some? {
      assert a + (b + t.value) == a + b + t.value;
    }
  }

  // ---- Round trip ------------------------------------------------------------

  lemma {:induction false} ExpandLiterals(b: byte, n: nat, tail: seq<byte>)
    requires b != MARKER
    ensures Expand(Repeat(b, n) + tail) == Prepend(Repeat(b, n), Expand(tail))
    decreases n
  {
    if n == 0 {
      assert Repeat(b, n) + tail == tail;
      PrependNothing(Expand(tail));
    } else {
      assert (Repeat(b, n) + tail)[1..] == Repeat(b, n - 1) + tail;
      ExpandLiterals(b, n - 1, tail);
      assert [b] + Repeat(b, n - 1) == Repeat(b, n);
      PrependTwice([b], Repeat(b, n - 1), Expand(tail));
    }
  }

  lemma ExpandToken(b: byte, run: nat, tail: seq<byte>)
    requires 1 <= run <= MAX_RUN
    ensures Expand(Token(b, run) + tail) == Prepend(Repeat(b, run), Expand(tail))
  {
    if run >= 3 || b == MARKER {
      assert (Token(b, run) + tail)[3..] == tail;
    } else {
      ExpandLiterals(b, run, tail);
    }
  }

  /** Expanding a compressed string gives the string back, whatever its bytes. */
  lemma {:induction false} RoundTrip(s: seq<byte>)
    ensures Expand(Compressed(s)) == Some(s)
    decreases |s|
  {
    hide Token, RunLength;
    if s != [] {
      var n := RunLength(s);
      RoundTrip(s[n..]);
      ExpandToken(s[0], n, Compressed(s[n..]));
      assert s == Repeat(s[0], n) + s[n..];
    }
  }

  // ---- The compressing transport ---------------------------------------------

  const MAX_PAYLOAD_SIZE := 248

  /** Room for the compressed bytes after the two that hold the original length. */
  const SCRATCH := 254

  /** Original length, then the compressed bytes. */
  function Packed(payload: seq<byte>): seq<byte>
    requires |payload| < 0x1_0000
  {
    U16Bytes(|payload|) + Compressed(payload)
  }

  /** Compression is tried, helps, and the result fits a chunk. */
  predicate Worthwhile(payload: seq<byte>) {
    0 < |payload| && |Compressed(payload)| < |payload| && |Compressed(payload)| + 2 <= MAX_PAYLOAD_SIZE
  }

  /** A header with the compressed flag set and a new payload length. */
  function Reheader(header: seq<byte>, payloadLen: u16): (h: seq<byte>)
    requires |header| == HEADER_SIZE
    ensures |h| == HEADER_SIZE
  {
    header[..3] + [SetFlag(header[3], Flag.Compressed)] + U16Bytes(payloadLen) + header[6..]
  }

  /** What the inner transport is given for a chunk. */
  function Sent(chunk: seq<byte>): seq<byte> {
    if |chunk| < MIN_CHUNK_SIZE || |chunk| < TotalLen(chunk) then chunk
    else
      var payload := chunk[HEADER_SIZE..HEADER_SIZE + PayloadLen(chunk)];
      if !Worthwhile(payload) then chunk
      else
        var packed := Packed(payload);
        WithCrc(Reheader(chunk[..HEADER_SIZE], |packed|) + packed)
  }

  /** `send_chunk`: returns the bytes handed to the inner transport. */
  method SendChunk(chunk: seq<byte>) returns (sent: seq<byte>)
    ensures sent == Sent(chunk)
  {
    hide Update, FromBits, Compressed;
    if |chunk| < MIN_CHUNK_SIZE {
      return chunk;
    }
    var payloadLen := U16(chunk[4], chunk[5]);
    if |chunk| < HEADER_SIZE + payloadLen + CRC_SIZE || payloadLen == 0 {
      return chunk;
    }
    var payload := chunk[HEADER_SIZE..HEADER_SIZE + payloadLen];
    var scratch := new byte[2 + SCRATCH];
    var n := RleCompress(payload, scratch, 2);
    if n.None? {
      return chunk;
    }
    scratch[0], scratch[1] := payloadLen % 256, payloadLen / 256;
    var size := n.value + 2;
    if size > MAX_PAYLOAD_SIZE {
      return chunk;
    }
    assert scratch[..size] == Packed(payload);
    var out := chunk[..HEADER_SIZE];
    out := out[3 := SetFlag(out[3], Flag.Compressed)];
    out := out[4 := size % 256][5 := size / 256];
    out := out + scratch[..size];
    assert out == Reheader(chunk[..HEADER_SIZE], size) + Packed(payload);
    var crc := Crc16Ccitt(out);
    sent := out + [crc % 256, crc / 256];
  }

  /** `decompress_payload` into a buffer of `cap` bytes. */
  function Unpack(packed: seq<byte>, cap: nat): Option<seq<byte>> {
    if |packed| < 2 || U16(packed[0], packed[1]) > cap then None
    else
      var t := Expand(packed[2..]);
      if Fits(t, cap) && |t.value| == U16(packed[0], packed[1]) then t else None
  }

  method DecompressPayload(packed: seq<byte>, out: array<byte>) returns (n: Option<nat>)
    modifies out
    ensures n.Some? <==> Unpack(packed, out.Length).Some?
    ensures n.Some? ==> n.value <= out.Length && Unpack(packed, out.Length) == Some(out[..n.value])
  {
    if |packed| < 2 {
      return None;
    }
    var originalLen := U16(packed[0], packed[1]);
    if originalLen > out.Length {
      return None;
    }
    var len := RleDecompress(packed[2..], out);
    if len.None? || len.value != originalLen {
      return None;
    }
    return Some(originalLen);
  }

  /**
   Compression is transparent to the server. Where it is worthwhile a good
   chunk goes out as a good chunk of the same type and sequence, marked
   compressed, whose payload unpacks to the original and which is at most one
   byte longer; otherwise it goes out unchanged.
   */
  lemma Transparent(raw: seq<byte>, c: Chunk, n: nat, cap: nat)
    requires DecodeChunk(raw) == Ok(c, n) && |c.payload| <= cap
    ensures Worthwhile(c.payload) ==>
              && var packed := Packed(c.payload);
              && DecodeChunk(Sent(raw)) == Ok(c.(flags := SetFlag(c.flags, Flag.Compressed), payload := packed), |Sent(raw)|)
              && Unpack(packed, cap) == Some(c.payload)
              && |Sent(raw)| <= n + 1
    ensures !Worthwhile(c.payload) ==> Sent(raw) == raw
  {
    hide Update, FromBits, Compressed, Expand;
    DecodedIsEncoded(raw, c, n);
    if Worthwhile(c.payload) {
      var packed := Packed(c.payload);
      SentIsEncoded(raw, c, n);
      EncodedDecodes(Sent(raw), c.(flags := SetFlag(c.flags, Flag.Compressed), payload := packed));
      RoundTrip(c.payload);
      assert packed[2..] == Compressed(c.payload);
    }
  }

  lemma SentIsEncoded(raw: seq<byte>, c: Chunk, n: nat)
    requires DecodeChunk(raw) == Ok(c, n) && Worthwhile(c.payload)
    ensures Sent(raw) == EncodeChunk(c.(flags := SetFlag(c.flags, Flag.Compressed), payload := Packed(c.payload)))
  {
    hide Update, FromBits, Compressed, Expand;
    var size := |Packed(c.payload)|;
    var flags := SetFlag(c.flags, Flag.Compressed);
    assert Header(c.chunkType.ToByte(), flags, size, c.sequenceId) == Reheader(raw[..HEADER_SIZE], size) by {
      U16Unique(c.sequenceId, raw[6], raw[7]);
    }
  }
}
