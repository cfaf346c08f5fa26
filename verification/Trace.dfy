/**
 The trace ring buffer. Frames are level, ticks, length, payload and a 0xFF
 sentinel; making room drops bytes up to the next sentinel.
 */
module Trace {
  import opened Bytes

  const SENTINEL: byte := 0xFF
  const FRAME_HEADER_SIZE := 6
  const MAX_PAYLOAD := 127

  // ---- Bytes of frames -------------------------------------------------------

  datatype Frame = Frame(level: byte, ticks: u32, payload: seq<byte>)

  /** What `write_frame` keeps of a payload. */
  function Cut(payload: seq<byte>): (p: seq<byte>)
    ensures |p| <= MAX_PAYLOAD
  {
    payload[..if |payload| <= MAX_PAYLOAD then |payload| else MAX_PAYLOAD]
  }

  /** A frame without its sentinel. */
  function Body(f: Frame): (b: seq<byte>)
    ensures |b| == FRAME_HEADER_SIZE + |Cut(f.payload)|
  {
    [f.level] + LeBytes(f.ticks, 4) + [|Cut(f.payload)|] + Cut(f.payload)
  }

  function FrameBytes(f: Frame): (b: seq<byte>)
    ensures |b| == FrameSize(f)
  {
    Body(f) + [SENTINEL]
  }

  function FrameSize(f: Frame): nat { FRAME_HEADER_SIZE + |Cut(f.payload)| + 1 }

  // ---- Eviction on bytes -----------------------------------------------------

  /** Everything after the first sentinel. */
  function DropFrame(s: seq<byte>): (r: seq<byte>)
    ensures |r| <= |s| && (s != [] ==> |r| < |s|)
  {
    if s == [] then [] else if s[0] == SENTINEL then s[1..] else DropFrame(s[1..])
  }

  /** Drops frames until `size` more bytes fit into n; also counts them. */
  function MakeRoom(s: seq<byte>, size: nat, n: nat): (r: (seq<byte>, nat))
    ensures size <= n ==> |r.0| + size <= n
    decreases |s|
  {
    if s == [] || |s| + size <= n then (s, 0)
    else
      var (kept, lost) := MakeRoom(DropFrame(s), size, n);
      (kept, lost + 1)
  }

  /** Bytes held and frames lost. */
  datatype Ring = Ring(contents: seq<byte>, lost: nat)

  function Written(r: Ring, f: Frame, n: nat): Ring {
    if FrameSize(f) > n then r.(lost := r.lost + 1)
    else
      var (kept, lost) := MakeRoom(r.contents, FrameSize(f), n);
      Ring(kept + FrameBytes(f), r.lost + lost)
  }

  // ---- Circular reads --------------------------------------------------------

  /** n bytes from `start`, wrapping around. */
  function Circular(b: seq<byte>, start: nat, n: nat): (s: seq<byte>)
    requires start < |b| && n <= |b|
    ensures |s| == n
  {
    seq(n, i requires 0 <= i < n => b[Wrap(start + i, |b|)])
  }

  /** `x % n` for an index at most one lap ahead. */
  function Wrap(x: nat, n: nat): (i: nat)
    requires x < 2 * n
    ensures i < n
  {
    if x < n then x else x - n
  }

  /** `(pos + 1) % n` */
  function Advance(pos: nat, n: nat): (i: nat)
    requires pos < n
    ensures i == Wrap(pos + 1, n)
  {
    (pos + 1) % n
  }

  class TraceBuffer {
    const buf: array<byte>
    var writePos: nat
    var readPos: nat
    var used: nat
    var totalWritten: nat
    var framesLost: nat
    /** Every byte written since the last `Clear`. */
    ghost var history: seq<byte>

    ghost predicate Valid()
      reads `writePos, `readPos, `used, `history, buf
    {
      && used <= buf.Length
      && (buf.Length == 0 ==> writePos == readPos == 0)
      && (buf.Length > 0 ==> readPos < buf.Length && writePos == Wrap(readPos + used, buf.Length))
      && used <= |history|
      && Contents() == history[|history| - used..]
      && (used > 0 ==> history[|history| - 1] == SENTINEL)
    }

    /** The live bytes, oldest first. */
    ghost function Contents(): seq<byte>
      reads `readPos, `used, buf
    {
      if buf.Length > 0 && readPos < buf.Length && used <= buf.Length then Circular(buf[..], readPos, used) else []
    }

    ghost function Abs(): Ring
      reads `readPos, `used, `framesLost, buf
    {
      Ring(Contents(), framesLost)
    }

    constructor (n: nat)
      ensures Valid() && fresh(buf) && buf.Length == n && Abs() == Ring([], 0) && history == [] && totalWritten == 0
    {
      buf := new byte[n](_ => 0);
      writePos, readPos, used, totalWritten, framesLost, history := 0, 0, 0, 0, 0, [];
    }

    method Clear()
      requires Valid()
      modifies this
      ensures Valid() && Abs() == old(Abs()).(contents := []) && history == [] && totalWritten == old(totalWritten)
    {
      hide Valid, Contents;
      writePos, readPos, used, history := 0, 0, 0, [];
      EmptyIsValid();
    }

    lemma EmptyIsValid()
      requires writePos == readPos == used == 0 && history == []
      ensures Valid() && Contents() == []
    {
      hide Circular;
      assert Contents() == [];
    }

    method WriteByte(b: byte)
      requires buf.Length > 0 && writePos < buf.Length && used < buf.Length
      modifies this`writePos, this`used, buf
      ensures buf[..] == old(buf[..])[old(writePos) := b]
      ensures writePos == Wrap(old(writePos) + 1, buf.Length) && used == old(used) + 1
    {
      hide Advance;
      buf[writePos] := b;
      writePos := Advance(writePos, buf.Length);
      used := used + 1;
    }

    /** Writes bytes one by one behind the live ones. */
    method WriteBytes(bytes: seq<byte>)
      requires buf.Length > 0 && readPos < buf.Length && used + |bytes| <= buf.Length
      requires writePos == Wrap(readPos + used, buf.Length)
      modifies this`writePos, this`used, buf
      ensures used == old(used) + |bytes| && writePos == Wrap(readPos + used, buf.Length)
      ensures Contents() == old(Contents()) + bytes
    {
      for k := 0 to |bytes|
        invariant used == old(used) + k && writePos == Wrap(readPos + used, buf.Length)
        invariant Contents() == old(Contents()) + bytes[..k]
      {
        ghost var before := buf[..];
        WriteByte(bytes[k]);
        CircularAppend(before, buf[..], readPos, used - 1, bytes[k]);
      }
    }

    /** The scan for the sentinel that ends the oldest frame. */
    method FindSentinel() returns (pos: nat, scanned: nat)
      requires Valid() && used > 0
      ensures 1 <= scanned <= used && pos == Wrap(readPos + scanned, buf.Length)
      ensures DropFrame(Contents()) == Contents()[scanned..]
    {
      hide Circular, Advance;
      ghost var live := Contents();
      assert live[used - 1] == SENTINEL;
      pos, scanned := readPos, 0;
      while true
        invariant scanned <= used && pos == Wrap(readPos + scanned, buf.Length)
        invariant DropFrame(live[scanned..]) == DropFrame(live)
        invariant scanned < used
        decreases used - scanned
      {
        if scanned >= used {
          // The last live byte is a sentinel, so the source's "clear everything" branch is dead.
          assert false;
        }
        var b := buf[pos];
        ReadAt(scanned);
        assert live[scanned..][1..] == live[scanned + 1..];
        pos := Advance(pos, buf.Length);
        scanned := scanned + 1;
        if b == SENTINEL {
          break;
        }
      }
    }

    lemma ReadAt(k: nat)
      requires Valid() && k < used
      ensures Contents()[k] == buf[Wrap(readPos + k, buf.Length)]
    {}

    method EvictOldestFrame()
      requires Valid()
      modifies this`readPos, this`used, this`framesLost
      ensures Valid()
      ensures Contents() == DropFrame(old(Contents()))
      ensures framesLost == old(framesLost) + (if old(Contents()) == [] then 0 else 1)
    {
      hide Circular, DropFrame;
      if used == 0 {
        DropNothing();
        return;
      }
      var pos, scanned := FindSentinel();
      CircularDrop(buf[..], readPos, used, scanned);
      readPos := pos;
      used := used - scanned;
      framesLost := framesLost + 1;
    }

    /** Drops frames until `size` bytes fit. */
    method Evict(size: nat)
      requires Valid() && size <= buf.Length
      modifies this`readPos, this`used, this`framesLost
      ensures Valid() && used + size <= buf.Length
      ensures var (kept, lost) := MakeRoom(old(Contents()), size, buf.Length);
              Contents() == kept && framesLost == old(framesLost) + lost
    {
      hide Circular, DropFrame, MakeRoom;
      ghost var room := MakeRoom(Contents(), size, buf.Length);
      while used + size > buf.Length
        invariant Valid()
        invariant MakeRoom(Contents(), size, buf.Length).0 == room.0
        invariant framesLost + MakeRoom(Contents(), size, buf.Length).1 == old(framesLost) + room.1
        decreases used
      {
        MakeRoomStep(Contents(), size, buf.Length);
        EvictOldestFrame();
      }
      MakeRoomDone(Contents(), size, buf.Length);
    }

    /** Writes a sentinel-terminated string behind the live bytes. */
    method Append(bytes: seq<byte>)
      requires Valid() && 0 < |bytes| && bytes[|bytes| - 1] == SENTINEL && used + |bytes| <= buf.Length
      modifies this`writePos, this`used, this`history, buf
      ensures Valid()
      ensures Contents() == old(Contents()) + bytes && history == old(history) + bytes
    {
      hide Circular;
      HistoryGrows(history, Contents(), bytes);
      WriteBytes(bytes);
      history := history + bytes;
    }

    method WriteFrame(level: byte, ticks: u32, payload: seq<byte>)
      requires Valid()
      modifies this`writePos, this`readPos, this`used, this`history, this`framesLost, this`totalWritten, buf
      ensures Valid()
      ensures var f := Frame(level, ticks, payload);
              && Abs() == Written(old(Abs()), f, buf.Length)
              && history == (if FrameSize(f) > buf.Length then old(history) else old(history) + FrameBytes(f))
              && totalWritten == old(totalWritten) + (if FrameSize(f) > buf.Length then 0 else FrameSize(f))
    {
      hide Circular, DropFrame, MakeRoom, FrameBytes, FrameSize, LeBytes, Cut, Written, Valid;
      ghost var f := Frame(level, ticks, payload);
      FrameLayout(f);
      WrittenCases(Abs(), f, buf.Length);
      var payloadLen := if |payload| <= MAX_PAYLOAD then |payload| else MAX_PAYLOAD;
      var frameSize := FRAME_HEADER_SIZE + payloadLen + 1;
      if frameSize > buf.Length {
        framesLost := framesLost + 1;
        return;
      }
      Evict(frameSize);
      Append([level] + LeBytes(ticks, 4) + [payloadLen] + payload[..payloadLen] + [SENTINEL]);
      totalWritten := totalWritten + frameSize;
    }
  }

  lemma WrittenCases(r: Ring, f: Frame, n: nat)
    ensures FrameSize(f) > n ==> Written(r, f, n) == r.(lost := r.lost + 1)
    ensures FrameSize(f) <= n ==>
              Written(r, f, n) == Ring(MakeRoom(r.contents, FrameSize(f), n).0 + FrameBytes(f),
                                       r.lost + MakeRoom(r.contents, FrameSize(f), n).1)
  {}

  lemma MakeRoomStep(s: seq<byte>, size: nat, n: nat)
    requires |s| + size > n && size <= n
    ensures MakeRoom(s, size, n).0 == MakeRoom(DropFrame(s), size, n).0
    ensures MakeRoom(s, size, n).1 == MakeRoom(DropFrame(s), size, n).1 + 1
  {}

  lemma MakeRoomDone(s: seq<byte>, size: nat, n: nat)
    requires |s| + size <= n
    ensures MakeRoom(s, size, n) == (s, 0)
  {}

  lemma FrameLayout(f: Frame)
    ensures FrameSize(f) == FRAME_HEADER_SIZE + (if |f.payload| <= MAX_PAYLOAD then |f.payload| else MAX_PAYLOAD) + 1
    ensures Cut(f.payload) == f.payload[..FrameSize(f) - FRAME_HEADER_SIZE - 1]
    ensures FrameBytes(f) == [f.level] + LeBytes(f.ticks, 4) + [|Cut(f.payload)|] + Cut(f.payload) + [SENTINEL]
    ensures FrameBytes(f)[FrameSize(f) - 1] == SENTINEL
  {}

  lemma HistoryGrows(history: seq<byte>, kept: seq<byte>, more: seq<byte>)
    requires |kept| <= |history| && kept == history[|history| - |kept|..]
    ensures kept + more == (history + more)[|history + more| - |kept + more|..]
  {}

  lemma DropNothing()
    ensures DropFrame([]) == []
  {}

  lemma CircularAppend(before: seq<byte>, after: seq<byte>, start: nat, n: nat, b: byte)
    requires start < |before| && n < |before|
    requires after == before[Wrap(start + n, |before|) := b]
    ensures Circular(after, start, n + 1) == Circular(before, start, n) + [b]
  {
    forall i | 0 <= i < n
      ensures Circular(after, start, n + 1)[i] == Circular(before, start, n)[i]
    {
      assert Wrap(start + i, |before|) != Wrap(start + n, |before|);
    }
  }

  lemma CircularDrop(b: seq<byte>, start: nat, n: nat, k: nat)
    requires start < |b| && k <= n <= |b|
    ensures Circular(b, Wrap(start + k, |b|), n - k) == Circular(b, start, n)[k..]
    ensures Wrap(start + n, |b|) == Wrap(Wrap(start + k, |b|) + (n - k), |b|)
  {
    forall i | 0 <= i < n - k
      ensures Circular(b, Wrap(start + k, |b|), n - k)[i] == Circular(b, start, n)[k..][i]
    {
      assert Wrap(Wrap(start + k, |b|) + i, |b|) == Wrap(start + (k + i), |b|);
    }
  }

  // ---- Reading frames back ---------------------------------------------------

  function Word(b: seq<byte>): u32
    requires |b| == 4
  {
    Pow256Values();
    LeValue(b)
  }

  /** Level and ticks of every whole frame in s. */
  function Headers(s: seq<byte>): seq<(byte, u32)>
    decreases |s|
  {
    if |s| < FRAME_HEADER_SIZE + 1 then []
    else
      var total := FRAME_HEADER_SIZE + s[5] + 1;
      if |s| < total then [] else [(s[0], Word(s[1..5]))] + Headers(s[total..])
  }

  lemma HeadersStep(s: seq<byte>)
    ensures |s| < FRAME_HEADER_SIZE + 1 ==> Headers(s) == []
    ensures |s| >= FRAME_HEADER_SIZE + 1 && |s| < FRAME_HEADER_SIZE + s[5] + 1 ==> Headers(s) == []
    ensures |s| >= FRAME_HEADER_SIZE + 1 && |s| >= FRAME_HEADER_SIZE + s[5] + 1 ==>
              Headers(s) == [(s[0], Word(s[1..5]))] + Headers(s[FRAME_HEADER_SIZE + s[5] + 1..])
  {}

  class TraceFrameIter {
    const buffer: TraceBuffer
    var pos: nat
    var remaining: nat

    /** The bytes not yet visited. */
    ghost function Rest(): seq<byte>
      reads this, buffer, buffer.buf
    {
      if pos < buffer.buf.Length && remaining <= buffer.buf.Length then Circular(buffer.buf[..], pos, remaining) else []
    }

    ghost predicate Valid()
      reads this, buffer
    {
      remaining <= buffer.buf.Length && (buffer.buf.Length > 0 ==> pos < buffer.buf.Length)
    }

    constructor (buffer: TraceBuffer)
      requires buffer.Valid()
      ensures this.buffer == buffer && Valid() && Rest() == buffer.Contents()
    {
      this.buffer := buffer;
      pos, remaining := buffer.readPos, buffer.used;
    }

    method Next() returns (item: Option<(byte, u32)>)
      requires Valid()
      modifies this
      ensures Valid()
      ensures item == if Headers(old(Rest())) == [] then None else Some(Headers(old(Rest()))[0])
      ensures Headers(Rest()) == if item.None? then [] else Headers(old(Rest()))[1..]
    {
      hide Circular, Headers, LeValue;
      ghost var rest := Rest();
      HeadersStep(rest);
      if remaining < FRAME_HEADER_SIZE + 1 {
        return None;
      }
      var level := At(0);
      var t0 := At(1);
      var t1 := At(2);
      var t2 := At(3);
      var t3 := At(4);
      var len := At(5);
      var total := FRAME_HEADER_SIZE + len + 1;
      if remaining < total {
        remaining := 0;
        HeadersStep(Rest());
        return None;
      }
      CircularDrop(buffer.buf[..], pos, remaining, total);
      pos := Wrap(pos + total, buffer.buf.Length);
      remaining := remaining - total;
      assert [t0, t1, t2, t3] == rest[1..5];
      return Some((level, Word([t0, t1, t2, t3])));
    }

    /** `read_byte_at(pos + k)` */
    method At(k: nat) returns (b: byte)
      requires Valid() && k < remaining
      ensures b == Rest()[k]
    {
      b := buffer.buf[Wrap(pos + k, buffer.buf.Length)];
    }
  }

  // ---- Frames and bytes ------------------------------------------------------

  /** No byte of the frame's body is the sentinel value. */
  predicate Clean(f: Frame) {
    f.level != SENTINEL && SENTINEL !in LeBytes(f.ticks, 4) && SENTINEL !in Cut(f.payload)
  }

  lemma {:induction false} DropAfter(body: seq<byte>, rest: seq<byte>)
    ensures DropFrame(body + [SENTINEL] + rest) == rest <==> SENTINEL !in body
    decreases |body|
  {
    var s := body + [SENTINEL] + rest;
    if body == [] {
      assert s[1..] == rest;
    } else {
      assert s[1..] == body[1..] + [SENTINEL] + rest;
      if body[0] != SENTINEL {
        DropAfter(body[1..], rest);
      }
    }
  }

  /** Eviction removes exactly the oldest frame if and only if its body is clean. */
  lemma EvictsWholeFrame(f: Frame, rest: seq<byte>)
    ensures DropFrame(FrameBytes(f) + rest) == rest <==> Clean(f)
  {
    DropAfter(Body(f), rest);
  }

  function Encoded(fs: seq<Frame>): seq<byte> {
    if fs == [] then [] else FrameBytes(fs[0]) + Encoded(fs[1..])
  }

  function Total(fs: seq<Frame>): (n: nat)
    ensures n == |Encoded(fs)|
  {
    if fs == [] then 0 else FrameSize(fs[0]) + Total(fs[1..])
  }

  function HeadersOf(fs: seq<Frame>): seq<(byte, u32)> {
    seq(|fs|, i requires 0 <= i < |fs| => (fs[i].level, fs[i].ticks))
  }

  /** The iterator finds every stored frame, oldest first, clean or not. */
  lemma {:induction false} HeadersRoundTrip(fs: seq<Frame>)
    ensures Headers(Encoded(fs)) == HeadersOf(fs)
    decreases |fs|
  {
    hide LeValue, LeBytes;
    if fs != [] {
      var f, s := fs[0], Encoded(fs);
      assert s[0] == f.level && s[5] == |Cut(f.payload)|;
      assert s[1..5] == LeBytes(f.ticks, 4);
      Pow256Values();
      LeBytesValue(f.ticks, 4);
      assert s[FrameSize(f)..] == Encoded(fs[1..]);
      HeadersRoundTrip(fs[1..]);
      assert HeadersOf(fs) == [(f.level, f.ticks)] + HeadersOf(fs[1..]);
    }
  }

  // ---- Whole histories -------------------------------------------------------

  datatype Op = Write(frame: Frame) | ClearAll

  /** The ring after a history, byte by byte. */
  function RingAfter(n: nat, ops: seq<Op>): Ring {
    if ops == [] then Ring([], 0)
    else
      var r := RingAfter(n, ops[..|ops| - 1]);
      match ops[|ops| - 1]
      case Write(f) => Written(r, f, n)
      case ClearAll => r.(contents := [])
  }

  /** The frames written since the last clear, without those too large for the buffer. */
  function Pending(n: nat, ops: seq<Op>): seq<Frame> {
    if ops == [] then []
    else
      match ops[|ops| - 1]
      case Write(f) => Pending(n, ops[..|ops| - 1]) + (if FrameSize(f) > n then [] else [f])
      case ClearAll => []
  }

  /** The longest suffix of fs that fits into n bytes. */
  function Kept(fs: seq<Frame>, n: nat): seq<Frame> {
    if Total(fs) <= n then fs else Kept(fs[1..], n)
  }

  lemma {:induction false} KeptIsLongestSuffix(fs: seq<Frame>, n: nat, k: nat)
    requires k <= |fs|
    ensures |Kept(fs, n)| <= |fs| && Kept(fs, n) == fs[|fs| - |Kept(fs, n)|..]
    ensures Total(fs[k..]) <= n <==> |fs[k..]| <= |Kept(fs, n)|
    decreases |fs|
  {
    hide FrameSize;
    if Total(fs) <= n {
      TotalOfSuffix(fs, k);
    } else if k > 0 {
      KeptIsLongestSuffix(fs[1..], n, k - 1);
      assert fs[1..][k - 1..] == fs[k..];
    } else {
      KeptIsLongestSuffix(fs[1..], n, 0);
      assert fs[0..] == fs;
    }
  }

  lemma {:induction false} TotalOfSuffix(fs: seq<Frame>, k: nat)
    requires k <= |fs|
    ensures Total(fs[k..]) <= Total(fs)
    decreases k
  {
    if k > 0 {
      TotalOfSuffix(fs[1..], k - 1);
      assert fs[1..][k - 1..] == fs[k..];
    }
  }

  /** Frames a history's clears threw away. */
  function Cleared(n: nat, ops: seq<Op>): nat {
    if ops == [] then 0
    else
      var before := ops[..|ops| - 1];
      Cleared(n, before) + (if ops[|ops| - 1].ClearAll? then |Kept(Pending(n, before), n)| else 0)
  }

  function Writes(ops: seq<Op>): nat {
    if ops == [] then 0 else Writes(ops[..|ops| - 1]) + (if ops[|ops| - 1].Write? then 1 else 0)
  }

  ghost predicate AllClean(fs: seq<Frame>) {
    forall i :: 0 <= i < |fs| ==> Clean(fs[i])
  }

  ghost predicate CleanHistory(ops: seq<Op>) {
    forall i :: 0 <= i < |ops| && ops[i].Write? ==> Clean(ops[i].frame)
  }

  /** Frames left once `size` more bytes must fit. */
  function Trim(fs: seq<Frame>, size: nat, n: nat): (r: seq<Frame>)
    ensures |r| <= |fs|
  {
    if fs == [] || Total(fs) + size <= n then fs else Trim(fs[1..], size, n)
  }

  lemma {:induction false} MakeRoomDropsFrames(fs: seq<Frame>, size: nat, n: nat)
    requires AllClean(fs)
    ensures MakeRoom(Encoded(fs), size, n) == (Encoded(Trim(fs, size, n)), |fs| - |Trim(fs, size, n)|)
    decreases |fs|
  {
    hide FrameBytes, Clean;
    if fs != [] && Total(fs) + size > n {
      EvictsWholeFrame(fs[0], Encoded(fs[1..]));
      MakeRoomDropsFrames(fs[1..], size, n);
    }
  }

  lemma {:induction false} KeptClean(fs: seq<Frame>, n: nat)
    requires AllClean(fs)
    ensures AllClean(Kept(fs, n))
    decreases |fs|
  {
    hide Clean, Encoded, FrameSize;
    if Total(fs) > n {
      KeptClean(fs[1..], n);
    }
  }

  lemma {:induction false} KeptAfterWrite(fs: seq<Frame>, f: Frame, n: nat)
    requires FrameSize(f) <= n
    ensures Kept(fs + [f], n) == Trim(Kept(fs, n), FrameSize(f), n) + [f]
    decreases |fs|
  {
    hide FrameBytes, FrameSize;
    TotalAppend(fs, f);
    if Total(fs + [f]) > n {
      assert fs != [];
      assert (fs + [f])[1..] == fs[1..] + [f];
      KeptAfterWrite(fs[1..], f, n);
    }
  }

  lemma {:induction false} TotalAppend(fs: seq<Frame>, f: Frame)
    ensures Total(fs + [f]) == Total(fs) + FrameSize(f)
    ensures Encoded(fs + [f]) == Encoded(fs) + FrameBytes(f)
    decreases |fs|
  {
    hide FrameBytes, FrameSize;
    if fs == [] {
      assert fs + [f] == [f];
    } else {
      assert (fs + [f])[1..] == fs[1..] + [f];
      TotalAppend(fs[1..], f);
    }
  }

  /**
   If nothing written contains the sentinel value, the buffer always holds
   exactly the longest run of newest frames that fits, and every frame written
   is held, lost or was cleared.
   */
  lemma {:induction false} HoldsNewestFrames(n: nat, ops: seq<Op>)
    requires CleanHistory(ops)
    ensures RingAfter(n, ops).contents == Encoded(Kept(Pending(n, ops), n))
    ensures Headers(RingAfter(n, ops).contents) == HeadersOf(Kept(Pending(n, ops), n))
    ensures RingAfter(n, ops).lost + |Kept(Pending(n, ops), n)| + Cleared(n, ops) == Writes(ops)
    ensures AllClean(Pending(n, ops))
    decreases |ops|
  {
    hide FrameBytes, FrameSize, Clean, MakeRoom, Headers, Kept, Encoded, Trim;
    if ops == [] {
      KeptNothing(n);
    } else {
      var before := ops[..|ops| - 1];
      HoldsNewestFrames(n, before);
      if ops[|ops| - 1].Write? {
        WriteKeepsNewest(n, before, ops[|ops| - 1].frame);
        assert Pending(n, before) + [] == Pending(n, before);
      } else {
        KeptNothing(n);
      }
    }
    HeadersRoundTrip(Kept(Pending(n, ops), n));
  }

  lemma KeptNothing(n: nat)
    ensures Kept([], n) == [] && Encoded([]) == []
  {}

  lemma WriteKeepsNewest(n: nat, before: seq<Op>, f: Frame)
    requires Clean(f) && AllClean(Pending(n, before))
    requires RingAfter(n, before).contents == Encoded(Kept(Pending(n, before), n))
    ensures var r := Written(RingAfter(n, before), f, n);
            var pending := Pending(n, before);
            var pending' := if FrameSize(f) > n then pending else pending + [f];
            && r.contents == Encoded(Kept(pending', n))
            && r.lost + |Kept(pending', n)| == RingAfter(n, before).lost + |Kept(pending, n)| + 1
  {
    hide FrameBytes, FrameSize, Clean, MakeRoom, Kept, Encoded, Trim, RingAfter, Pending;
    var pending := Pending(n, before);
    if FrameSize(f) <= n {
      KeptClean(pending, n);
      MakeRoomDropsFrames(Kept(pending, n), FrameSize(f), n);
      KeptAfterWrite(pending, f, n);
      TotalAppend(Trim(Kept(pending, n), FrameSize(f), n), f);
    }
  }

  // ---- Any history -----------------------------------------------------------

  /** Position k of h is its front or right after a sentinel. */
  predicate Boundary(h: seq<byte>, k: nat) {
    k <= |h| && (k == 0 || h[k - 1] == SENTINEL)
  }

  ghost predicate Terminated(h: seq<byte>) {
    h != [] ==> h[|h| - 1] == SENTINEL
  }

  ghost predicate EndAtBoundary(h: seq<byte>, c: seq<byte>) {
    |c| <= |h| && c == h[|h| - |c|..] && Boundary(h, |h| - |c|)
  }

  /** No end of h that starts at a boundary and fits into n bytes is longer than c. */
  ghost predicate NoneLonger(h: seq<byte>, n: int, c: seq<byte>) {
    forall k :: Boundary(h, k) && |h| - k <= n ==> |h| - k <= |c|
  }

  lemma {:induction false} DropsThroughSentinel(s: seq<byte>)
    requires s != [] && s[|s| - 1] == SENTINEL
    ensures var d := |s| - |DropFrame(s)|;
            0 < d && DropFrame(s) == s[d..] && s[d - 1] == SENTINEL && forall i :: 0 <= i < d - 1 ==> s[i] != SENTINEL
    decreases |s|
  {
    if s[0] != SENTINEL { DropsThroughSentinel(s[1..]); }
  }

  lemma NextBoundary(h: seq<byte>, c: seq<byte>, d: nat)
    requires EndAtBoundary(h, c) && 0 < d <= |c| && c[d - 1] == SENTINEL && forall i :: 0 <= i < d - 1 ==> c[i] != SENTINEL
    ensures EndAtBoundary(h, c[d..]) && NoneLonger(h, |c| - 1, c[d..])
  {
    var start := |h| - |c|;
    assert h[start + d - 1] == c[d - 1];
    forall k: nat | Boundary(h, k) && |h| - k <= |c| - 1
      ensures |h| - k <= |c| - d
    {
      assert c[k - 1 - start] == h[k - 1];
    }
  }

  /** Eviction goes from one boundary to the next. */
  lemma DropToNextBoundary(h: seq<byte>, c: seq<byte>)
    requires Terminated(h) && EndAtBoundary(h, c) && c != []
    ensures EndAtBoundary(h, DropFrame(c)) && NoneLonger(h, |c| - 1, DropFrame(c))
  {
    assert c[|c| - 1] == h[|h| - 1] == SENTINEL;
    hide EndAtBoundary, NoneLonger, Terminated;
    DropsThroughSentinel(c);
    NextBoundary(h, c, |c| - |DropFrame(c)|);
  }

  lemma {:induction false} MakeRoomFindsLongest(h: seq<byte>, c: seq<byte>, size: nat, n: nat)
    requires Terminated(h) && size <= n && EndAtBoundary(h, c) && NoneLonger(h, n - size, c)
    ensures var kept := MakeRoom(c, size, n).0;
            EndAtBoundary(h, kept) && NoneLonger(h, n - size, kept) && |kept| + size <= n
    decreases |c|
  {
    hide EndAtBoundary, Boundary, Terminated, DropFrame;
    if |c| + size > n {
      DropToNextBoundary(h, c);
      MakeRoomFindsLongest(h, DropFrame(c), size, n);
    }
  }

  /**
   Clean or not: what the buffer holds are the bytes written since the last
   clear from the earliest boundary on that leaves at most n of them.
   */
  lemma {:induction false} HoldsLongestEnd(n: nat, ops: seq<Op>)
    ensures var h, c := Encoded(Pending(n, ops)), RingAfter(n, ops).contents;
            Terminated(h) && EndAtBoundary(h, c) && |c| <= n && NoneLonger(h, n, c)
    decreases |ops|
  {
    hide FrameBytes, FrameSize, MakeRoom, Encoded, EndAtBoundary, NoneLonger, Terminated;
    if ops == [] || ops[|ops| - 1].ClearAll? {
      NothingHeld(n);
    } else {
      var before, f := ops[..|ops| - 1], ops[|ops| - 1].frame;
      HoldsLongestEnd(n, before);
      var h, c := Encoded(Pending(n, before)), RingAfter(n, before).contents;
      if FrameSize(f) <= n {
        LongestAfterWrite(h, c, f, n);
        TotalAppend(Pending(n, before), f);
      } else {
        assert Pending(n, before) + [] == Pending(n, before);
      }
    }
  }

  lemma NothingHeld(n: nat)
    ensures Encoded([]) == [] && Terminated([]) && EndAtBoundary([], []) && NoneLonger([], n, [])
  {}

  lemma LongestAfterWrite(h: seq<byte>, c: seq<byte>, f: Frame, n: nat)
    requires Terminated(h) && EndAtBoundary(h, c) && |c| <= n && NoneLonger(h, n, c) && FrameSize(f) <= n
    ensures var h', c' := h + FrameBytes(f), MakeRoom(c, FrameSize(f), n).0 + FrameBytes(f);
            Terminated(h') && EndAtBoundary(h', c') && |c'| <= n && NoneLonger(h', n, c')
  {
    var bytes := FrameBytes(f);
    assert bytes[|bytes| - 1] == SENTINEL;
    hide FrameBytes, FrameSize, MakeRoom;
    MakeRoomFindsLongest(h, c, FrameSize(f), n);
    var kept := MakeRoom(c, FrameSize(f), n).0;
    forall k: nat | Boundary(h + bytes, k) && |h + bytes| - k <= n
      ensures |h + bytes| - k <= |kept + bytes|
    {
      if k <= |h| { assert Boundary(h, k); }
    }
  }
}
