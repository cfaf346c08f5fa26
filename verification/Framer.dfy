/**
 The gateway's streaming framer: find the magic byte, check the header and the
 CRC, emit the chunk or skip one byte and look again.
 */
module Framer {
  import opened Bytes
  import opened Wire
  import opened Crc16

  const MAX_CHUNK_SIZE := 258

  datatype RawChunk = RawChunk(
    chunkType: byte, flags: byte, payloadLen: u16, sequenceId: u16, payload: seq<byte>, raw: seq<byte>)

  /** `raw` is a whole frame the gateway accepts. */
  ghost predicate ValidFrame(raw: seq<byte>) {
    && MIN_CHUNK_SIZE <= |raw| <= MAX_CHUNK_SIZE
    && raw[0] == MAGIC
    && raw[1] == VERSION
    && |raw| == TotalLen(raw)
    && CrcMatches(raw)
  }

  /** A valid frame starts at the front of `s`. */
  ghost predicate FrameAtFront(s: seq<byte>) {
    exists n :: 0 <= n <= |s| && ValidFrame(s[..n])
  }

  // ---- One decision of the inner loop ----------------------------------------

  datatype Decision = Wait | Skip | Emit(total: nat)

  /** What the loop does with a buffer, one skipped byte at a time. */
  function Decide(buf: seq<byte>): (d: Decision)
    ensures d.Skip? ==> buf != []
    ensures d.Emit? ==> MIN_CHUNK_SIZE <= d.total <= |buf|
  {
    if buf == [] then Wait
    else if buf[0] != MAGIC then Skip
    else if |buf| < HEADER_SIZE then Wait
    else if buf[1] != VERSION then Skip
    else if TotalLen(buf) > MAX_CHUNK_SIZE then Skip
    else if |buf| < TotalLen(buf) then Wait
    else if !CrcMatches(buf) then Skip
    else Emit(TotalLen(buf))
  }

  function Parse(raw: seq<byte>): RawChunk
    requires |raw| >= MIN_CHUNK_SIZE
  {
    RawChunk(raw[2], raw[3], U16(raw[4], raw[5]), U16(raw[6], raw[7]), raw[HEADER_SIZE..|raw| - CRC_SIZE], raw)
  }

  /** The frames of a buffer in order, and the bytes kept for later. */
  function Scan(buf: seq<byte>): (seq<RawChunk>, seq<byte>)
    decreases |buf|
  {
    match Decide(buf)
    case Wait => ([], buf)
    case Skip => Scan(buf[1..])
    case Emit(n) =>
      var (chunks, rest) := Scan(buf[n..]);
      ([Parse(buf[..n])] + chunks, rest)
  }

  class ChunkFramer {
    var buf: seq<byte>

    constructor ()
      ensures buf == []
    {
      buf := [];
    }

    method Feed(data: seq<byte>) returns (chunks: seq<RawChunk>)
      modifies this
      ensures chunks == Scan(old(buf) + data).0 && buf == Scan(old(buf) + data).1
    {
      hide CrcMatches, Parse;
      buf := buf + data;
      chunks := [];
      ghost var whole := Scan(buf);
      while true
        invariant chunks + Scan(buf).0 == whole.0 && Scan(buf).1 == whole.1
        decreases |buf|
      {
        var start := Position(buf);
        SkipToMagic(buf, start);
        if start == |buf| {
          buf := [];
          break;
        }
        buf := buf[start..];
        if |buf| < HEADER_SIZE {
          break;
        }
        if buf[1] != VERSION {
          buf := buf[1..];
          continue;
        }
        var total := TotalLen(buf);
        if total > MAX_CHUNK_SIZE {
          buf := buf[1..];
          continue;
        }
        if |buf| < total {
          break;
        }
        if !CrcMatches(buf) {
          buf := buf[1..];
          continue;
        }
        ghost var later := Scan(buf[total..]).0;
        assert Scan(buf).0 == [Parse(buf[..total])] + later;
        assert chunks + ([Parse(buf[..total])] + later) == chunks + [Parse(buf[..total])] + later;
        chunks := chunks + [Parse(buf[..total])];
        buf := buf[total..];
      }
    }
  }

  /** Index of the first magic byte, or the length if there is none. */
  method Position(buf: seq<byte>) returns (start: nat)
    ensures start <= |buf| && MAGIC !in buf[..start]
    ensures start < |buf| ==> buf[start] == MAGIC
  {
    start := 0;
    while start < |buf| && buf[start] != MAGIC
      invariant start <= |buf| && MAGIC !in buf[..start]
    {
      start := start + 1;
    }
  }

  lemma {:induction false} SkipToMagic(buf: seq<byte>, start: nat)
    requires start <= |buf| && MAGIC !in buf[..start]
    ensures Scan(buf) == Scan(buf[start..])
    decreases start
  {
    hide CrcMatches, Parse;
    if start > 0 {
      assert buf[0] in buf[..start];
      assert forall b :: b in buf[1..][..start - 1] ==> b in buf[..start];
      SkipToMagic(buf[1..], start - 1);
      assert buf[1..][start - 1..] == buf[start..];
    }
  }

  // ---- Splitting the stream --------------------------------------------------

  /** A decision never depends on bytes that have yet to arrive. */
  lemma DecisionIsFinal(buf: seq<byte>, more: seq<byte>)
    requires !Decide(buf).Wait?
    ensures Decide(buf + more) == Decide(buf)
  {
    hide Update, FromBits;
    if |buf| >= HEADER_SIZE && |buf| >= TotalLen(buf) {
      assert (buf + more)[..TotalLen(buf) - CRC_SIZE] == buf[..TotalLen(buf) - CRC_SIZE];
    }
  }

  lemma {:induction false} ScanSplit(a: seq<byte>, b: seq<byte>)
    ensures var (first, kept) := Scan(a);
            var (second, rest) := Scan(kept + b);
            Scan(a + b) == (first + second, rest)
    decreases |a|
  {
    hide Decide, Parse;
    match Decide(a)
    case Wait =>
      assert [] + Scan(a + b).0 == Scan(a + b).0;
    case Skip =>
      DecisionIsFinal(a, b);
      assert (a + b)[1..] == a[1..] + b;
      ScanSplit(a[1..], b);
    case Emit(n) =>
      DecisionIsFinal(a, b);
      assert (a + b)[n..] == a[n..] + b && (a + b)[..n] == a[..n];
      ScanSplit(a[n..], b);
      var (first, kept) := Scan(a[n..]);
      var (second, rest) := Scan(kept + b);
      assert [Parse(a[..n])] + (first + second) == [Parse(a[..n])] + first + second;
  }

  function Concat(parts: seq<seq<byte>>): seq<byte> {
    if parts == [] then [] else parts[0] + Concat(parts[1..])
  }

  /** What a framer emits and keeps over a sequence of `Feed` calls. */
  function FeedAll(buf: seq<byte>, parts: seq<seq<byte>>): (seq<RawChunk>, seq<byte>)
    decreases |parts|
  {
    if parts == [] then ([], buf)
    else
      var (first, kept) := Scan(buf + parts[0]);
      var (second, rest) := FeedAll(kept, parts[1..]);
      (first + second, rest)
  }

  /** How the network splits the stream makes no difference. */
  lemma {:induction false} SplittingInvariant(buf: seq<byte>, parts: seq<seq<byte>>)
    requires Scan(buf) == ([], buf)
    ensures FeedAll(buf, parts) == Scan(buf + Concat(parts))
    decreases |parts|
  {
    if parts == [] {
      assert buf + Concat(parts) == buf;
    } else {
      var (first, kept) := Scan(buf + parts[0]);
      ScanKeepsUndecided(buf + parts[0]);
      SplittingInvariant(kept, parts[1..]);
      ScanSplit(buf + parts[0], Concat(parts[1..]));
      assert buf + parts[0] + Concat(parts[1..]) == buf + Concat(parts);
    }
  }

  lemma {:induction false} ScanKeepsUndecided(buf: seq<byte>)
    ensures Decide(Scan(buf).1).Wait? && Scan(Scan(buf).1) == ([], Scan(buf).1)
    decreases |buf|
  {
    hide Decide, Parse;
    match Decide(buf)
    case Wait =>
    case Skip => ScanKeepsUndecided(buf[1..]);
    case Emit(n) => ScanKeepsUndecided(buf[n..]);
  }

  // ---- The leftmost greedy reading of a stream -------------------------------

  datatype Piece = Noise(b: byte) | Frame(raw: seq<byte>)

  function Text(p: Piece): seq<byte> {
    match p
    case Noise(b) => [b]
    case Frame(raw) => raw
  }

  function Flatten(pieces: seq<Piece>): seq<byte> {
    if pieces == [] then [] else Text(pieces[0]) + Flatten(pieces[1..])
  }

  function Frames(pieces: seq<Piece>): seq<seq<byte>> {
    if pieces == [] then []
    else if pieces[0].Frame? then [pieces[0].raw] + Frames(pieces[1..])
    else Frames(pieces[1..])
  }

  /**
   `pieces` reads a stream from the left: frames are valid, and a byte is noise
   only if no valid frame starts there, however the stream goes on after `rest`.
   */
  ghost predicate Greedy(pieces: seq<Piece>, rest: seq<byte>)
    decreases |pieces|
  {
    pieces != [] ==>
      && (match pieces[0]
          case Frame(raw) => ValidFrame(raw)
          case Noise(_) => forall more :: !FrameAtFront(Flatten(pieces) + rest + more))
      && Greedy(pieces[1..], rest)
  }

  /** The pieces the framer cuts a buffer into. */
  ghost function Pieces(buf: seq<byte>): seq<Piece>
    decreases |buf|
  {
    match Decide(buf)
    case Wait => []
    case Skip => [Noise(buf[0])] + Pieces(buf[1..])
    case Emit(n) => [Frame(buf[..n])] + Pieces(buf[n..])
  }

  lemma SkipMeansNoFrame(buf: seq<byte>, more: seq<byte>)
    requires Decide(buf).Skip?
    ensures !FrameAtFront(buf + more)
  {
    hide Update, FromBits;
    var s := buf + more;
    forall n | 0 <= n <= |s|
      ensures !ValidFrame(s[..n])
    {
      if ValidFrame(s[..n]) {
        EmitOnFrame(s, n);
        DecisionIsFinal(buf, more);
      }
    }
  }

  lemma EmitOnFrame(s: seq<byte>, n: nat)
    requires n <= |s| && ValidFrame(s[..n])
    ensures Decide(s) == Emit(n)
  {
    hide Update, FromBits;
    assert TotalLen(s) == n;
    assert s[..n][..n - CRC_SIZE] == s[..n - CRC_SIZE];
  }

  lemma EmitMeansFrame(s: seq<byte>)
    requires Decide(s).Emit?
    ensures ValidFrame(s[..Decide(s).total])
  {
    hide Update, FromBits;
    var n := Decide(s).total;
    assert s[..n][..n - CRC_SIZE] == s[..n - CRC_SIZE];
  }

  lemma {:induction false} PiecesCover(buf: seq<byte>)
    ensures Flatten(Pieces(buf)) + Scan(buf).1 == buf
    decreases |buf|
  {
    hide Decide, Scan, Pieces, Flatten;
    PiecesStep(buf);
    if Decide(buf).Wait? {
      NothingCut(buf);
    } else if Decide(buf).Skip? {
      PiecesCover(buf[1..]);
      FlattenCons(Noise(buf[0]), Pieces(buf[1..]), Scan(buf).1);
    } else {
      var n := Decide(buf).total;
      PiecesCover(buf[n..]);
      FlattenCons(Frame(buf[..n]), Pieces(buf[n..]), Scan(buf).1);
    }
  }

  lemma NothingCut(buf: seq<byte>)
    requires Decide(buf).Wait?
    ensures Flatten(Pieces(buf)) + Scan(buf).1 == buf
  {
    hide Decide;
  }

  lemma FlattenCons(p: Piece, ps: seq<Piece>, rest: seq<byte>)
    ensures Flatten([p] + ps) + rest == Text(p) + (Flatten(ps) + rest)
  {
    assert ([p] + ps)[1..] == ps;
    Assoc(Text(p), Flatten(ps), rest);
  }

  lemma {:induction false} PiecesGreedy(buf: seq<byte>)
    ensures Greedy(Pieces(buf), Scan(buf).1)
    decreases |buf|
  {
    hide Decide, ValidFrame, FrameAtFront;
    match Decide(buf)
    case Wait =>
    case Skip =>
      PiecesGreedy(buf[1..]);
      PiecesCover(buf);
      forall more
        ensures !FrameAtFront(buf + more)
      {
        SkipMeansNoFrame(buf, more);
      }
    case Emit(n) =>
      PiecesGreedy(buf[n..]);
      EmitMeansFrame(buf);
  }

  lemma {:induction false} PiecesEmitted(buf: seq<byte>)
    ensures Scan(buf).0 == ParseAll(Frames(Pieces(buf)))
    decreases |buf|
  {
    hide Decide, Parse;
    match Decide(buf)
    case Wait =>
    case Skip => PiecesEmitted(buf[1..]);
    case Emit(n) =>
      PiecesEmitted(buf[n..]);
      assert Frames(Pieces(buf)) == [buf[..n]] + Frames(Pieces(buf[n..]));
  }

  function ParseAll(raws: seq<seq<byte>>): seq<RawChunk> {
    if raws == [] then []
    else if |raws[0]| < MIN_CHUNK_SIZE then ParseAll(raws[1..])
    else [Parse(raws[0])] + ParseAll(raws[1..])
  }

  /** The framer reads greedily from the left, losing and reordering nothing. */
  lemma ScanIsGreedy(buf: seq<byte>)
    ensures Flatten(Pieces(buf)) + Scan(buf).1 == buf
    ensures Greedy(Pieces(buf), Scan(buf).1)
    ensures Scan(buf).0 == ParseAll(Frames(Pieces(buf)))
  {
    PiecesCover(buf);
    PiecesGreedy(buf);
    PiecesEmitted(buf);
  }

  /** What is kept back is nothing, or the start of a frame still incomplete. */
  lemma LeftoverBounded(buf: seq<byte>)
    ensures var rest := Scan(buf).1;
            rest == [] || (rest[0] == MAGIC && |rest| < MAX_CHUNK_SIZE && !FrameAtFront(rest))
  {
    hide Update, FromBits;
    ScanKeepsUndecided(buf);
    var rest := Scan(buf).1;
    forall n | 0 <= n <= |rest|
      ensures !ValidFrame(rest[..n])
    {
      if ValidFrame(rest[..n]) {
        EmitOnFrame(rest, n);
      }
    }
  }

  /** There is only one greedy reading that leaves a given leftover. */
  lemma {:induction false} GreedyUnique(p: seq<Piece>, q: seq<Piece>, rest: seq<byte>)
    requires Greedy(p, rest) && Greedy(q, rest)
    requires Flatten(p) == Flatten(q)
    ensures p == q
    decreases |p|
  {
    hide ValidFrame;
    if p == [] || q == [] {
      FlattenEmpty(p, rest);
      FlattenEmpty(q, rest);
    } else {
      FirstPieceForced(p, q, rest);
      assert Flatten(p)[|Text(p[0])|..] == Flatten(p[1..]);
      assert Flatten(q)[|Text(q[0])|..] == Flatten(q[1..]);
      GreedyUnique(p[1..], q[1..], rest);
    }
  }

  lemma FlattenEmpty(p: seq<Piece>, rest: seq<byte>)
    requires Greedy(p, rest)
    ensures Flatten(p) == [] <==> p == []
  {}

  lemma FirstPieceForced(p: seq<Piece>, q: seq<Piece>, rest: seq<byte>)
    requires p != [] && q != [] && Greedy(p, rest) && Greedy(q, rest)
    requires Flatten(p) == Flatten(q)
    ensures p[0] == q[0]
  {
    hide Update, FromBits;
    var s := Flatten(p);
    assert s + rest + [] == s + rest;
    if p[0].Frame? {
      var n := |p[0].raw|;
      assert s[..n] == p[0].raw == (s + rest + [])[..n];
      assert FrameAtFront(s + rest + []);
      EmitOnFrame(s, n);
    }
    if q[0].Frame? {
      var n := |q[0].raw|;
      assert s[..n] == q[0].raw == (s + rest + [])[..n];
      assert FrameAtFront(s + rest + []);
      EmitOnFrame(s, n);
    }
  }

  /**
   Every greedy reading that leaves an undecided rest starts with the framer's
   own pieces: the framer never gives up a byte that it could wait on. So its
   reading is the only one that leaves its leftover.
   */
  lemma {:induction false} ScanIsFirstReading(buf: seq<byte>, q: seq<Piece>, rest: seq<byte>)
    requires Greedy(q, rest) && Flatten(q) + rest == buf && Decide(rest).Wait?
    ensures Pieces(buf) <= q
    ensures q == Pieces(buf) <==> rest == Scan(buf).1
    decreases |buf|
  {
    hide ValidFrame, FrameAtFront, Decide;
    if Decide(buf).Wait? {
      if q != [] { WholeIsLonger(q, rest); }
    } else {
      assert q != [] by { assert Flatten([]) + rest == rest; }
      SamePiece(buf, q, rest);
      PiecesStep(buf);
      var later := buf[|Text(q[0])|..];
      assert Flatten(q[1..]) + rest == later by {
        Assoc(Text(q[0]), Flatten(q[1..]), rest);
        assert buf == Text(q[0]) + (Flatten(q[1..]) + rest);
      }
      assert Greedy(q[1..], rest);
      hide Flatten, Greedy, Pieces, Scan;
      ScanIsFirstReading(later, q[1..], rest);
      assert q == [q[0]] + q[1..];
    }
  }

  lemma PiecesStep(buf: seq<byte>)
    ensures Decide(buf).Skip? ==> Pieces(buf) == [Noise(buf[0])] + Pieces(buf[1..]) && Scan(buf).1 == Scan(buf[1..]).1
    ensures Decide(buf).Emit? ==>
              var n := Decide(buf).total;
              Pieces(buf) == [Frame(buf[..n])] + Pieces(buf[n..]) && Scan(buf).1 == Scan(buf[n..]).1
  {
    hide Decide;
  }

  lemma WholeIsLonger(q: seq<Piece>, rest: seq<byte>)
    requires q != [] && Greedy(q, rest)
    ensures |Flatten(q)| > 0
  {
  }

  /** Where the framer decides, a greedy reading has the same first piece. */
  lemma SamePiece(buf: seq<byte>, q: seq<Piece>, rest: seq<byte>)
    requires q != [] && Greedy(q, rest) && Flatten(q) + rest == buf
    ensures Decide(buf).Skip? ==> q[0] == Noise(buf[0])
    ensures Decide(buf).Emit? ==> q[0] == Frame(buf[..Decide(buf).total])
    ensures |Text(q[0])| > 0
  {
    hide Update, FromBits;
    assert Flatten(q) + rest + [] == buf;
    assert q[0].Noise? ==> !FrameAtFront(buf);
    if q[0].Frame? {
      var n := |q[0].raw|;
      assert buf[..n] == q[0].raw;
      EmitOnFrame(buf, n);
    } else if Decide(buf).Emit? {
      EmitMeansFrame(buf);
      assert false;
    }
  }

  /** Other undecided leftovers are possible: a magic byte before a wrong version may be kept or given up. */
  lemma TwoReadings()
    ensures var buf := [MAGIC, 0];
            && Greedy([], buf) && Decide(buf).Wait?
            && Greedy([Noise(MAGIC), Noise(0)], []) && Decide([]).Wait? && Flatten([Noise(MAGIC), Noise(0)]) == buf
  {
    hide Update, FromBits;
    var q := [Noise(MAGIC), Noise(0)];
    assert q[1..] == [Noise(0)] && q[1..][1..] == [];
    assert Flatten(q[1..]) == [0] + Flatten(q[1..][1..]);
    assert Flatten(q) == [MAGIC] + Flatten(q[1..]) == [MAGIC, 0];
    forall more ensures !FrameAtFront(Flatten(q) + [] + more) { NoFrame(Flatten(q) + [] + more); }
    forall more ensures !FrameAtFront(Flatten(q[1..]) + [] + more) { NoFrame(Flatten(q[1..]) + [] + more); }
    hide FrameAtFront, Flatten;
    assert Greedy(q[1..][1..], []);
    assert Greedy(q[1..], []);
  }

  lemma NoFrame(s: seq<byte>)
    requires |s| > 0 && (s[0] != MAGIC || (|s| > 1 && s[1] != VERSION))
    ensures !FrameAtFront(s)
  {
    hide Update, FromBits;
  }

  // ---- From the gateway to the server ----------------------------------------

  /** The chunk a frame of known type decodes to. */
  function ToChunk(raw: seq<byte>): Chunk
    requires |raw| >= MIN_CHUNK_SIZE && 1 <= raw[2] <= 7
  {
    Chunk(ChunkType.FromByte(raw[2]).value, U16(raw[6], raw[7]), raw[3], raw[HEADER_SIZE..|raw| - CRC_SIZE])
  }

  lemma FrameDecodes(raw: seq<byte>, tail: seq<byte>)
    requires ValidFrame(raw) && 1 <= raw[2] <= 7
    ensures DecodeChunk(raw + tail) == Ok(ToChunk(raw), |raw|)
  {
    hide Update, FromBits;
    var end := |raw| - CRC_SIZE;
    assert (raw + tail)[..end] == raw[..end];
    assert (raw + tail)[HEADER_SIZE..end] == raw[HEADER_SIZE..end];
  }

  predicate KnownType(raw: seq<byte>) { |raw| > 2 && 1 <= raw[2] <= 7 }

  /** How many frames come before the first of a type the server does not know. */
  function LeadingKnown(raws: seq<seq<byte>>): (n: nat)
    ensures n <= |raws| && forall i :: 0 <= i < n ==> KnownType(raws[i])
    ensures n < |raws| ==> !KnownType(raws[n])
  {
    if raws == [] || !KnownType(raws[0]) then 0 else 1 + LeadingKnown(raws[1..])
  }

  ghost predicate ValidFrames(raws: seq<seq<byte>>) {
    forall i :: 0 <= i < |raws| ==> ValidFrame(raws[i])
  }

  lemma FrameStops(raw: seq<byte>, tail: seq<byte>)
    ensures ValidFrame(raw) && !KnownType(raw) ==> DecodeChunk(raw + tail).Err?
  {
    hide Checksum;
  }

  lemma {:induction false} FramesDecode(raws: seq<seq<byte>>)
    requires ValidFrames(raws)
    ensures |DecodeAll(Concat(raws))| == LeadingKnown(raws)
    ensures forall i :: 0 <= i < LeadingKnown(raws) ==> DecodeAll(Concat(raws))[i] == ToChunk(raws[i])
    decreases |raws|
  {
    hide DecodeChunk, ValidFrame, Parse, DecodeAll;
    if raws == [] {
      DecodeAllStep([]);
    } else {
      var tail := Concat(raws[1..]);
      DecodeAllStep(raws[0] + tail);
      assert ValidFrame(raws[0]);
      if KnownType(raws[0]) {
        FrameDecodes(raws[0], tail);
        assert (raws[0] + tail)[|raws[0]|..] == tail;
        FramesDecode(raws[1..]);
      } else {
        FrameStops(raws[0], tail);
      }
    }
  }

  /** The bytes the gateway forwards. */
  function Raws(chunks: seq<RawChunk>): (raws: seq<seq<byte>>)
    ensures |raws| == |chunks| && forall i :: 0 <= i < |chunks| ==> raws[i] == chunks[i].raw
  {
    seq(|chunks|, i requires 0 <= i < |chunks| => chunks[i].raw)
  }

  lemma {:induction false} RawsOfParsed(raws: seq<seq<byte>>)
    requires forall i :: 0 <= i < |raws| ==> |raws[i]| >= MIN_CHUNK_SIZE
    ensures Raws(ParseAll(raws)) == raws
    decreases |raws|
  {
    if raws != [] { RawsOfParsed(raws[1..]); }
  }

  lemma EmittedFrames(buf: seq<byte>)
    ensures Raws(Scan(buf).0) == Frames(Pieces(buf)) && ValidFrames(Raws(Scan(buf).0))
  {
    hide ValidFrame, Scan, Pieces, Frames;
    var raws := Frames(Pieces(buf));
    forall i | 0 <= i < |raws| ensures ValidFrame(raws[i]) && |raws[i]| >= MIN_CHUNK_SIZE {
      FramesValid(buf, i);
      FrameSize(raws[i]);
    }
    PiecesEmitted(buf);
    RawsOfParsed(raws);
  }

  lemma FrameSize(raw: seq<byte>)
    requires ValidFrame(raw)
    ensures |raw| >= MIN_CHUNK_SIZE
  {
  }

  /**
   What the gateway emits and forwards back to back, the server decodes one for
   one up to the first frame of a type it does not know; so it decodes all of
   it exactly if every type is 1 to 7.
   */
  lemma ForwardedFramesDecode(buf: seq<byte>)
    ensures var raws := Raws(Scan(buf).0); var chunks := DecodeAll(Concat(raws)); var n := LeadingKnown(raws);
            && ValidFrames(raws)
            && |chunks| == n && (forall i :: 0 <= i < n ==> chunks[i] == ToChunk(raws[i]))
            && (|chunks| == |raws| <==> forall i :: 0 <= i < |raws| ==> 1 <= raws[i][2] <= 7)
  {
    EmittedFrames(buf);
    var raws := Raws(Scan(buf).0);
    FramesDecode(raws);
    hide DecodeAll, Scan;
    forall i | 0 <= i < |raws| ensures KnownType(raws[i]) <==> 1 <= raws[i][2] <= 7 {
      FrameSize(raws[i]);
    }
  }

  lemma {:induction false} FramesValid(buf: seq<byte>, i: nat)
    requires i < |Frames(Pieces(buf))|
    ensures ValidFrame(Frames(Pieces(buf))[i])
    decreases |buf|
  {
    hide Decide, ValidFrame, Parse;
    match Decide(buf)
    case Wait =>
    case Skip => FramesValid(buf[1..], i);
    case Emit(n) =>
      EmitMeansFrame(buf);
      if i > 0 {
        FramesValid(buf[n..], i - 1);
      }
  }

  // ---- Resynchronisation -----------------------------------------------------

  datatype Sent = Sent(noise: seq<byte>, chunk: Chunk)

  /** Chunks a receiver can take, with line noise free of the magic byte before each. */
  ghost predicate Receivable(sent: seq<Sent>) {
    forall i :: 0 <= i < |sent| ==> MAGIC !in sent[i].noise && |sent[i].chunk.payload| <= MAX_CHUNK_SIZE - MIN_CHUNK_SIZE
  }

  function Line(sent: seq<Sent>): seq<byte>
    requires Receivable(sent)
  {
    if sent == [] then [] else sent[0].noise + EncodeChunk(sent[0].chunk) + Line(sent[1..])
  }

  /** Every chunk sent over such a line arrives, in order, and nothing else does. */
  lemma {:induction false} Resynchronises(sent: seq<Sent>)
    requires Receivable(sent)
    ensures |Scan(Line(sent)).0| == |sent| && Scan(Line(sent)).1 == []
    ensures forall i :: 0 <= i < |sent| ==> Scan(Line(sent)).0[i].raw == EncodeChunk(sent[i].chunk)
    decreases |sent|
  {
    hide EncodeChunk, Decide, Scan;
    if sent == [] {
      NothingToDecide();
    } else {
      FirstArrives(sent[0].noise, sent[0].chunk, Line(sent[1..]));
      Resynchronises(sent[1..]);
    }
  }

  lemma FirstArrives(noise: seq<byte>, c: Chunk, tail: seq<byte>)
    requires MAGIC !in noise && |c.payload| <= MAX_CHUNK_SIZE - MIN_CHUNK_SIZE
    ensures var raw := EncodeChunk(c);
            Scan(noise + raw + tail) == ([Parse(raw)] + Scan(tail).0, Scan(tail).1)
  {
    hide EncodeChunk, Decide, Parse;
    var raw := EncodeChunk(c);
    var line := noise + raw + tail;
    assert line[..|noise|] == noise && line[|noise|..] == raw + tail;
    SkipToMagic(line, |noise|);
    EncodedIsEmitted(c, tail);
    assert (raw + tail)[|raw|..] == tail && (raw + tail)[..|raw|] == raw;
  }

  lemma NothingToDecide()
    ensures Decide([]).Wait? && Scan([]) == ([], [])
  {}

  lemma EncodedIsEmitted(c: Chunk, tail: seq<byte>)
    requires |c.payload| <= MAX_CHUNK_SIZE - MIN_CHUNK_SIZE
    ensures Decide(EncodeChunk(c) + tail) == Emit(|EncodeChunk(c)|)
  {
    hide Update, FromBits;
    var raw := EncodeChunk(c);
    EncodedDecodes(raw, c);
    DecisionIsFinal(raw, tail);
  }
}
