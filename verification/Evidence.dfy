/**
 The hash-chained evidence log. SHA-256 in hex is any function from byte
 strings to texts; results hold for all of them, up to a collision.
 */
module Evidence {
  import opened Bytes
  import opened Decimals

  type Text = s: seq<byte> | |s| < 0x1_0000_0000_0000_0000

  type Hash = seq<byte> -> Text

  /** 64 zero digits: `prev_hash` of the first entry. */
  function Genesis(): Text { seq(64, _ => 0x30) }

  /** "ferrite-evidence-v1" in ASCII. */
  const CONTEXT: seq<byte> :=
    [0x66, 0x65, 0x72, 0x72, 0x69, 0x74, 0x65, 0x2D, 0x65, 0x76, 0x69, 0x64, 0x65, 0x6E, 0x63, 0x65, 0x2D, 0x76, 0x31]

  datatype Entry = Entry(
    seqNo: int, recordedAt: Text, kind: Text, subject: Text, actor: Text, details: Text, prevHash: Text, hash: Text)

  // ---- What is hashed --------------------------------------------------------

  /** A field behind its length as eight little-endian bytes. */
  function Field(f: seq<byte>): (b: seq<byte>)
    ensures |b| == 8 + |f|
  {
    LeBytes(|f|, 8) + f
  }

  function Fields(fs: seq<seq<byte>>): seq<byte> {
    if fs == [] then [] else Field(fs[0]) + Fields(fs[1..])
  }

  ghost predicate Short(fs: seq<seq<byte>>) {
    forall i :: 0 <= i < |fs| ==> |fs[i]| < 0x1_0000_0000_0000_0000
  }

  lemma FirstFieldDetermined(f: seq<byte>, g: seq<byte>, x: seq<byte>, y: seq<byte>)
    requires |f| < 0x1_0000_0000_0000_0000 && |g| < 0x1_0000_0000_0000_0000
    requires Field(f) + x == Field(g) + y
    ensures f == g && x == y
  {
    hide LeBytes, LeValue;
    Pow256Values();
    LeBytesValue(|f|, 8);
    LeBytesValue(|g|, 8);
    var s := Field(f) + x;
    assert s[..8] == LeBytes(|f|, 8) && s[..8] == LeBytes(|g|, 8);
    assert s[8..8 + |f|] == f && s[8..8 + |g|] == g;
    assert s[8 + |f|..] == x && s[8 + |g|..] == y;
  }

  lemma {:induction false} FieldsInjective(a: seq<seq<byte>>, b: seq<seq<byte>>)
    requires |a| == |b| && Short(a) && Short(b)
    requires Fields(a) == Fields(b)
    ensures a == b
    decreases |a|
  {
    hide Field;
    if a != [] {
      FirstFieldDetermined(a[0], b[0], Fields(a[1..]), Fields(b[1..]));
      FieldsInjective(a[1..], b[1..]);
    }
  }

  function EntryFields(e: Entry): (fs: seq<seq<byte>>)
    ensures |fs| == 7
  {
    [e.prevHash, Decimal(e.seqNo), e.recordedAt, e.kind, e.subject, e.actor, e.details]
  }

  function Preimage(e: Entry): seq<byte> {
    CONTEXT + Fields(EntryFields(e))
  }

  function EntryHash(h: Hash, e: Entry): Text {
    h(Preimage(e))
  }

  /** Sequence numbers are `i64`. */
  predicate SeqInRange(n: int) {
    -0x8000_0000_0000_0000 <= n < 0x8000_0000_0000_0000
  }

  lemma {:induction false} DigitsShort(n: nat)
    ensures |Digits(n)| <= n + 1
    decreases n
  {
    if n >= 10 {
      DigitsShort(n / 10);
    }
  }

  lemma DecimalShort(n: int)
    requires SeqInRange(n)
    ensures |Decimal(n)| < 0x1_0000_0000_0000_0000
  {
    DigitsShort(if n < 0 then -n else n);
  }

  /** No two different entries are hashed alike: all fields but the hash itself are covered. */
  lemma PreimageInjective(a: Entry, b: Entry)
    requires SeqInRange(a.seqNo) && SeqInRange(b.seqNo)
    requires Preimage(a) == Preimage(b)
    ensures a.(hash := b.hash) == b
  {
    hide Fields, Decimal;
    var n := |CONTEXT|;
    assert Fields(EntryFields(a)) == Preimage(a)[n..] && Fields(EntryFields(b)) == Preimage(b)[n..];
    DecimalShort(a.seqNo);
    DecimalShort(b.seqNo);
    FieldsInjective(EntryFields(a), EntryFields(b));
    var fa, fb := EntryFields(a), EntryFields(b);
    assert fa[0] == fb[0] && fa[1] == fb[1] && fa[2] == fb[2] && fa[3] == fb[3] && fa[4] == fb[4] && fa[5] == fb[5] && fa[6] == fb[6];
    DecimalInjective(a.seqNo, b.seqNo);
  }

  // ---- Chains ----------------------------------------------------------------

  /** Entry i continues the chain: next number, previous hash, and its own hash right. */
  predicate LinkOk(h: Hash, log: seq<Entry>, i: nat)
    requires i < |log|
  {
    && log[i].seqNo == (if i == 0 then 1 else log[i - 1].seqNo + 1)
    && log[i].prevHash == (if i == 0 then Genesis() else log[i - 1].hash)
    && log[i].hash == EntryHash(h, log[i])
  }

  ghost predicate ValidLog(h: Hash, log: seq<Entry>) {
    forall i :: 0 <= i < |log| ==> LinkOk(h, log, i)
  }

  datatype Report = Report(entries: nat, valid: bool, firstInvalidSeq: Option<int>, head: Option<(int, Text)>)

  /** Index of the first of n entries that breaks the chain. */
  function FirstBad(h: Hash, log: seq<Entry>, n: nat): (bad: Option<nat>)
    requires n <= |log|
    ensures bad.None? ==> forall i :: 0 <= i < n ==> LinkOk(h, log, i)
    ensures bad.Some? ==> bad.value < n && !LinkOk(h, log, bad.value) && forall i :: 0 <= i < bad.value ==> LinkOk(h, log, i)
  {
    if n == 0 then None
    else
      match FirstBad(h, log, n - 1)
      case Some(b) => Some(b)
      case None => if LinkOk(h, log, n - 1) then None else Some(n - 1)
  }

  /** `verify` reports the first entry that breaks the chain, if any. */
  method Verify(h: Hash, log: seq<Entry>) returns (r: Report)
    ensures r.entries == |log|
    ensures r.valid <==> ValidLog(h, log)
    ensures r.firstInvalidSeq == match FirstBad(h, log, |log|)
                                 case None => None
                                 case Some(k) => Some(log[k].seqNo)
    ensures r.head == if log == [] then None else Some((log[|log| - 1].seqNo, log[|log| - 1].hash))
  {
    hide EntryHash;
    var expectedPrev, expectedSeq := Genesis(), 1;
    var firstInvalid: Option<int> := None;
    var head: Option<(int, Text)> := None;
    for k := 0 to |log|
      invariant expectedPrev == if k == 0 then Genesis() else log[k - 1].hash
      invariant expectedSeq == if k == 0 then 1 else log[k - 1].seqNo + 1
      invariant head == if k == 0 then None else Some((log[k - 1].seqNo, log[k - 1].hash))
      invariant firstInvalid == match FirstBad(h, log, k)
                                case None => None
                                case Some(b) => Some(log[b].seqNo)
    {
      var e := log[k];
      var recomputed := EntryHash(h, e);
      if firstInvalid.None? && (e.seqNo != expectedSeq || e.prevHash != expectedPrev || e.hash != recomputed) {
        firstInvalid := Some(e.seqNo);
      }
      expectedPrev, expectedSeq := e.hash, e.seqNo + 1;
      head := Some((e.seqNo, e.hash));
    }
    r := Report(|log|, firstInvalid.None?, firstInvalid, head);
  }

  ghost predicate Collides(h: Hash, x: seq<byte>, y: seq<byte>) {
    x != y && h(x) == h(y)
  }

  lemma {:induction false} SeqNumbers(h: Hash, log: seq<Entry>, i: nat)
    requires ValidLog(h, log) && i < |log|
    ensures log[i].seqNo == i + 1
    decreases i
  {
    assert LinkOk(h, log, i);
    if i > 0 {
      SeqNumbers(h, log, i - 1);
    }
  }

  predicate Countable(log: seq<Entry>) {
    forall i :: 0 <= i < |log| ==> SeqInRange(log[i].seqNo)
  }

  /**
   A hash pins everything before it: two valid logs that agree on the hash of
   entries i and j agree up to there, or the proof hands over a collision.
   */
  lemma {:induction false} HashPinsPrefix(h: Hash, a: seq<Entry>, i: nat, b: seq<Entry>, j: nat)
    returns (x: seq<byte>, y: seq<byte>)
    requires ValidLog(h, a) && ValidLog(h, b) && Countable(a) && Countable(b)
    requires i < |a| && j < |b| && a[i].hash == b[j].hash
    ensures Collides(h, x, y) || (i == j && a[..i + 1] == b[..j + 1])
    decreases i
  {
    hide Preimage, Decimal;
    assert LinkOk(h, a, i) && LinkOk(h, b, j);
    x, y := Preimage(a[i]), Preimage(b[j]);
    if x == y {
      PreimageInjective(a[i], b[j]);
      SeqNumbers(h, a, i);
      SeqNumbers(h, b, j);
      if i > 0 {
        x, y := HashPinsPrefix(h, a, i - 1, b, j - 1);
        assert a[..i + 1] == a[..i] + [a[i]] && b[..j + 1] == b[..j] + [b[j]];
      } else {
        assert a[..1] == [a[0]] && b[..1] == [b[0]];
      }
    }
  }

  /** Two logs that verify and share a head hash are the same log, or a collision is found. */
  lemma SameHeadSameLog(h: Hash, a: seq<Entry>, b: seq<Entry>) returns (x: seq<byte>, y: seq<byte>)
    requires ValidLog(h, a) && ValidLog(h, b) && Countable(a) && Countable(b)
    requires a != [] && b != [] && a[|a| - 1].hash == b[|b| - 1].hash
    ensures a == b || Collides(h, x, y)
  {
    x, y := HashPinsPrefix(h, a, |a| - 1, b, |b| - 1);
    assert a[..|a|] == a && b[..|b|] == b;
  }

  // ---- The log ---------------------------------------------------------------

  /** The entry that continues a log; its hash is filled in from the other fields. */
  function NextEntry(h: Hash, log: seq<Entry>, at: Text, kind: Text, subject: Text, actor: Text, details: Text): Entry {
    var seqNo := if log == [] then 1 else log[|log| - 1].seqNo + 1;
    var prev := if log == [] then Genesis() else log[|log| - 1].hash;
    var e := Entry(seqNo, at, kind, subject, actor, details, prev, Genesis());
    e.(hash := EntryHash(h, e))
  }

  class EvidenceLog {
    /** The table in sequence order. */
    var rows: seq<Entry>

    constructor ()
      ensures rows == []
    {
      rows := [];
    }

    /**
     Appends an event. The insert fails, leaving the log alone, only if the
     UNIQUE hash column already holds the new hash.
     */
    method Append(h: Hash, at: Text, kind: Text, subject: Text, actor: Text, details: Text) returns (r: Option<Entry>)
      modifies this
      ensures var e := NextEntry(h, old(rows), at, kind, subject, actor, details);
              if HashTaken(old(rows), e.hash) then r == None && rows == old(rows)
              else r == Some(e) && rows == old(rows) + [e]
      ensures old(ValidLog(h, rows)) ==> ValidLog(h, rows)
    {
      var prevSeq, prevHash := 0, Genesis();
      if rows != [] {
        prevSeq, prevHash := rows[|rows| - 1].seqNo, rows[|rows| - 1].hash;
      }
      var e := Entry(prevSeq + 1, at, kind, subject, actor, details, prevHash, Genesis());
      e := e.(hash := EntryHash(h, e));
      if HashTaken(rows, e.hash) {
        return None;
      }
      AppendKeepsValid(h, rows, e);
      rows := rows + [e];
      return Some(e);
    }

    /** What anchoring the head outside the server did. */
    method AnchorOnce(h: Hash, configured: bool, webhookSent: bool, timestampGranted: bool, at: Text, details: Text)
      returns (r: AnchorOutcome)
      modifies this
      ensures r == Anchoring(h, old(rows), configured, webhookSent || timestampGranted, at, details)
      ensures rows == if r.Anchored? then old(rows) + [AnchorEntry(h, old(rows), at, details)] else old(rows)
      ensures old(ValidLog(h, rows)) ==> ValidLog(h, rows)
      ensures r.Anchored? ==> ValidLog(h, old(rows)) && ValidLog(h, rows)
    {
      if !configured {
        return NotConfigured;
      }
      if rows == [] || rows[|rows| - 1].kind == ANCHOR_KIND {
        return Unchanged;
      }
      var head := rows[|rows| - 1];
      var report := Verify(h, rows);
      if report.firstInvalidSeq.Some? {
        return ChainBroken(report.firstInvalidSeq.value);
      }
      if !(webhookSent || timestampGranted) {
        return AllSinksFailed;
      }
      var entry := Append(h, at, ANCHOR_KIND, SubjectOf(head), SYSTEM, details);
      if entry.None? {
        return DbError;
      }
      return Anchored(head.seqNo, head.hash, entry.value.seqNo);
    }
  }

  predicate HashTaken(log: seq<Entry>, hash: Text) {
    exists i :: 0 <= i < |log| && log[i].hash == hash
  }

  lemma AppendKeepsValid(h: Hash, log: seq<Entry>, e: Entry)
    requires LinkOk(h, log + [e], |log|)
    ensures ValidLog(h, log) ==> ValidLog(h, log + [e])
  {
    hide EntryHash;
    if ValidLog(h, log) {
      forall i | 0 <= i < |log|
        ensures LinkOk(h, log + [e], i)
      {
        assert LinkOk(h, log, i);
      }
    }
  }

  /** On a valid log the insert can only fail by a hash collision. */
  lemma AppendFailsByCollision(h: Hash, log: seq<Entry>, e: Entry) returns (x: seq<byte>, y: seq<byte>)
    requires ValidLog(h, log) && Countable(log + [e]) && LinkOk(h, log + [e], |log|)
    requires HashTaken(log, e.hash)
    ensures Collides(h, x, y)
  {
    hide Preimage, Decimal;
    var i :| 0 <= i < |log| && log[i].hash == e.hash;
    AppendKeepsValid(h, log, e);
    SeqNumbers(h, log + [e], i);
    SeqNumbers(h, log + [e], |log|);
    x, y := Preimage(log[i]), Preimage(e);
    assert LinkOk(h, log, i);
    assert (log + [e])[i] == log[i] && (log + [e])[|log|] == e;
    if x == y {
      PreimageInjective(log[i], e);
    }
  }

  // ---- Anchoring -------------------------------------------------------------

  /** "evidence.anchored", "system" and "evidence:" in ASCII. */
  const ANCHOR_KIND: Text :=
    [0x65, 0x76, 0x69, 0x64, 0x65, 0x6E, 0x63, 0x65, 0x2E, 0x61, 0x6E, 0x63, 0x68, 0x6F, 0x72, 0x65, 0x64]
  const SYSTEM: Text := [0x73, 0x79, 0x73, 0x74, 0x65, 0x6D]
  const SUBJECT: seq<byte> := [0x65, 0x76, 0x69, 0x64, 0x65, 0x6E, 0x63, 0x65, 0x3A]

  function SubjectOf(head: Entry): Text {
    var s := SUBJECT + Decimal(head.seqNo);
    if |s| < 0x1_0000_0000_0000_0000 then s else SUBJECT
  }

  datatype AnchorOutcome =
    | NotConfigured
    | Unchanged
    | ChainBroken(seqNo: int)
    | AllSinksFailed
    | DbError
    | Anchored(headSeq: int, headHash: Text, anchorSeq: int)

  function AnchorEntry(h: Hash, log: seq<Entry>, at: Text, details: Text): Entry
    requires log != []
  {
    NextEntry(h, log, at, ANCHOR_KIND, SubjectOf(log[|log| - 1]), SYSTEM, details)
  }

  function Anchoring(h: Hash, log: seq<Entry>, configured: bool, sent: bool, at: Text, details: Text): AnchorOutcome {
    if !configured then NotConfigured
    else if log == [] || log[|log| - 1].kind == ANCHOR_KIND then Unchanged
    else if FirstBad(h, log, |log|).Some? then ChainBroken(log[FirstBad(h, log, |log|).value].seqNo)
    else if !sent then AllSinksFailed
    else if HashTaken(log, AnchorEntry(h, log, at, details).hash) then DbError
    else Anchored(log[|log| - 1].seqNo, log[|log| - 1].hash, AnchorEntry(h, log, at, details).seqNo)
  }

  // ---- Runs of the log ---------------------------------------------------------------

  /** Recording an event of another kind, or an attempt to anchor. */
  datatype LogEvent =
    | Record(at: Text, kind: Text, subject: Text, actor: Text, details: Text)
    | Anchor(configured: bool, sent: bool, at: Text, details: Text)

  function LogStep(h: Hash, log: seq<Entry>, e: LogEvent): seq<Entry> {
    match e
    case Record(at, kind, subject, actor, details) =>
      var entry := NextEntry(h, log, at, kind, subject, actor, details);
      if HashTaken(log, entry.hash) then log else log + [entry]
    case Anchor(configured, sent, at, details) =>
      if Anchoring(h, log, configured, sent, at, details).Anchored? then log + [AnchorEntry(h, log, at, details)] else log
  }

  function LogAfter(h: Hash, run: seq<LogEvent>): seq<Entry> {
    if run == [] then [] else LogStep(h, LogAfter(h, run[..|run| - 1]), run[|run| - 1])
  }

  ghost predicate OnlyAnchorsAnchor(run: seq<LogEvent>) {
    forall i :: 0 <= i < |run| && run[i].Record? ==> run[i].kind != ANCHOR_KIND
  }

  /** Every anchor stands right behind an entry that is none. */
  ghost predicate AnchorsApart(log: seq<Entry>) {
    forall i :: 0 <= i < |log| && log[i].kind == ANCHOR_KIND ==> i > 0 && log[i - 1].kind != ANCHOR_KIND
  }

  /** However often anchoring is attempted, each state of the log is anchored at most once; and the log stays valid. */
  lemma {:induction false} AnchoredOnce(h: Hash, run: seq<LogEvent>)
    requires OnlyAnchorsAnchor(run)
    ensures AnchorsApart(LogAfter(h, run)) && ValidLog(h, LogAfter(h, run))
    decreases |run|
  {
    if run != [] {
      var earlier, e := run[..|run| - 1], run[|run| - 1];
      AnchoredOnce(h, earlier);
      hide EntryHash, HashTaken, FirstBad;
      StepKeepsApart(h, LogAfter(h, earlier), e);
    }
  }

  lemma StepKeepsApart(h: Hash, log: seq<Entry>, e: LogEvent)
    requires AnchorsApart(log) && ValidLog(h, log)
    requires e.Record? ==> e.kind != ANCHOR_KIND
    ensures AnchorsApart(LogStep(h, log, e)) && ValidLog(h, LogStep(h, log, e))
  {
    hide HashTaken, FirstBad, EntryHash;
    match e
    case Record(at, kind, subject, actor, details) =>
      NextEntryLinks(h, log, at, kind, subject, actor, details);
      AppendKeepsValid(h, log, NextEntry(h, log, at, kind, subject, actor, details));
    case Anchor(configured, sent, at, details) =>
      if Anchoring(h, log, configured, sent, at, details).Anchored? {
        NextEntryLinks(h, log, at, ANCHOR_KIND, SubjectOf(log[|log| - 1]), SYSTEM, details);
        AppendKeepsValid(h, log, AnchorEntry(h, log, at, details));
      }
  }

  lemma NextEntryLinks(h: Hash, log: seq<Entry>, at: Text, kind: Text, subject: Text, actor: Text, details: Text)
    ensures LinkOk(h, log + [NextEntry(h, log, at, kind, subject, actor, details)], |log|)
  {
    hide Fields;
  }

  /** The number and hash that an anchor carries outside pin every log that still holds that hash, up to it. */
  lemma AnchorPinsPrefix(h: Hash, a: seq<Entry>, e: LogEvent, b: seq<Entry>, j: nat)
    returns (x: seq<byte>, y: seq<byte>)
    requires e.Anchor? && Anchoring(h, a, e.configured, e.sent, e.at, e.details).Anchored?
    requires ValidLog(h, b) && Countable(a) && Countable(b)
    requires j < |b| && b[j].hash == Anchoring(h, a, e.configured, e.sent, e.at, e.details).headHash
    ensures Anchoring(h, a, e.configured, e.sent, e.at, e.details).headSeq == |a|
    ensures b[..j + 1] == a || Collides(h, x, y)
  {
    hide EntryHash, HashTaken, Preimage;
    assert ValidLog(h, a);
    SeqNumbers(h, a, |a| - 1);
    x, y := HashPinsPrefix(h, a, |a| - 1, b, j);
    assert a[..|a| - 1 + 1] == a;
  }
}
