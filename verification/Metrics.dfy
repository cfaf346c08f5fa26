/**
 The fixed-capacity metrics buffer: known keys are updated in place, a new key
 evicts the oldest entry when the buffer is full. Metric values are reals.
 */
module Metrics {
  import opened Bytes

  const MAX_KEY := 32

  type Key = seq<byte>

  datatype Value =
    | Counter(v: u32)
    | Gauge(g: real)
    | Histogram(min: real, max: real, sum: real, count: nat)

  datatype Entry = Entry(key: Key, value: Value, ticks: u64)

  datatype Error = KeyTooLong

  datatype Outcome = Done | Fail(error: Error)

  /** One recording call. */
  datatype Op =
    | Increment(key: Key, delta: u32, ticks: u64)
    | SetGauge(key: Key, value: real, ticks: u64)
    | Observe(key: Key, value: real, ticks: u64)

  predicate SameKind(a: Op, b: Op) {
    a.Increment? == b.Increment? && a.SetGauge? == b.SetGauge?
  }

  // ---- Specification ---------------------------------------------------------

  function Position(es: seq<Entry>, key: Key): (i: Option<nat>)
    ensures i.Some? ==> i.value < |es| && es[i.value].key == key
    ensures i.None? ==> forall k :: 0 <= k < |es| ==> es[k].key != key
  {
    if es == [] then None
    else if es[0].key == key then Some(0)
    else
      match Position(es[1..], key)
      case Some(k) => Some(k + 1)
      case None => None
  }

  function Initial(op: Op): Value {
    match op
    case Increment(_, delta, _) => Counter(delta)
    case SetGauge(_, v, _) => Gauge(v)
    case Observe(_, v, _) => Histogram(v, v, v, 1)
  }

  /** The value after `op` on an entry that exists; another kind of metric starts over. */
  function Updated(v: Value, op: Op): Value {
    match (v, op)
    case (Counter(n), Increment(_, delta, _)) => Counter((n + delta) % 0x1_0000_0000)
    case (Histogram(min, max, sum, count), Observe(_, x, _)) =>
      Histogram(if x < min then x else min, if x > max then x else max, sum + x, count + 1)
    case _ => Initial(op)
  }

  function Recorded(es: seq<Entry>, op: Op, capacity: nat): seq<Entry>
    requires capacity >= 1
  {
    if |op.key| > MAX_KEY then es
    else
      match Position(es, op.key)
      case Some(i) => es[i := Entry(op.key, Updated(es[i].value, op), op.ticks)]
      case None =>
        (if |es| >= capacity then es[1..] else es) + [Entry(op.key, Initial(op), op.ticks)]
  }

  // ---- The buffer ------------------------------------------------------------

  class MetricsBuffer {
    const capacity: nat
    var entries: seq<Entry>

    ghost predicate Valid()
      reads this
    {
      capacity >= 1 && |entries| <= capacity
    }

    constructor (capacity: nat)
      requires capacity >= 1
      ensures Valid() && this.capacity == capacity && entries == []
    {
      this.capacity, entries := capacity, [];
    }

    method FindKey(key: Key) returns (idx: Option<nat>)
      ensures idx == Position(entries, key)
    {
      var i := 0;
      while i < |entries|
        invariant i <= |entries|
        invariant Position(entries, key) == match Position(entries[i..], key)
                                            case Some(k) => Some(i + k)
                                            case None => None
      {
        if entries[i].key == key {
          return Some(i);
        }
        assert entries[i..][1..] == entries[i + 1..];
        i := i + 1;
      }
      return None;
    }

    /** Pushes an entry for a new key, evicting the first if the buffer is full. */
    method Insert(e: Entry)
      requires Valid()
      modifies this
      ensures Valid()
      ensures entries == (if |old(entries)| >= capacity then old(entries)[1..] else old(entries)) + [e]
    {
      if |entries| >= capacity {
        entries := entries[1..];
      }
      entries := entries + [e];
    }

    method Increment(key: Key, delta: u32, ticks: u64) returns (r: Outcome)
      requires Valid()
      modifies this
      ensures Valid() && entries == Recorded(old(entries), Op.Increment(key, delta, ticks), capacity)
      ensures r == if |key| > MAX_KEY then Fail(KeyTooLong) else Done
    {
      if |key| > MAX_KEY {
        return Fail(KeyTooLong);
      }
      var idx := FindKey(key);
      if idx.Some? {
        var v := match entries[idx.value].value
          case Counter(n) => Counter((n + delta) % 0x1_0000_0000)
          case _ => Counter(delta);
        entries := entries[idx.value := Entry(key, v, ticks)];
      } else {
        Insert(Entry(key, Counter(delta), ticks));
      }
      return Done;
    }

    method SetGauge(key: Key, value: real, ticks: u64) returns (r: Outcome)
      requires Valid()
      modifies this
      ensures Valid() && entries == Recorded(old(entries), Op.SetGauge(key, value, ticks), capacity)
      ensures r == if |key| > MAX_KEY then Fail(KeyTooLong) else Done
    {
      if |key| > MAX_KEY {
        return Fail(KeyTooLong);
      }
      var idx := FindKey(key);
      if idx.Some? {
        entries := entries[idx.value := Entry(key, Gauge(value), ticks)];
      } else {
        Insert(Entry(key, Gauge(value), ticks));
      }
      return Done;
    }

    method Observe(key: Key, value: real, ticks: u64) returns (r: Outcome)
      requires Valid()
      modifies this
      ensures Valid() && entries == Recorded(old(entries), Op.Observe(key, value, ticks), capacity)
      ensures r == if |key| > MAX_KEY then Fail(KeyTooLong) else Done
    {
      if |key| > MAX_KEY {
        return Fail(KeyTooLong);
      }
      var idx := FindKey(key);
      if idx.Some? {
        var v := match entries[idx.value].value
          case Histogram(min, max, sum, count) =>
            Histogram(if value < min then value else min, if value > max then value else max, sum + value, count + 1)
          case _ => Histogram(value, value, value, 1);
        entries := entries[idx.value := Entry(key, v, ticks)];
      } else {
        Insert(Entry(key, Histogram(value, value, value, 1), ticks));
      }
      return Done;
    }

    /** Called after a successful upload. */
    method Clear()
      requires Valid()
      modifies this
      ensures Valid() && entries == []
    {
      entries := [];
    }
  }

  // ---- What a value means ----------------------------------------------------

  /** The calls on `key` from call number `since` on. */
  function CallsOn(history: seq<Op>, key: Key, since: nat): seq<Op> {
    if |history| <= since then []
    else
      var n := |history| - 1;
      CallsOn(history[..n], key, since) + (if history[n].key == key then [history[n]] else [])
  }

  function Sum(ops: seq<Op>): nat {
    if ops == [] then 0
    else Sum(ops[..|ops| - 1]) + (if ops[|ops| - 1].Increment? then ops[|ops| - 1].delta else 0)
  }

  function Total(ops: seq<Op>): real {
    if ops == [] then 0.0
    else Total(ops[..|ops| - 1]) + (if ops[|ops| - 1].Observe? then ops[|ops| - 1].value else 0.0)
  }

  /**
   `v` is what calls of one kind amount to: a counter their sum modulo 2^32, a
   gauge the last, a histogram the smallest, largest, sum and number.
   */
  ghost predicate Amounts(ops: seq<Op>, v: Value) {
    ops != [] && (forall i :: 0 <= i < |ops| ==> SameKind(ops[i], ops[0])) &&
    match v
    case Counter(n) => ops[0].Increment? && n == Sum(ops) % 0x1_0000_0000
    case Gauge(g) => ops[0].SetGauge? && g == ops[|ops| - 1].value
    case Histogram(min, max, sum, count) =>
      && ops[0].Observe?
      && (exists i :: 0 <= i < |ops| && ops[i].Observe? && ops[i].value == min)
      && (exists i :: 0 <= i < |ops| && ops[i].Observe? && ops[i].value == max)
      && (forall i :: 0 <= i < |ops| && ops[i].Observe? ==> min <= ops[i].value <= max)
      && sum == Total(ops)
      && count == |ops|
  }

  lemma FirstAmounts(op: Op)
    ensures Amounts([op], Initial(op))
  {
    assert [op][..0] == [];
    assert [op][0] == op;
  }

  lemma NextAmounts(ops: seq<Op>, v: Value, op: Op)
    requires Amounts(ops, v) && SameKind(op, ops[0])
    ensures Amounts(ops + [op], Updated(v, op))
  {
    var more := ops + [op];
    assert more[..|ops|] == ops && more[|ops|] == op;
    assert forall i :: 0 <= i < |ops| ==> more[i] == ops[i];
  }

  // ---- Histories -------------------------------------------------------------

  datatype Event = Record(op: Op) | Clear

  /** The recording calls of a run. */
  function CallsOf(run: seq<Event>): seq<Op> {
    if run == [] then []
    else
      var n := |run| - 1;
      match run[n]
      case Record(op) => CallsOf(run[..n]) + [op]
      case Clear => CallsOf(run[..n])
  }

  /** How many of them came before the last clear. */
  function ClearedCalls(run: seq<Event>): (k: nat)
    ensures k <= |CallsOf(run)|
  {
    if run == [] then 0
    else if run[|run| - 1].Clear? then |CallsOf(run)|
    else ClearedCalls(run[..|run| - 1])
  }

  function AfterAll(run: seq<Event>, capacity: nat): seq<Entry>
    requires capacity >= 1
  {
    if run == [] then []
    else
      var n := |run| - 1;
      match run[n]
      case Record(op) => Recorded(AfterAll(run[..n], capacity), op, capacity)
      case Clear => []
  }

  /** A live key: the call that brought it in, and the call since which its kind has not changed. */
  datatype Track = Track(key: Key, born: nat, since: nat)

  function TrackOf(ts: seq<Track>, key: Key): (i: Option<nat>)
    ensures i.Some? ==> i.value < |ts| && ts[i.value].key == key
    ensures i.None? ==> forall k :: 0 <= k < |ts| ==> ts[k].key != key
  {
    if ts == [] then None
    else if ts[0].key == key then Some(0)
    else
      match TrackOf(ts[1..], key)
      case Some(k) => Some(k + 1)
      case None => None
  }

  /** The keys of a first-in first-out store of `capacity` keys after one more call. */
  function Tracked(ts: seq<Track>, history: seq<Op>, op: Op, capacity: nat): (r: seq<Track>)
    requires capacity >= 1 && forall i :: 0 <= i < |ts| ==> ts[i].born <= ts[i].since < |history|
    ensures forall i :: 0 <= i < |r| ==> r[i].born <= r[i].since <= |history|
  {
    if |op.key| > MAX_KEY then ts
    else
      match TrackOf(ts, op.key)
      case Some(i) => if SameKind(op, history[ts[i].since]) then ts else ts[i := ts[i].(since := |history|)]
      case None => (if |ts| >= capacity then ts[1..] else ts) + [Track(op.key, |history|, |history|)]
  }

  /** The keys such a store holds, oldest first. */
  function Tracks(run: seq<Event>, capacity: nat): (ts: seq<Track>)
    requires capacity >= 1
    ensures forall i :: 0 <= i < |ts| ==> ts[i].born <= ts[i].since < |CallsOf(run)|
  {
    if run == [] then []
    else
      var n := |run| - 1;
      match run[n]
      case Record(op) => Tracked(Tracks(run[..n], capacity), CallsOf(run[..n]), op, capacity)
      case Clear => []
  }

  /** Entry `e` stands for track `t` after `history`. */
  ghost predicate StandsFor(e: Entry, t: Track, history: seq<Op>)
    requires t.since < |history|
  {
    var calls := CallsOn(history, t.key, t.since);
    && e.key == t.key && |t.key| <= MAX_KEY
    && Amounts(calls, e.value)
    && calls[0] == history[t.since]
    && e.ticks == calls[|calls| - 1].ticks
  }

  ghost predicate Matches(es: seq<Entry>, ts: seq<Track>, history: seq<Op>, capacity: nat) {
    && |es| == |ts| <= capacity
    && (forall i, j :: 0 <= i < j < |ts| ==> ts[i].key != ts[j].key && ts[i].born < ts[j].born)
    && (forall i :: 0 <= i < |ts| ==> ts[i].since < |history| && StandsFor(es[i], ts[i], history))
  }

  lemma OthersUnaffected(e: Entry, t: Track, history: seq<Op>, op: Op)
    requires t.since < |history| && StandsFor(e, t, history) && (op.key != t.key)
    ensures StandsFor(e, t, history + [op])
  {
    assert (history + [op])[..|history|] == history;
    var calls := CallsOn(history, t.key, t.since);
    assert calls + [] == calls;
  }

  lemma SameKindExtends(e: Entry, t: Track, history: seq<Op>, op: Op)
    requires t.since < |history| && StandsFor(e, t, history) && op.key == t.key && SameKind(op, history[t.since])
    ensures StandsFor(Entry(e.key, Updated(e.value, op), op.ticks), t, history + [op])
  {
    assert (history + [op])[..|history|] == history;
    NextAmounts(CallsOn(history, t.key, t.since), e.value, op);
  }

  lemma OtherKindRestarts(v: Value, first: Op, ops: seq<Op>, op: Op)
    requires Amounts(ops, v) && ops[0] == first && !SameKind(op, first)
    ensures Updated(v, op) == Initial(op)
  {}

  lemma NewStandsFor(key: Key, born: nat, history: seq<Op>, op: Op)
    requires op.key == key && |key| <= MAX_KEY
    ensures StandsFor(Entry(key, Initial(op), op.ticks), Track(key, born, |history|), history + [op])
  {
    assert (history + [op])[..|history|] == history;
    assert [] + [op] == [op];
    FirstAmounts(op);
  }

  lemma {:induction false} SamePosition(es: seq<Entry>, ts: seq<Track>, key: Key)
    requires |es| == |ts| && forall i :: 0 <= i < |ts| ==> es[i].key == ts[i].key
    ensures Position(es, key) == TrackOf(ts, key)
    decreases |es|
  {
    if es != [] {
      SamePosition(es[1..], ts[1..], key);
    }
  }

  /**
   After any run of calls and clears the buffer's keys are distinct, at most
   `capacity`, in order of entry since the last clear, evicted oldest first; and
   every value is what the calls on its key amount to since the key last
   entered or changed kind.
   */
  lemma {:induction false} BufferTellsHistory(run: seq<Event>, capacity: nat)
    requires capacity >= 1
    ensures Matches(AfterAll(run, capacity), Tracks(run, capacity), CallsOf(run), capacity)
    ensures forall i :: 0 <= i < |Tracks(run, capacity)| ==> ClearedCalls(run) <= Tracks(run, capacity)[i].born
    decreases |run|
  {
    hide StandsFor, Tracked, Recorded;
    if run != [] {
      var n := |run| - 1;
      BufferTellsHistory(run[..n], capacity);
      if run[n].Record? {
        TrackedBorn(Tracks(run[..n], capacity), CallsOf(run[..n]), run[n].op, capacity, ClearedCalls(run[..n]));
        OneCall(AfterAll(run[..n], capacity), Tracks(run[..n], capacity), CallsOf(run[..n]), run[n].op, capacity);
      }
    }
  }

  lemma TrackedBorn(ts: seq<Track>, before: seq<Op>, op: Op, capacity: nat, k: nat)
    requires capacity >= 1 && k <= |before|
    requires forall i :: 0 <= i < |ts| ==> k <= ts[i].born <= ts[i].since < |before|
    ensures var r := Tracked(ts, before, op, capacity); forall i :: 0 <= i < |r| ==> k <= r[i].born
  {}

  lemma OneCall(es: seq<Entry>, ts: seq<Track>, before: seq<Op>, op: Op, capacity: nat)
    requires capacity >= 1 && Matches(es, ts, before, capacity)
    requires forall i :: 0 <= i < |ts| ==> ts[i].born <= ts[i].since < |before|
    ensures Matches(Recorded(es, op, capacity), Tracked(ts, before, op, capacity), before + [op], capacity)
  {
    hide StandsFor, Matches;
    KeysAgree(es, ts, before, capacity);
    SamePosition(es, ts, op.key);
    if |op.key| > MAX_KEY {
      LongKeyAbsent(es, ts, before, capacity, op.key);
      OthersMatch(es, ts, before, op, capacity);
    } else {
      match TrackOf(ts, op.key)
      case Some(i) => KnownKey(es, ts, before, op, capacity, i);
      case None =>
        OthersMatch(es, ts, before, op, capacity);
        NewKey(es, ts, before, op, capacity);
    }
  }

  lemma OthersMatch(es: seq<Entry>, ts: seq<Track>, before: seq<Op>, op: Op, capacity: nat)
    requires Matches(es, ts, before, capacity)
    requires forall i :: 0 <= i < |ts| ==> ts[i].key != op.key
    ensures Matches(es, ts, before + [op], capacity)
  {
    hide StandsFor;
    forall i | 0 <= i < |ts|
      ensures StandsFor(es[i], ts[i], before + [op])
    {
      OthersUnaffected(es[i], ts[i], before, op);
    }
  }

  lemma NewKey(es: seq<Entry>, ts: seq<Track>, before: seq<Op>, op: Op, capacity: nat)
    requires capacity >= 1 && |op.key| <= MAX_KEY && Matches(es, ts, before + [op], capacity)
    requires forall i :: 0 <= i < |ts| ==> ts[i].key != op.key && ts[i].born < |before|
    ensures Matches((if |es| >= capacity then es[1..] else es) + [Entry(op.key, Initial(op), op.ticks)],
                    (if |ts| >= capacity then ts[1..] else ts) + [Track(op.key, |before|, |before|)],
                    before + [op], capacity)
  {
    hide StandsFor;
    NewStandsFor(op.key, |before|, before, op);
  }

  lemma KnownKey(es: seq<Entry>, ts: seq<Track>, before: seq<Op>, op: Op, capacity: nat, i: nat)
    requires Matches(es, ts, before, capacity) && i < |ts| && ts[i].key == op.key && |op.key| <= MAX_KEY
    ensures Matches(es[i := Entry(op.key, Updated(es[i].value, op), op.ticks)],
                    if SameKind(op, before[ts[i].since]) then ts else ts[i := ts[i].(since := |before|)],
                    before + [op], capacity)
  {
    hide StandsFor;
    KeysAgree(es, ts, before, capacity);
    forall k | 0 <= k < |ts| && k != i
      ensures StandsFor(es[k], ts[k], before + [op])
    {
      OthersUnaffected(es[k], ts[k], before, op);
    }
    if SameKind(op, before[ts[i].since]) {
      SameKindExtends(es[i], ts[i], before, op);
    } else {
      ChangedKind(es[i], ts[i], before, op);
    }
  }

  lemma KeysAgree(es: seq<Entry>, ts: seq<Track>, history: seq<Op>, capacity: nat)
    requires Matches(es, ts, history, capacity)
    ensures |es| == |ts| && forall i :: 0 <= i < |ts| ==> es[i].key == ts[i].key
  {
    hide Amounts, CallsOn;
  }

  lemma LongKeyAbsent(es: seq<Entry>, ts: seq<Track>, history: seq<Op>, capacity: nat, key: Key)
    requires Matches(es, ts, history, capacity) && |key| > MAX_KEY
    ensures forall i :: 0 <= i < |ts| ==> ts[i].key != key
  {
    hide Amounts, CallsOn;
  }

  lemma ChangedKind(e: Entry, t: Track, before: seq<Op>, op: Op)
    requires t.since < |before| && StandsFor(e, t, before) && op.key == t.key && !SameKind(op, before[t.since])
    ensures StandsFor(Entry(op.key, Updated(e.value, op), op.ticks), t.(since := |before|), before + [op])
  {
    OtherKindRestarts(e.value, before[t.since], CallsOn(before, t.key, t.since), op);
    NewStandsFor(op.key, t.born, before, op);
  }
}
