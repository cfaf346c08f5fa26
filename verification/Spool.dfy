/**
 Delivery of report batches with an on-disk spool for outages. Batches are of
 any type T; runs use their production number.
 */
module Spool {
  import opened Bytes

  datatype Delivery = Accepted | Rejected(status: nat) | Failed

  /** The answer an HTTP status stands for. */
  function ClassifyStatus(status: nat): (d: Delivery)
    ensures d == Accepted <==> 200 <= status <= 299
    ensures d.Rejected? <==> 400 <= status <= 499 && status !in {401, 403, 404, 429}
  {
    if 200 <= status <= 299 then Accepted
    else if status in {401, 403, 404, 429} then Failed
    else if 400 <= status <= 499 then Rejected(status)
    else Failed
  }

  /** The server's answers, in the order batches are sent to it. */
  type Replies = nat -> Delivery

  // ---- Specification ---------------------------------------------------------

  /** The spool, oldest first, and what became of every batch that left it. */
  datatype State<T> = State(queue: seq<T>, sends: nat, accepted: seq<T>, rejected: seq<T>, dropped: seq<T>)

  function Settled<T>(s: State<T>, b: T, d: Delivery): State<T> {
    match d
    case Accepted => s.(accepted := s.accepted + [b])
    case Rejected(_) => s.(rejected := s.rejected + [b])
    case Failed => s
  }

  function Pushed<T>(s: State<T>, b: T, max: nat): State<T> {
    var q := s.queue + [b];
    var excess := if |q| > max then |q| - max else 0;
    s.(queue := q[excess..], dropped := s.dropped + q[..excess])
  }

  function Flushed<T>(s: State<T>, replies: Replies): State<T>
    decreases |s.queue|
  {
    if s.queue == [] then s
    else
      var d := replies(s.sends);
      if d.Failed? then s.(sends := s.sends + 1)
      else Flushed(Settled(s.(queue := s.queue[1..], sends := s.sends + 1), s.queue[0], d), replies)
  }

  function Delivered<T>(s: State<T>, b: T, max: nat, replies: Replies): State<T> {
    var s1 := Flushed(s, replies);
    if s1.queue != [] then Pushed(s1, b, max)
    else
      var d := replies(s1.sends);
      var s2 := s1.(sends := s1.sends + 1);
      if d.Failed? then Pushed(s2, b, max) else Settled(s2, b, d)
  }

  lemma FlushedStep<T>(s: State<T>, replies: Replies)
    ensures s.queue == [] ==> Flushed(s, replies) == s
    ensures s.queue != [] ==>
              var d := replies(s.sends);
              Flushed(s, replies) ==
              if d.Failed? then s.(sends := s.sends + 1)
              else Flushed(Settled(s.(queue := s.queue[1..], sends := s.sends + 1), s.queue[0], d), replies)
    ensures s.queue != [] && replies(s.sends).Failed? ==> Flushed(s, replies) == s.(sends := s.sends + 1)
  {}

  // ---- The spool directory ---------------------------------------------------

  class Transport {
    const replies: Replies
    var sends: nat

    constructor (replies: Replies)
      ensures this.replies == replies && sends == 0
    {
      this.replies, sends := replies, 0;
    }

    method Send() returns (d: Delivery)
      modifies this
      ensures d == replies(old(sends)) && sends == old(sends) + 1
    {
      d := replies(sends);
      sends := sends + 1;
    }
  }

  /** A spooled file: its number and its contents. */
  datatype File<T> = File(number: nat, batch: T)

  function Batches<T>(files: seq<File<T>>): (bs: seq<T>)
    ensures |bs| == |files| && forall i :: 0 <= i < |files| ==> bs[i] == files[i].batch
  {
    seq(|files|, i requires 0 <= i < |files| => files[i].batch)
  }

  lemma BatchesAppend<T>(files: seq<File<T>>, f: File<T>)
    ensures Batches(files + [f]) == Batches(files) + [f.batch]
  {
  }

  lemma BatchesCut<T>(files: seq<File<T>>, k: nat)
    requires k <= |files|
    ensures Batches(files[k..]) == Batches(files)[k..]
  {
  }

  class Spool<T> {
    const max: nat
    /** The directory, sorted by file number. */
    var files: seq<File<T>>
    var next: nat
    ghost var accepted: seq<T>
    ghost var rejected: seq<T>
    ghost var dropped: seq<T>

    /** Listing order is production order, and a new file goes last. */
    ghost predicate Valid()
      reads this
    {
      && (forall i, j :: 0 <= i < j < |files| ==> files[i].number < files[j].number)
      && (forall i :: 0 <= i < |files| ==> files[i].number < next)
    }

    ghost function Abs(t: Transport): State<T>
      reads this, t
    {
      State(Batches(files), t.sends, accepted, rejected, dropped)
    }

    /** Opens a directory that holds `found`. */
    constructor Open(found: seq<File<T>>, max: nat)
      requires forall i, j :: 0 <= i < j < |found| ==> found[i].number < found[j].number
      ensures Valid() && files == found && this.max == max
      ensures accepted == [] && rejected == [] && dropped == []
    {
      this.max, files := max, found;
      next := if found == [] then 0 else found[|found| - 1].number + 1;
      accepted, rejected, dropped := [], [], [];
    }

    method Push(batch: T, ghost t: Transport)
      requires Valid()
      modifies this
      ensures Valid() && Abs(t) == Pushed(old(Abs(t)), batch, max)
    {
      files := files + [File(next, batch)];
      next := next + 1;
      BatchesAppend(old(files), files[|files| - 1]);
      hide Batches;
      if |files| > max {
        DropOldest(|files| - max);
      } else {
        assert dropped + Batches(files)[..0] == dropped;
        assert Batches(files)[0..] == Batches(files);
      }
    }

    /** Removes the first files of the listing. */
    method DropOldest(excess: nat)
      requires Valid() && excess <= |files|
      modifies this`files, this`dropped
      ensures Valid()
      ensures Batches(files) == old(Batches(files))[excess..] && dropped == old(dropped) + old(Batches(files))[..excess]
    {
      dropped := dropped + Batches(files)[..excess];
      BatchesCut(files, excess);
      files := files[excess..];
    }

    method Flush(t: Transport) returns (done: nat)
      requires Valid()
      modifies this, t
      ensures Valid() && Abs(t) == Flushed(old(Abs(t)), t.replies)
      ensures done == old(|files|) - |files|
    {
      hide Flushed, Settled, Batches, Valid;
      done := 0;
      var entries := |files|;
      while done < entries
        invariant done <= entries && |files| == entries - done
        invariant Valid() && Flushed(Abs(t), t.replies) == Flushed(old(Abs(t)), t.replies)
      {
        FlushedStep(Abs(t), t.replies);
        var d := SendFirst(t);
        if d.Failed? {
          return;
        }
        done := done + 1;
      }
      FlushedStep(Abs(t), t.replies);
    }

    /** Sends the oldest batch; its file goes if it was answered for good. */
    method SendFirst(t: Transport) returns (d: Delivery)
      requires Valid() && files != []
      modifies this, t
      ensures Valid() && d == t.replies(old(t.sends))
      ensures files == if d.Failed? then old(files) else old(files)[1..]
      ensures var s := old(Abs(t)).(sends := old(t.sends) + 1);
              Abs(t) == if d.Failed? then s else Settled(s.(queue := s.queue[1..]), s.queue[0], d)
    {
      hide Settled, Batches;
      d := t.Send();
      if !d.Failed? {
        Settle(d, t);
      }
    }

    /** The oldest batch was answered for good: its file goes. */
    method Settle(d: Delivery, ghost t: Transport)
      requires Valid() && files != [] && !d.Failed?
      modifies this
      ensures Valid() && files == old(files)[1..]
      ensures Abs(t) == Settled(old(Abs(t)).(queue := old(Abs(t)).queue[1..]), old(files)[0].batch, d)
    {
      if d.Accepted? {
        accepted := accepted + [files[0].batch];
      } else {
        rejected := rejected + [files[0].batch];
      }
      assert Batches(files[1..]) == Batches(files)[1..];
      files := files[1..];
    }
  }

  /** `deliver`: flush first, and queue behind the backlog if it is still there. */
  method Deliver<T>(t: Transport, spool: Spool<T>, batch: T) returns (d: Delivery)
    requires spool.Valid()
    modifies spool, t
    ensures spool.Valid() && spool.Abs(t) == Delivered(old(spool.Abs(t)), batch, spool.max, t.replies)
  {
    hide Flushed, Pushed, Batches;
    FlushedStep(spool.Abs(t), t.replies);
    if spool.files != [] {
      var sent := spool.Flush(t);
      if spool.files != [] {
        spool.Push(batch, t);
        return Failed;
      }
    }
    d := t.Send();
    match d
    case Accepted => spool.accepted := spool.accepted + [batch];
    case Rejected(_) => spool.rejected := spool.rejected + [batch];
    case Failed => spool.Push(batch, t);
  }

  // ---- Runs ------------------------------------------------------------------

  /** Reopening finds the directory as it was left. */
  datatype Op = DeliverNext | FlushOnly | Reopen

  /** Batches are numbered as they are produced: the n-th `DeliverNext` delivers batch n. */
  datatype World = World(s: State<nat>, produced: nat)

  const START := World(State([], 0, [], [], []), 0)

  function Step(w: World, op: Op, max: nat, replies: Replies): World {
    match op
    case DeliverNext => World(Delivered(w.s, w.produced, max, replies), w.produced + 1)
    case FlushOnly => w.(s := Flushed(w.s, replies))
    case Reopen => w
  }

  function After(ops: seq<Op>, max: nat, replies: Replies): World {
    if ops == [] then START else Step(After(ops[..|ops| - 1], max, replies), ops[|ops| - 1], max, replies)
  }

  /** Strictly increasing numbers below `bound`. */
  ghost predicate Increasing(s: seq<nat>, bound: nat) {
    (forall i, j :: 0 <= i < j < |s| ==> s[i] < s[j]) && forall i :: 0 <= i < |s| ==> s[i] < bound
  }

  lemma CutKeepsOrder(s: seq<nat>, bound: nat, k: nat, n: nat)
    requires Increasing(s, bound) && k + n <= |s|
    ensures Increasing(s[..k] + s[k + n..], bound)
  {
    var t := s[..k] + s[k + n..];
    assert forall i :: 0 <= i < |t| ==> t[i] == s[if i < k then i else i + n];
  }

  function Fate(s: State<nat>): multiset<nat> {
    multiset(s.queue) + multiset(s.accepted) + multiset(s.rejected) + multiset(s.dropped)
  }

  /** One of each number below n. */
  function Each(n: nat): multiset<nat> {
    if n == 0 then multiset{} else Each(n - 1) + multiset{n - 1}
  }

  lemma {:induction false} EachOnce(n: nat, i: nat)
    ensures Each(n)[i] == if i < n then 1 else 0
    decreases n
  {
    if n > 0 {
      EachOnce(n - 1, i);
    }
  }

  ghost predicate Orderly(s: State<nat>, produced: nat, max: nat) {
    && Increasing(s.accepted + s.queue, produced)
    && |s.queue| <= max
    && Fate(s) == Each(produced)
  }

  lemma {:induction false} FlushOrderly(s: State<nat>, produced: nat, max: nat, replies: Replies)
    requires Orderly(s, produced, max)
    ensures Orderly(Flushed(s, replies), produced, max)
    decreases |s.queue|
  {
    hide Orderly;
    if s.queue != [] {
      SendsIrrelevant(s, produced, max);
    }
    if s.queue != [] && !replies(s.sends).Failed? {
      var s' := Settled(s.(queue := s.queue[1..], sends := s.sends + 1), s.queue[0], replies(s.sends));
      TakeFirst(s, produced, max, replies(s.sends));
      FlushOrderly(s', produced, max, replies);
    }
  }

  lemma TakeKeepsFate(s: State<nat>, d: Delivery)
    requires s.queue != [] && !d.Failed?
    ensures Fate(Settled(s.(queue := s.queue[1..], sends := s.sends + 1), s.queue[0], d)) == Fate(s)
  {
    var b, q := s.queue[0], s.queue[1..];
    assert s.queue == [b] + q;
    assert multiset(s.queue) == multiset{b} + multiset(q);
    if d.Accepted? {
      assert multiset(s.accepted + [b]) == multiset(s.accepted) + multiset{b};
    } else {
      assert multiset(s.rejected + [b]) == multiset(s.rejected) + multiset{b};
    }
  }

  lemma TakeFirst(s: State<nat>, produced: nat, max: nat, d: Delivery)
    requires Orderly(s, produced, max) && s.queue != [] && !d.Failed?
    ensures Orderly(Settled(s.(queue := s.queue[1..], sends := s.sends + 1), s.queue[0], d), produced, max)
  {
    TakeKeepsFate(s, d);
    TakeKeepsOrder(s.accepted, s.queue, produced);
    hide Increasing, Fate, Each;
  }

  lemma TakeKeepsOrder(accepted: seq<nat>, queue: seq<nat>, bound: nat)
    requires queue != [] && Increasing(accepted + queue, bound)
    ensures Increasing(accepted + [queue[0]] + queue[1..], bound) && Increasing(accepted + queue[1..], bound)
  {
    hide Increasing;
    var all := accepted + queue;
    assert accepted + [queue[0]] + queue[1..] == all;
    CutKeepsOrder(all, bound, |accepted|, 1);
    assert accepted + queue[1..] == all[..|accepted|] + all[|accepted| + 1..];
  }

  /** A batch just produced is newer than everything seen. */
  lemma PushOrderly(s: State<nat>, n: nat, max: nat)
    requires Orderly(s, n, max)
    ensures Orderly(Pushed(s, n, max), n + 1, max)
  {
    PushKeepsOrder(s, n, max);
    PushKeepsFate(s, n, max);
    assert Each(n + 1) == Each(n) + multiset{n};
    hide Increasing, Fate, Each;
  }

  lemma PushKeepsOrder(s: State<nat>, n: nat, max: nat)
    requires Increasing(s.accepted + s.queue, n)
    ensures Increasing(Pushed(s, n, max).accepted + Pushed(s, n, max).queue, n + 1)
  {
    hide Increasing;
    var q, k := s.queue + [n], |s.accepted|;
    var excess := if |q| > max then |q| - max else 0;
    var all := s.accepted + s.queue + [n];
    AppendKeepsOrder(s.accepted + s.queue, n);
    CutKeepsOrder(all, n + 1, k, excess);
    Assoc(s.accepted, s.queue, [n]);
    assert s.accepted + q[excess..] == all[..k] + all[k + excess..];
  }

  lemma CutConserves(q: seq<nat>, dropped: seq<nat>, k: nat)
    requires k <= |q|
    ensures multiset(q[k..]) + multiset(dropped + q[..k]) == multiset(q) + multiset(dropped)
  {
    assert q == q[..k] + q[k..];
    assert multiset(q) == multiset(q[..k]) + multiset(q[k..]);
    assert multiset(dropped + q[..k]) == multiset(dropped) + multiset(q[..k]);
  }

  lemma PushKeepsFate(s: State<nat>, n: nat, max: nat)
    ensures Fate(Pushed(s, n, max)) == Fate(s) + multiset{n}
  {
    var q, p := s.queue + [n], Pushed(s, n, max);
    assert multiset(q) == multiset(s.queue) + multiset{n};
    CutConserves(q, s.dropped, if |q| > max then |q| - max else 0);
    var before, after := multiset(q) + multiset(s.dropped), multiset(p.queue) + multiset(p.dropped);
    forall x: nat ensures Fate(p)[x] == (Fate(s) + multiset{n})[x] {
      assert before[x] == after[x];
    }
  }

  lemma IncreasingWeaken(s: seq<nat>, n: nat)
    requires Increasing(s, n)
    ensures Increasing(s, n + 1)
  {}

  lemma AppendKeepsOrder(s: seq<nat>, n: nat)
    requires Increasing(s, n)
    ensures Increasing(s + [n], n + 1)
  {}

  lemma SettleOrderly(s: State<nat>, n: nat, max: nat, d: Delivery)
    requires Orderly(s, n, max) && s.queue == [] && !d.Failed?
    ensures Orderly(Settled(s.(sends := s.sends + 1), n, d), n + 1, max)
  {
    assert s.accepted + s.queue == s.accepted;
    assert s.accepted + [n] + [] == s.accepted + [n];
    AppendKeepsOrder(s.accepted, n);
    IncreasingWeaken(s.accepted, n);
    SettleAddsFate(s.(sends := s.sends + 1), n, d);
    assert Each(n + 1) == Each(n) + multiset{n};
    hide Increasing, Fate, Each;
  }

  lemma SettleAddsFate(s: State<nat>, b: nat, d: Delivery)
    requires !d.Failed?
    ensures Fate(Settled(s, b, d)) == Fate(s) + multiset{b}
  {
    if d.Accepted? {
      assert multiset(s.accepted + [b]) == multiset(s.accepted) + multiset{b};
    } else {
      assert multiset(s.rejected + [b]) == multiset(s.rejected) + multiset{b};
    }
  }

  /**
   In every run, whatever the server answers: accepted batches and then the
   spool are in production order, the spool holds at most `max`, and every batch
   produced is exactly once accepted, rejected, dropped by the cap or spooled.
   */
  lemma {:induction false} AlwaysOrderly(ops: seq<Op>, max: nat, replies: Replies)
    ensures var w := After(ops, max, replies); Orderly(w.s, w.produced, max)
    decreases |ops|
  {
    hide Orderly, Flushed, Pushed, Settled;
    if ops == [] {
      StartOrderly(max);
    } else {
      var w := After(ops[..|ops| - 1], max, replies);
      AlwaysOrderly(ops[..|ops| - 1], max, replies);
      FlushOrderly(w.s, w.produced, max, replies);
      if ops[|ops| - 1].DeliverNext? {
        var s := Flushed(w.s, replies);
        var d := replies(s.sends);
        SendsIrrelevant(s, w.produced, max);
        if s.queue != [] {
          PushOrderly(s, w.produced, max);
        } else if d.Failed? {
          PushOrderly(s.(sends := s.sends + 1), w.produced, max);
        } else {
          SettleOrderly(s, w.produced, max, d);
        }
      }
    }
  }

  lemma StartOrderly(max: nat)
    ensures Orderly(START.s, 0, max)
  {}

  lemma SendsIrrelevant(s: State<nat>, n: nat, max: nat)
    requires Orderly(s, n, max)
    ensures Orderly(s.(sends := s.sends + 1), n, max)
  {}

  /** No batch is accepted twice, and none both accepted and still spooled. */
  lemma EveryBatchHasOneFate(ops: seq<Op>, max: nat, replies: Replies, b: nat)
    ensures var w := After(ops, max, replies);
            multiset(w.s.queue)[b] + multiset(w.s.accepted)[b] + multiset(w.s.rejected)[b] + multiset(w.s.dropped)[b]
            == if b < w.produced then 1 else 0
  {
    hide After;
    AlwaysOrderly(ops, max, replies);
    EachOnce(After(ops, max, replies).produced, b);
  }
}
