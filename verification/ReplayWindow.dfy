/**
 The sliding replay window: bit i of `seen` stands for counter max - i. The
 packed bytes refine a set of accepted counters.
 */
module ReplayWindow {
  import opened Bytes

  const REPLAY_WINDOW := 4096
  const WINDOW_BYTES := 512

  datatype Freshness = Fresh | Replayed | Stale

  // ---- Specification: sets of counters ---------------------------------------

  /** What is remembered of one boot epoch. An emptied one has only its highest counter. */
  datatype Window = Emptied | Recent(accepted: set<u32>)

  datatype Answer = Answer(freshness: Freshness, max: u32, window: Window)

  function Forget(accepted: set<u32>, max: u32): set<u32> {
    set c | c in accepted && max - c < REPLAY_WINDOW
  }

  /** The counters of `w` still in reach once `max` is the highest. */
  function Carried(w: Window, max: u32): set<u32> {
    match w
    case Emptied => {}
    case Recent(accepted) => Forget(accepted, max)
  }

  function Judge(max: u32, w: Window, counter: u32): Answer {
    if counter > max then
      Answer(Fresh, counter, Recent(Carried(w, counter) + {counter}))
    else if w.Emptied? || max - counter >= REPLAY_WINDOW then
      Answer(Stale, max, w)
    else if counter in w.accepted then
      Answer(Replayed, max, w)
    else
      Answer(Fresh, max, Recent(w.accepted + {counter}))
  }

  // ---- Packed bits -----------------------------------------------------------

  type Bits = seq<bv8>

  /** `1 << j` */
  function Mask(j: nat): bv8
    requires j < 8
  {
    match j
    case 0 => 0x01
    case 1 => 0x02
    case 2 => 0x04
    case 3 => 0x08
    case 4 => 0x10
    case 5 => 0x20
    case 6 => 0x40
    case 7 => 0x80
  }

  predicate GetBit(bits: Bits, i: nat)
    requires i < 8 * |bits|
  {
    bits[i / 8] & Mask(i % 8) != 0
  }

  function SetBit(bits: Bits, i: nat): (r: Bits)
    requires i < 8 * |bits|
    ensures |r| == |bits|
  {
    bits[i / 8 := bits[i / 8] | Mask(i % 8)]
  }

  lemma OrKeepsSame(b: bv8, m: bv8)
    requires m != 0
    ensures (b | m) & m != 0
  {}

  lemma OrKeepsOther(b: bv8, m: bv8, k: bv8)
    requires m & k == 0
    ensures (b | m) & k == b & k
  {}

  lemma MasksDisjoint(i: nat, j: nat)
    requires i < 8 && j < 8 && i != j
    ensures Mask(i) & Mask(j) == 0
  {}

  lemma MaskNonzero(i: nat)
    requires i < 8
    ensures Mask(i) != 0
  {}

  lemma SetThenGet(bits: Bits, i: nat, j: nat)
    requires i < 8 * |bits| && j < 8 * |bits|
    ensures GetBit(SetBit(bits, i), j) <==> i == j || GetBit(bits, j)
  {
    hide Mask;
    var b := bits[i / 8];
    MaskNonzero(i % 8);
    OrKeepsSame(b, Mask(i % 8));
    if i / 8 == j / 8 && i != j {
      MasksDisjoint(i % 8, j % 8);
      OrKeepsOther(b, Mask(i % 8), Mask(j % 8));
    }
  }

  // ---- The bits refine the set -----------------------------------------------

  predicate Windowed(seen: Bits) { |seen| == WINDOW_BYTES }

  predicate IsMarked(max: u32, seen: Bits, c: u32)
    requires Windowed(seen)
  {
    c <= max && max - c < REPLAY_WINDOW && GetBit(seen, max - c)
  }

  ghost function Marked(max: u32, seen: Bits): set<u32>
    requires Windowed(seen)
  {
    set c: int | 0 <= c <= max && IsMarked(max, seen, c)
  }

  ghost function Abstract(max: u32, seen: Bits): Window {
    if Windowed(seen) then Recent(Marked(max, seen)) else Emptied
  }

  function Blank(): (b: Bits)
    ensures Windowed(b)
  {
    seq(WINDOW_BYTES, _ => 0)
  }

  lemma BlankHasNoBits(i: nat)
    requires i < REPLAY_WINDOW
    ensures !GetBit(Blank(), i)
  {
    ZeroAnd(Mask(i % 8));
  }

  lemma ZeroAnd(m: bv8)
    ensures 0 & m == 0
  {}

  /** `window_accept`: the answer, and the row to store if it changed. */
  method WindowAccept(max: u32, seen: Bits, counter: u32) returns (f: Freshness, update: Option<(u32, Bits)>)
    ensures var spec := Judge(max, Abstract(max, seen), counter);
            && f == spec.freshness
            && (update.Some? <==> f == Fresh)
            && (match update
                case Some((newMax, newSeen)) =>
                  Windowed(newSeen) && newMax == spec.max && Abstract(newMax, newSeen) == spec.window
                case None => (max, Abstract(max, seen)) == (spec.max, spec.window))
  {
    hide GetBit, SetBit;
    if counter > max {
      var shift := counter - max;
      var next := Blank();
      forall j | 0 <= j < REPLAY_WINDOW
        ensures !GetBit(next, j)
      {
        BlankHasNoBits(j);
      }
      if Windowed(seen) && shift < REPLAY_WINDOW {
        for i := 0 to REPLAY_WINDOW - shift
          invariant Windowed(next)
          invariant forall j :: 0 <= j < REPLAY_WINDOW ==>
                      (GetBit(next, j) <==> shift <= j < shift + i && GetBit(seen, j - shift))
        {
          if GetBit(seen, i) {
            ghost var before := next;
            next := SetBit(next, i + shift);
            BitsAfterSet(before, i + shift);
          }
        }
      }
      ghost var before := next;
      next := SetBit(next, 0);
      BitsAfterSet(before, 0);
      Advanced(max, seen, counter, next);
      return Fresh, Some((counter, next));
    }
    var age := max - counter;
    if !Windowed(seen) || age >= REPLAY_WINDOW {
      return Stale, None;
    }
    if GetBit(seen, age) {
      return Replayed, None;
    }
    BitsAfterSet(seen, age);
    assert Marked(max, SetBit(seen, age)) == Marked(max, seen) + {counter};
    return Fresh, Some((max, SetBit(seen, age)));
  }

  lemma BitsAfterSet(bits: Bits, i: nat)
    requires i < 8 * |bits|
    ensures forall j :: 0 <= j < 8 * |bits| ==> (GetBit(SetBit(bits, i), j) <==> i == j || GetBit(bits, j))
  {
    hide GetBit, SetBit;
    forall j | 0 <= j < 8 * |bits|
      ensures GetBit(SetBit(bits, i), j) <==> i == j || GetBit(bits, j)
    {
      SetThenGet(bits, i, j);
    }
  }

  lemma Advanced(max: u32, seen: Bits, counter: u32, next: Bits)
    requires counter > max && Windowed(next)
    requires forall j :: 0 <= j < REPLAY_WINDOW ==>
               (GetBit(next, j) <==> j == 0 || (Windowed(seen) && counter - max <= j && GetBit(seen, j - (counter - max))))
    ensures Abstract(counter, next) == Recent(Carried(Abstract(max, seen), counter) + {counter})
  {
    hide GetBit;
    var carried := Carried(Abstract(max, seen), counter);
    forall c: u32
      ensures c in Marked(counter, next) <==> c in carried + {counter}
    {
      if c <= counter && counter - c < REPLAY_WINDOW {
        assert GetBit(next, counter - c) <==>
               c == counter || (Windowed(seen) && c <= max && GetBit(seen, max - c));
      }
    }
  }
}
