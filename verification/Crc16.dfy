/**
 CRC-16/CCITT-FALSE as the gateway, the server and the SDK compute it. The
 16-bit register is its bits, most significant first, so `crc & 0x8000` is
 `crc[0]` and `crc << 1` drops the first bit and appends a clear one.
 */
module Crc16 {
  import opened Bytes

  type Bits = seq<bool>

  function Xor(a: Bits, b: Bits): (r: Bits)
    requires |a| == |b|
    ensures |r| == |a| && forall i :: 0 <= i < |a| ==> r[i] == (a[i] != b[i])
  {
    seq(|a|, i requires 0 <= i < |a| => a[i] != b[i])
  }

  /** The low k bits of n. */
  function ToBits(n: nat, k: nat): (r: Bits)
    ensures |r| == k
  {
    if k == 0 then [] else ToBits(n / 2, k - 1) + [n % 2 == 1]
  }

  function FromBits(s: Bits): nat {
    if s == [] then 0 else 2 * FromBits(s[..|s| - 1]) + (if s[|s| - 1] then 1 else 0)
  }

  lemma {:induction false} FromToBits(n: nat, k: nat)
    requires n < Pow2(k)
    ensures FromBits(ToBits(n, k)) == n
  {
    if k > 0 {
      FromToBits(n / 2, k - 1);
      assert ToBits(n, k)[..k - 1] == ToBits(n / 2, k - 1);
    }
  }

  lemma {:induction false} ToFromBits(s: Bits)
    ensures FromBits(s) < Pow2(|s|)
    ensures ToBits(FromBits(s), |s|) == s
  {
    if s != [] {
      ToFromBits(s[..|s| - 1]);
    }
  }

  function Pow2(n: nat): (p: nat)
    ensures p > 0
  {
    if n == 0 then 1 else 2 * Pow2(n - 1)
  }

  lemma Pow2Values()
    ensures Pow2(8) == 0x100 && Pow2(16) == 0x1_0000
  {
    assert Pow2(4) == 16;
    assert Pow2(12) == 4096;
  }

  // ---- The register ----------------------------------------------------------

  type Register = r: Bits | |r| == 16 witness Zeros(16)

  function Zeros(n: nat): (r: Bits)
    ensures |r| == n && forall i :: 0 <= i < n ==> !r[i]
  {
    seq(n, _ => false)
  }

  /** 0xFFFF */
  const INIT: Register :=
    [true, true, true, true, true, true, true, true, true, true, true, true, true, true, true, true]

  /** 0x1021: bits 12, 5 and 0. */
  const POLY: Register :=
    [false, false, false, true, false, false, false, false, false, false, true, false, false, false, false, true]

  /** One pass of the inner loop: shift out the top bit, fold in the polynomial. */
  function ShiftBit(crc: Register): Register {
    if crc[0] then Xor(crc[1..] + [false], POLY) else crc[1..] + [false]
  }

  function Shift(crc: Register, n: nat): Register
    decreases n, |crc|
  {
    if n == 0 then crc else Shift(ShiftBit(crc), n - 1)
  }

  /** `(b as u16) << 8` */
  function High(b: byte): Register { ToBits(b, 8) + Zeros(8) }

  function Absorb(crc: Register, b: byte): Register {
    Shift(Xor(crc, High(b)), 8)
  }

  function Update(crc: Register, data: seq<byte>): Register
    decreases |data|
  {
    if data == [] then crc else Update(Absorb(crc, data[0]), data[1..])
  }

  function Checksum(data: seq<byte>): u16 {
    ToFromBits(Update(INIT, data));
    Pow2Values();
    FromBits(Update(INIT, data))
  }

  method Crc16Ccitt(data: seq<byte>) returns (sum: u16)
    ensures sum == Checksum(data)
  {
    hide Absorb;
    var crc: Register := INIT;
    for i := 0 to |data|
      invariant Update(crc, data[i..]) == Update(INIT, data)
    {
      assert data[i..][1..] == data[i + 1..];
      crc := AbsorbByte(crc, data[i]);
    }
    assert data[|data|..] == [];
    ToFromBits(crc);
    Pow2Values();
    sum := FromBits(crc);
  }

  /** The inner loop: one byte into the register. */
  method AbsorbByte(before: Register, b: byte) returns (crc: Register)
    ensures crc == Absorb(before, b)
  {
    crc := Xor(before, High(b));
    for k := 0 to 8
      invariant Shift(crc, 8 - k) == Absorb(before, b)
    {
      if crc[0] {
        crc := Xor(crc[1..] + [false], POLY);
      } else {
        crc := crc[1..] + [false];
      }
    }
  }

  // ---- The shift step is linear and invertible -------------------------------

  lemma ShiftBitLinear(a: Register, b: Register)
    ensures ShiftBit(Xor(a, b)) == Xor(ShiftBit(a), ShiftBit(b))
  {}

  lemma ShiftBitInjective(a: Register, b: Register)
    requires ShiftBit(a) == ShiftBit(b)
    ensures a == b
  {
    assert ShiftBit(a)[15] == a[0] && ShiftBit(b)[15] == b[0];
    forall i | 1 <= i < 16
      ensures a[i] == b[i]
    {
      assert ShiftBit(a)[i - 1] == ShiftBit(b)[i - 1];
    }
  }

  lemma {:induction false} ShiftLinear(a: Register, b: Register, n: nat)
    ensures Shift(Xor(a, b), n) == Xor(Shift(a, n), Shift(b, n))
    decreases n
  {
    if n > 0 {
      ShiftBitLinear(a, b);
      ShiftLinear(ShiftBit(a), ShiftBit(b), n - 1);
    }
  }

  lemma {:induction false} ShiftInjective(a: Register, b: Register, n: nat)
    requires Shift(a, n) == Shift(b, n)
    ensures a == b
    decreases n
  {
    if n > 0 {
      ShiftInjective(ShiftBit(a), ShiftBit(b), n - 1);
      ShiftBitInjective(a, b);
    }
  }

  // ---- One bit at a time -----------------------------------------------------

  /** The bits of a message in the order they meet the register. */
  function MessageBits(data: seq<byte>): (r: Bits)
    ensures |r| == 8 * |data|
  {
    if data == [] then [] else ToBits(data[0], 8) + MessageBits(data[1..])
  }

  function UpdateBits(crc: Register, bits: Bits): Register
    decreases |bits|
  {
    if bits == [] then crc
    else UpdateBits(ShiftBit(Xor(crc, [bits[0]] + Zeros(15))), bits[1..])
  }

  /** Up to 16 bits enter the register as if xored in at once. */
  lemma {:induction false} UpdateBitsAtOnce(crc: Register, w: Bits)
    requires |w| <= 16
    ensures UpdateBits(crc, w) == Shift(Xor(crc, w + Zeros(16 - |w|)), |w|)
    decreases |w|
  {
    if w == [] {
      assert Xor(crc, w + Zeros(16)) == crc;
    } else {
      assert Shift(Xor(crc, w + Zeros(16 - |w|)), |w|) == Shift(ShiftBit(Xor(crc, w + Zeros(16 - |w|))), |w| - 1);
      hide ShiftBit, Xor, Shift;
      UpdateBitsAtOnce(ShiftBit(Xor(crc, [w[0]] + Zeros(15))), w[1..]);
      FirstBit(crc, w);
    }
  }

  lemma FirstBit(crc: Register, w: Bits)
    requires 0 < |w| <= 16
    ensures Xor(ShiftBit(Xor(crc, [w[0]] + Zeros(15))), w[1..] + Zeros(17 - |w|))
            == ShiftBit(Xor(crc, w + Zeros(16 - |w|)))
  {
    var first, others := [w[0]] + Zeros(15), [false] + w[1..] + Zeros(16 - |w|);
    assert Xor(Xor(crc, first), others) == Xor(crc, w + Zeros(16 - |w|));
    ShiftBitLinear(Xor(crc, first), others);
    assert ShiftBit(others) == w[1..] + Zeros(17 - |w|);
  }

  lemma {:induction false} UpdateBitsConcat(crc: Register, v: Bits, w: Bits)
    ensures UpdateBits(crc, v + w) == UpdateBits(UpdateBits(crc, v), w)
    decreases |v|
  {
    if v == [] {
      assert v + w == w;
    } else {
      assert (v + w)[1..] == v[1..] + w;
      UpdateBitsConcat(ShiftBit(Xor(crc, [v[0]] + Zeros(15))), v[1..], w);
    }
  }

  lemma {:induction false} UpdateIsBitwise(crc: Register, data: seq<byte>)
    ensures Update(crc, data) == UpdateBits(crc, MessageBits(data))
    decreases |data|
  {
    if data != [] {
      UpdateBitsConcat(crc, ToBits(data[0], 8), MessageBits(data[1..]));
      UpdateBitsAtOnce(crc, ToBits(data[0], 8));
      UpdateIsBitwise(Absorb(crc, data[0]), data[1..]);
    }
  }

  lemma {:induction false} UpdateBitsInjective(a: Register, b: Register, w: Bits)
    requires UpdateBits(a, w) == UpdateBits(b, w)
    ensures a == b
    decreases |w|
  {
    if w != [] {
      var u := [w[0]] + Zeros(15);
      UpdateBitsInjective(ShiftBit(Xor(a, u)), ShiftBit(Xor(b, u)), w[1..]);
      ShiftBitInjective(Xor(a, u), Xor(b, u));
      XorCancel(a, b, u);
    }
  }

  lemma XorCancel(a: Bits, b: Bits, c: Bits)
    requires |a| == |b| == |c|
    requires Xor(a, c) == Xor(b, c) || Xor(c, a) == Xor(c, b)
    ensures a == b
  {
    forall i | 0 <= i < |a|
      ensures a[i] == b[i]
    {
      assert Xor(a, c)[i] == (a[i] != c[i]) && Xor(b, c)[i] == (b[i] != c[i]);
      assert Xor(c, a)[i] == (c[i] != a[i]) && Xor(c, b)[i] == (c[i] != b[i]);
    }
  }

  // ---- What the checksum detects ---------------------------------------------

  lemma WindowDetected(c: Register, v: Bits, w: Bits)
    requires |v| == |w| <= 16 && v != w
    ensures UpdateBits(c, v) != UpdateBits(c, w)
  {
    UpdateBitsAtOnce(c, v);
    UpdateBitsAtOnce(c, w);
    var vv, ww := v + Zeros(16 - |v|), w + Zeros(16 - |w|);
    assert v == vv[..|v|] && w == ww[..|w|];
    if UpdateBits(c, v) == UpdateBits(c, w) {
      ShiftInjective(Xor(c, vv), Xor(c, ww), |v|);
      XorCancel(vv, ww, c);
    }
  }

  /** x and y differ, and only inside n consecutive bits. */
  ghost predicate DifferInBurst(x: seq<byte>, y: seq<byte>, start: nat, n: nat) {
    |x| == |y| && x != y &&
    forall k :: 0 <= k < 8 * |x| && !(start <= k < start + n) ==> MessageBits(x)[k] == MessageBits(y)[k]
  }

  /** Every error burst of at most 16 bits changes the checksum. */
  lemma BurstDetected(x: seq<byte>, y: seq<byte>, start: nat, n: nat)
    requires DifferInBurst(x, y, start, n) && n <= 16
    ensures Checksum(x) != Checksum(y)
  {
    var mx, my := MessageBits(x), MessageBits(y);
    MessageBitsInjective(x, y);
    assert start < |mx|;
    var end := if start + n <= |mx| then start + n else |mx|;
    assert mx == mx[..start] + mx[start..end] + mx[end..];
    assert my == mx[..start] + my[start..end] + mx[end..];
    var c := UpdateBits(INIT, mx[..start]);
    UpdateBitsConcat(INIT, mx[..start] + mx[start..end], mx[end..]);
    UpdateBitsConcat(INIT, mx[..start] + my[start..end], mx[end..]);
    UpdateBitsConcat(INIT, mx[..start], mx[start..end]);
    UpdateBitsConcat(INIT, mx[..start], my[start..end]);
    WindowDetected(c, mx[start..end], my[start..end]);
    if UpdateBits(INIT, mx) == UpdateBits(INIT, my) {
      UpdateBitsInjective(UpdateBits(c, mx[start..end]), UpdateBits(c, my[start..end]), mx[end..]);
    }
    UpdateIsBitwise(INIT, x);
    UpdateIsBitwise(INIT, y);
    ToFromBits(Update(INIT, x));
    ToFromBits(Update(INIT, y));
  }

  lemma {:induction false} MessageBitsInjective(x: seq<byte>, y: seq<byte>)
    requires |x| == |y| && x != y
    ensures MessageBits(x) != MessageBits(y)
    decreases |x|
  {
    var mx, my := MessageBits(x), MessageBits(y);
    if mx == my {
      assert ToBits(x[0], 8) == mx[..8] == my[..8] == ToBits(y[0], 8);
      Pow2Values();
      FromToBits(x[0], 8);
      FromToBits(y[0], 8);
      assert MessageBits(x[1..]) == mx[8..] == my[8..] == MessageBits(y[1..]);
      assert x == [x[0]] + x[1..] && y == [y[0]] + y[1..];
      MessageBitsInjective(x[1..], y[1..]);
    }
  }

  lemma {:induction false} MessageBitsConcat(x: seq<byte>, y: seq<byte>)
    ensures MessageBits(x + y) == MessageBits(x) + MessageBits(y)
    decreases |x|
  {
    if x == [] {
      assert x + y == y;
    } else {
      assert (x + y)[1..] == x[1..] + y;
      MessageBitsConcat(x[1..], y);
    }
  }

  /** In particular, any damage confined to two adjacent bytes. */
  lemma AdjacentBytesDetected(before: seq<byte>, a: seq<byte>, b: seq<byte>, after: seq<byte>)
    requires |a| == |b| <= 2 && a != b
    ensures Checksum(before + a + after) != Checksum(before + b + after)
  {
    hide Checksum, MessageBits;
    var x, y := before + a + after, before + b + after;
    MessageBitsConcat(before + a, after);
    MessageBitsConcat(before + b, after);
    MessageBitsConcat(before, a);
    MessageBitsConcat(before, b);
    assert x[|before|..|before| + |a|] == a && y[|before|..|before| + |a|] == b;
    BurstDetected(x, y, 8 * |before|, 8 * |a|);
  }
}
