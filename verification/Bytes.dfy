/** Octets and the little-endian integers built from them. */
module Bytes {
  type byte = b: int | 0 <= b < 0x100
  type u16 = n: int | 0 <= n < 0x1_0000
  type u32 = n: int | 0 <= n < 0x1_0000_0000
  type u64 = n: int | 0 <= n < 0x1_0000_0000_0000_0000

  datatype Option<+T> = None | Some(value: T)

  lemma Assoc<T>(a: seq<T>, b: seq<T>, c: seq<T>)
    ensures a + b + c == a + (b + c)
  {
  }

  function Pow256(n: nat): (p: nat)
    ensures p > 0
  {
    if n == 0 then 1 else 256 * Pow256(n - 1)
  }

  /** The value of `s` read little-endian. */
  function LeValue(s: seq<byte>): (v: nat)
    ensures v < Pow256(|s|)
  {
    if s == [] then 0 else s[0] + 256 * LeValue(s[1..])
  }

  /** `v` modulo 256^n as n little-endian bytes. */
  function LeBytes(v: nat, n: nat): (s: seq<byte>)
    ensures |s| == n
  {
    if n == 0 then [] else [v % 256] + LeBytes(v / 256, n - 1)
  }

  lemma {:induction false} LeBytesValue(v: nat, n: nat)
    requires v < Pow256(n)
    ensures LeValue(LeBytes(v, n)) == v
  {
    if n > 0 {
      LeBytesValue(v / 256, n - 1);
      assert LeBytes(v, n)[1..] == LeBytes(v / 256, n - 1);
    }
  }

  lemma {:induction false} LeValueBytes(s: seq<byte>)
    ensures LeBytes(LeValue(s), |s|) == s
  {
    if s != [] {
      LeValueBytes(s[1..]);
      LowDigit(s[0], LeValue(s[1..]));
    }
  }

  lemma LowDigit(b: byte, v: nat)
    ensures (b + 256 * v) % 256 == b && (b + 256 * v) / 256 == v
  {
    var q, r := (b + 256 * v) / 256, (b + 256 * v) % 256;
    assert 256 * (q - v) == b - r;
  }

  lemma Pow256Values()
    ensures Pow256(2) == 0x1_0000
    ensures Pow256(4) == 0x1_0000_0000
    ensures Pow256(8) == 0x1_0000_0000_0000_0000
  {
    assert Pow256(1) == 256;
    assert Pow256(2) == 256 * 256;
    assert Pow256(3) == 256 * Pow256(2);
    assert Pow256(4) == 256 * Pow256(3);
    assert Pow256(5) == 256 * Pow256(4);
    assert Pow256(6) == 256 * Pow256(5);
    assert Pow256(7) == 256 * Pow256(6);
  }

  /** `u16::from_le_bytes([lo, hi])`. */
  function U16(lo: byte, hi: byte): u16 { lo + 256 * hi }

  /** `v.to_le_bytes()` of a u16. */
  function U16Bytes(v: u16): (s: seq<byte>)
    ensures |s| == 2 && U16(s[0], s[1]) == v
  {
    [v % 256, v / 256]
  }

  /** The header flag bits this model looks at: encrypted 0x04, compressed 0x08. */
  datatype Flag = Encrypted | Compressed

  function Weight(f: Flag): byte {
    if f == Encrypted then 4 else 8
  }

  predicate HasFlag(flags: byte, f: Flag) {
    if f == Encrypted then flags / 4 % 2 == 1 else flags / 8 % 2 == 1
  }

  /** `flags | f` */
  function SetFlag(flags: byte, f: Flag): byte {
    if HasFlag(flags, f) then flags else flags + Weight(f)
  }

  /** `flags & !f` */
  function ClearFlag(flags: byte, f: Flag): byte {
    if HasFlag(flags, f) then flags - Weight(f) else flags
  }

  lemma ClearAfterSet(flags: byte, f: Flag)
    ensures HasFlag(SetFlag(flags, f), f) && !HasFlag(ClearFlag(flags, f), f)
    ensures ClearFlag(SetFlag(flags, f), f) == ClearFlag(flags, f)
  {
    if f == Encrypted {
      Fours(flags);
      Fours(flags - 4);
    } else {
      Eights(flags);
      Eights(flags - 8);
    }
  }

  lemma Fours(x: int)
    ensures (x + 4) / 4 == x / 4 + 1 && (x + 4) / 4 % 2 != x / 4 % 2
  {}

  lemma Eights(x: int)
    ensures (x + 8) / 8 == x / 8 + 1 && (x + 8) / 8 % 2 != x / 8 % 2
  {}
}
