/** Fixed-width unsigned integers and their little-endian encoding. */
module Bytes {

  type u8 = x: int | 0 <= x < 0x100
  type u16 = x: int | 0 <= x < 0x1_0000
  type u32 = x: int | 0 <= x < 0x1_0000_0000

  datatype Option<+T> = None | Some(value: T)

  function Le16(n: u16): (b: seq<u8>)
    ensures |b| == 2 && FromLe16(b) == n
  {
    [n % 0x100, n / 0x100]
  }

  function FromLe16(b: seq<u8>): u16
    requires |b| == 2
  {
    b[0] as int + 0x100 * b[1] as int
  }

  function Le32(n: u32): (b: seq<u8>)
    ensures |b| == 4 && FromLe32(b) == n
  {
    var low: u16, high: u16 := n % 0x1_0000, n / 0x1_0000;
    assert (Le16(low) + Le16(high))[..2] == Le16(low) && (Le16(low) + Le16(high))[2..] == Le16(high);
    Le16(low) + Le16(high)
  }

  function FromLe32(b: seq<u8>): u32
    requires |b| == 4
  {
    FromLe16(b[..2]) as int + 0x1_0000 * FromLe16(b[2..]) as int
  }

  function Pow256(k: nat): (p: nat)
    ensures p >= 1
  {
    if k == 0 then 1 else 0x100 * Pow256(k - 1)
  }

  /** Byte `k` of an encoding is the digit of weight 256^k: least significant first. */
  lemma {:induction false} LeDigits(n: u32, k: nat)
    ensures k < 4 ==> Le32(n)[k] == n / Pow256(k) % 0x100
    ensures n < 0x1_0000 && k < 2 ==> Le16(n)[k] == n / Pow256(k) % 0x100
  {
    assert Pow256(1) == 0x100 && Pow256(2) == 0x1_0000 && Pow256(3) == 0x100_0000;
    FourDigits(n);
    if n < 0x1_0000 { assert n / 0x100 % 0x100 == n / 0x100; }
  }

  lemma {:induction false} FourDigits(n: u32)
    ensures var low: u16, high: u16 := n % 0x1_0000, n / 0x1_0000;
            && Le32(n) == [low % 0x100, low / 0x100, high % 0x100, high / 0x100]
            && low % 0x100 == n % 0x100 && low / 0x100 == n / 0x100 % 0x100
            && high / 0x100 == n / 0x100_0000 % 0x100
  {
    var low, high := n % 0x1_0000, n / 0x1_0000;
    var q := n / 0x100;
    assert n == 0x1_0000 * high + low && low == 0x100 * (low / 0x100) + low % 0x100;
    assert q == 0x100 * high + low / 0x100;
  }

  function Zeros(n: nat): (z: seq<u8>)
    ensures |z| == n && forall i :: 0 <= i < n ==> z[i] == 0
  {
    seq(n, _ => 0)
  }

  function Min(a: nat, b: nat): nat {
    if a <= b then a else b
  }
}
