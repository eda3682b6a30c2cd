/** The SMBus packet error code of the I2C monitor: CRC-8 with polynomial x^8 + x^2 + x + 1. */
module Pec {

  /** A byte as its eight bits, most significant first. */
  datatype byte = Byte(b7: bool, b6: bool, b5: bool, b4: bool, b3: bool, b2: bool, b1: bool, b0: bool)

  const ZERO := Byte(false, false, false, false, false, false, false, false)
  const ONE := Byte(false, false, false, false, false, false, false, true)
  const POLYNOMIAL := Byte(false, false, false, false, false, true, true, true)

  function Xor(a: byte, b: byte): byte {
    Byte(a.b7 != b.b7, a.b6 != b.b6, a.b5 != b.b5, a.b4 != b.b4, a.b3 != b.b3, a.b2 != b.b2, a.b1 != b.b1, a.b0 != b.b0)
  }

  /** Shift left by one, dropping the top bit. */
  function ShiftLeft(a: byte): byte {
    Byte(a.b6, a.b5, a.b4, a.b3, a.b2, a.b1, a.b0, false)
  }

  /** One step of the register: multiply by x and reduce by the polynomial. */
  function ShiftBit(a: byte): byte {
    Byte(a.b6, a.b5, a.b4, a.b3, a.b2, a.b1 != a.b7, a.b0 != a.b7, a.b7)
  }

  function Shift(a: byte, k: nat): byte {
    if k == 0 then a else ShiftBit(Shift(a, k - 1))
  }

  /** Take one message byte into the register. */
  function Absorb(crc: byte, x: byte): byte {
    Shift(Xor(crc, x), 8)
  }

  function Pec(data: seq<byte>): byte {
    if data == [] then ZERO else Absorb(Pec(data[..|data| - 1]), data[|data| - 1])
  }

  method CalculatePec(data: seq<byte>) returns (crc: byte)
    ensures crc == Pec(data)
  {
    crc := ZERO;
    for i := 0 to |data|
      invariant crc == Pec(data[..i])
    {
      assert data[..i + 1][..i] == data[..i];
      crc := Xor(crc, data[i]);
      ghost var start := crc;
      for k := 0 to 8
        invariant crc == Shift(start, k)
      {
        if crc.b7 {
          crc := Xor(ShiftLeft(crc), POLYNOMIAL);
        } else {
          crc := ShiftLeft(crc);
        }
      }
    }
    assert data[..|data|] == data;
  }

  // ---- algebra of the register ----

  lemma {:induction false} XorMedial(a: byte, b: byte, c: byte, d: byte)
    ensures Xor(Xor(a, b), Xor(c, d)) == Xor(Xor(a, c), Xor(b, d))
  {}

  lemma {:induction false} XorAssociates(a: byte, b: byte, c: byte)
    ensures Xor(Xor(a, b), c) == Xor(a, Xor(b, c))
  {}

  lemma {:induction false} XorUnits(a: byte)
    ensures Xor(a, ZERO) == a && Xor(ZERO, a) == a && Xor(a, a) == ZERO
  {}

  lemma {:induction false} XorCancels(a: byte, b: byte, c: byte)
    ensures Xor(a, b) == Xor(a, c) ==> b == c
    ensures Xor(b, a) == Xor(c, a) ==> b == c
  {}

  lemma {:induction false} ShiftBitLinear(a: byte, b: byte)
    ensures ShiftBit(Xor(a, b)) == Xor(ShiftBit(a), ShiftBit(b))
  {}

  lemma {:induction false} ShiftBitInjective(a: byte, b: byte)
    ensures ShiftBit(a) == ShiftBit(b) ==> a == b
  {}

  lemma {:induction false} ShiftBitKeepsParity(a: byte)
    ensures Odd(ShiftBit(a)) == Odd(a)
  {}

  lemma {:induction false} OddXor(a: byte, b: byte)
    ensures Odd(Xor(a, b)) == (Odd(a) != Odd(b))
  {}

  lemma {:induction false} ShiftLaws(a: byte, b: byte, k: nat)
    ensures Shift(Xor(a, b), k) == Xor(Shift(a, k), Shift(b, k))
    ensures Shift(a, k) == Shift(b, k) ==> a == b
    ensures Odd(Shift(a, k)) == Odd(a)
    ensures Shift(ZERO, k) == ZERO
  {
    if k > 0 {
      ShiftLaws(a, b, k - 1);
      ShiftBitLinear(Shift(a, k - 1), Shift(b, k - 1));
      ShiftBitInjective(Shift(a, k - 1), Shift(b, k - 1));
      ShiftBitKeepsParity(Shift(a, k - 1));
    }
  }

  // ---- the code over whole messages ----

  function XorAll(a: seq<byte>, b: seq<byte>): (c: seq<byte>)
    requires |a| == |b|
    ensures |c| == |a|
  {
    seq(|a|, i requires 0 <= i < |a| => Xor(a[i], b[i]))
  }

  /** The code is linear: errors add up whatever the message. */
  lemma {:induction false} PecLinear(a: seq<byte>, b: seq<byte>)
    requires |a| == |b|
    ensures Pec(XorAll(a, b)) == Xor(Pec(a), Pec(b))
  {
    if a == [] {
      XorUnits(ZERO);
    } else {
      var n := |a| - 1;
      PecLinear(a[..n], b[..n]);
      assert XorAll(a, b)[..n] == XorAll(a[..n], b[..n]);
      XorMedial(Pec(a[..n]), Pec(b[..n]), a[n], b[n]);
      ShiftLaws(Xor(Pec(a[..n]), a[n]), Xor(Pec(b[..n]), b[n]), 8);
    }
  }

  /** A message followed by its own code leaves residue zero, and no other trailer does. */
  lemma {:induction false} ResidueIsZero(data: seq<byte>, trailer: byte)
    ensures Pec(data + [trailer]) == ZERO <==> trailer == Pec(data)
  {
    var m := data + [trailer];
    assert m[..|m| - 1] == data;
    ShiftLaws(Xor(Pec(data), trailer), ZERO, 8);
    XorCancels(Pec(data), trailer, Pec(data));
    XorUnits(Pec(data));
  }

  /** Carry on from a register value. */
  function PecFrom(crc: byte, data: seq<byte>): byte {
    if data == [] then crc else Absorb(PecFrom(crc, data[..|data| - 1]), data[|data| - 1])
  }

  lemma {:induction false} PecOfConcat(m: seq<byte>, t: seq<byte>)
    ensures Pec(m + t) == PecFrom(Pec(m), t)
  {
    if t == [] {
      assert m + t == m;
    } else {
      PecOfConcat(m, t[..|t| - 1]);
      assert (m + t)[..|m + t| - 1] == m + t[..|t| - 1];
    }
  }

  /** Absorbing a byte never merges two different registers, nor two different bytes. */
  lemma {:induction false} DistinctStayDistinct(p: byte, x: byte, q: byte, y: byte)
    requires (p == q && x != y) || (p != q && x == y)
    ensures Absorb(p, x) != Absorb(q, y)
  {
    ShiftLaws(Xor(p, x), Xor(q, y), 8);
    XorCancels(p, x, y);
    XorCancels(x, p, q);
  }

  lemma {:induction false} RegistersStayDistinct(p: byte, q: byte, data: seq<byte>)
    requires p != q
    ensures PecFrom(p, data) != PecFrom(q, data)
  {
    if data != [] {
      var n := |data| - 1;
      RegistersStayDistinct(p, q, data[..n]);
      DistinctStayDistinct(PecFrom(p, data[..n]), data[n], PecFrom(q, data[..n]), data[n]);
    }
  }

  /** Two messages that differ in exactly one byte never share a code. */
  lemma {:induction false} OneByteErrorDetected(head: seq<byte>, x: byte, y: byte, tail: seq<byte>)
    requires x != y
    ensures Pec(head + [x] + tail) != Pec(head + [y] + tail)
  {
    PecOfConcat(head + [x], tail);
    PecOfConcat(head + [y], tail);
    assert (head + [x])[..|head|] == head && (head + [y])[..|head|] == head;
    DistinctStayDistinct(Pec(head), x, Pec(head), y);
    RegistersStayDistinct(Pec(head + [x]), Pec(head + [y]), tail);
  }

  // ---- parity: the polynomial is divisible by x + 1 ----

  function Odd(b: byte): bool {
    b.b7 != (b.b6 != (b.b5 != (b.b4 != (b.b3 != (b.b2 != (b.b1 != b.b0))))))
  }

  /** Whether a message has an odd number of one bits. */
  function OddMessage(data: seq<byte>): bool {
    data != [] && (OddMessage(data[..|data| - 1]) != Odd(data[|data| - 1]))
  }

  /** The code carries the parity of the message, so flipping any odd number of bits, anywhere,
      changes it. */
  lemma {:induction false} PecHasMessageParity(data: seq<byte>)
    ensures Odd(Pec(data)) == OddMessage(data)
  {
    if data != [] {
      var n := |data| - 1;
      PecHasMessageParity(data[..n]);
      ShiftLaws(Xor(Pec(data[..n]), data[n]), ZERO, 8);
      OddXor(Pec(data[..n]), data[n]);
    }
  }

  // ---- the reference: remainder of polynomial division ----

  /** Horner evaluation of a bit string as a polynomial over GF(2), modulo the generator. */
  function Remainder(bits: seq<bool>): byte {
    if bits == [] then ZERO else Feed(Remainder(bits[..|bits| - 1]), bits[|bits| - 1])
  }

  function Feed(r: byte, bit: bool): byte {
    Xor(ShiftBit(r), if bit then ONE else ZERO)
  }

  function Bits(b: byte): (s: seq<bool>)
    ensures |s| == 8
  {
    [b.b7, b.b6, b.b5, b.b4, b.b3, b.b2, b.b1, b.b0]
  }

  function MessageBits(data: seq<byte>): seq<bool> {
    if data == [] then [] else MessageBits(data[..|data| - 1]) + Bits(data[|data| - 1])
  }

  lemma {:induction false} RemainderOfConcat(s: seq<bool>, t: seq<bool>)
    ensures Remainder(s + t) == Xor(Shift(Remainder(s), |t|), Remainder(t))
  {
    if t == [] {
      assert s + t == s;
      XorUnits(Remainder(s));
    } else {
      var n := |t| - 1;
      RemainderOfConcat(s, t[..n]);
      assert (s + t)[..|s + t| - 1] == s + t[..n];
      FeedLinear(Shift(Remainder(s), n), Remainder(t[..n]), t[n]);
    }
  }

  lemma {:induction false} FeedLinear(a: byte, b: byte, bit: bool)
    ensures Feed(Xor(a, b), bit) == Xor(ShiftBit(a), Feed(b, bit))
  {
    ShiftBitLinear(a, b);
    XorAssociates(ShiftBit(a), ShiftBit(b), if bit then ONE else ZERO);
  }

  function Append(r: byte, bit: bool): byte {
    Byte(r.b6, r.b5, r.b4, r.b3, r.b2, r.b1, r.b0, bit)
  }

  lemma {:induction false} Grow(s: seq<bool>, k: nat, r: byte)
    requires k < |s| && Remainder(s[..k]) == r && !r.b7
    ensures Remainder(s[..k + 1]) == Append(r, s[k])
  {
    assert s[..k + 1][..k] == s[..k];
  }

  lemma {:induction false} FirstTwo(s: seq<bool>)
    requires |s| == 8
    ensures Remainder(s[..2]) == Byte(false, false, false, false, false, false, s[0], s[1])
  {
    assert s[..0] == [];
    Grow(s, 0, ZERO);
    Grow(s, 1, Append(ZERO, s[0]));
  }

  lemma {:induction false} FirstFour(s: seq<bool>)
    requires |s| == 8
    ensures Remainder(s[..4]) == Byte(false, false, false, false, s[0], s[1], s[2], s[3])
  {
    FirstTwo(s);
    var r := Byte(false, false, false, false, false, false, s[0], s[1]);
    Grow(s, 2, r);
    Grow(s, 3, Append(r, s[2]));
  }

  lemma {:induction false} FirstSix(s: seq<bool>)
    requires |s| == 8
    ensures Remainder(s[..6]) == Byte(false, false, s[0], s[1], s[2], s[3], s[4], s[5])
  {
    FirstFour(s);
    var r := Byte(false, false, false, false, s[0], s[1], s[2], s[3]);
    Grow(s, 4, r);
    Grow(s, 5, Append(r, s[4]));
  }

  lemma {:induction false} FirstEight(s: seq<bool>)
    requires |s| == 8
    ensures Remainder(s[..8]) == Byte(s[0], s[1], s[2], s[3], s[4], s[5], s[6], s[7])
  {
    FirstSix(s);
    var r := Byte(false, false, s[0], s[1], s[2], s[3], s[4], s[5]);
    Grow(s, 6, r);
    Grow(s, 7, Append(r, s[6]));
  }

  /** Eight bits are their own remainder: the degree is below the generator's. */
  lemma {:induction false} RemainderOfByte(b: byte)
    ensures Remainder(Bits(b)) == b
  {
    FirstEight(Bits(b));
    assert Bits(b)[..8] == Bits(b);
  }

  /** The byte-wise loop computes the remainder of the message times x^8. */
  lemma {:induction false} PecIsRemainder(data: seq<byte>)
    ensures Pec(data) == Remainder(MessageBits(data) + Bits(ZERO))
  {
    PecIsShifted(data);
    RemainderOfConcat(MessageBits(data), Bits(ZERO));
    RemainderOfByte(ZERO);
    XorUnits(Pec(data));
  }

  lemma {:induction false} PecIsShifted(data: seq<byte>)
    ensures Pec(data) == Shift(Remainder(MessageBits(data)), 8)
  {
    if data == [] {
      ShiftLaws(ZERO, ZERO, 8);
    } else {
      var n := |data| - 1;
      PecIsShifted(data[..n]);
      RemainderOfConcat(MessageBits(data[..n]), Bits(data[n]));
      RemainderOfByte(data[n]);
    }
  }

  // ---- the division itself ----

  function At(q: seq<bool>, i: int): bool {
    0 <= i < |q| && q[i]
  }

  /** Coefficient `i`, counted from the highest power down, of the product of a polynomial with the
      generator x^8 + x^2 + x + 1 over GF(2). */
  function Coefficient(q: seq<bool>, i: int): bool {
    At(q, i) != (At(q, i - 6) != (At(q, i - 7) != At(q, i - 8)))
  }

  function TimesGenerator(q: seq<bool>): (p: seq<bool>)
    ensures |p| == |q| + 8
  {
    seq(|q| + 8, i => Coefficient(q, i))
  }

  /** Coefficient of a polynomial of degree below 8. */
  function BitAt(r: byte, j: int): bool {
    if j == 0 then r.b7 else if j == 1 then r.b6 else if j == 2 then r.b5 else if j == 3 then r.b4
    else if j == 4 then r.b3 else if j == 5 then r.b2 else if j == 6 then r.b1 else j == 7 && r.b0
  }

  /** Add a polynomial of degree below 8. */
  function Plus(p: seq<bool>, r: byte): (s: seq<bool>)
    requires |p| >= 8
    ensures |s| == |p|
  {
    seq(|p|, i requires 0 <= i < |p| => p[i] != BitAt(r, i - (|p| - 8)))
  }

  lemma {:induction false} AtAppend(q: seq<bool>, t: bool, i: int)
    ensures At(q + [t], i) == (At(q, i) != (t && i == |q|))
  {}

  lemma {:induction false} CoefficientAppend(q: seq<bool>, t: bool, i: int)
    ensures var n := |q|;
            Coefficient(q + [t], i) == (Coefficient(q, i) != (t && (i == n || i == n + 6 || i == n + 7 || i == n + 8)))
  {
    AtAppend(q, t, i);
    AtAppend(q, t, i - 6);
    AtAppend(q, t, i - 7);
    AtAppend(q, t, i - 8);
  }

  lemma {:induction false} FeedAt(r: byte, bit: bool, j: int)
    requires 0 <= j < 8
    ensures BitAt(Feed(r, bit), j) == ((if j < 7 then BitAt(r, j + 1) else bit) != (r.b7 && j >= 5))
  {}

  lemma {:induction false} PlusAt(q: seq<bool>, r: byte, i: nat)
    requires i < |q| + 8
    ensures Plus(TimesGenerator(q), r)[i] == (Coefficient(q, i) != BitAt(r, i - |q|))
  {}

  lemma {:induction false} BitBefore(r: byte, j: int)
    ensures j < 0 ==> !BitAt(r, j)
    ensures j == 0 ==> BitAt(r, j) == r.b7
  {}

  lemma {:induction false} PastTheEnd(q: seq<bool>)
    ensures !Coefficient(q, |q| + 8)
  {}

  /** What one more quotient bit `t` adds to coefficient `i`, and to the remainder there, cancels. */
  lemma {:induction false} DivisionStepBits(q: seq<bool>, r: byte, bit: bool, i: nat)
    requires i < |q| + 9
    ensures (Coefficient(q + [r.b7], i) != BitAt(Feed(r, bit), i - (|q| + 1)))
            == if i < |q| + 8 then Coefficient(q, i) != BitAt(r, i - |q|) else bit
  {
    var n := |q|;
    CoefficientAppend(q, r.b7, i);
    BitBefore(r, i - n);
    BitBefore(Feed(r, bit), i - (n + 1));
    if i > n {
      FeedAt(r, bit, i - n - 1);
    }
    PastTheEnd(q);
  }

  lemma {:induction false} DivisionStepAt(q: seq<bool>, r: byte, bit: bool, i: nat)
    requires i < |q| + 9
    ensures Plus(TimesGenerator(q + [r.b7]), Feed(r, bit))[i] == (Plus(TimesGenerator(q), r) + [bit])[i]
  {
    DivisionStepBits(q, r, bit, i);
    PlusAt(q + [r.b7], Feed(r, bit), i);
    if i < |q| + 8 {
      PlusAt(q, r, i);
    }
  }

  /** Bringing one more coefficient down is one step of long division. */
  lemma {:induction false} DivisionStep(q: seq<bool>, r: byte, bit: bool)
    ensures Plus(TimesGenerator(q + [r.b7]), Feed(r, bit)) == Plus(TimesGenerator(q), r) + [bit]
  {
    var a, b := Plus(TimesGenerator(q + [r.b7]), Feed(r, bit)), Plus(TimesGenerator(q), r) + [bit];
    forall i | 0 <= i < |a| ensures a[i] == b[i] {
      DivisionStepAt(q, r, bit, i);
    }
  }

  lemma {:induction false} BitsAt(r: byte, i: nat)
    requires i < 8
    ensures Bits(r)[i] == BitAt(r, i)
  {}

  lemma {:induction false} PlusNothing(r: byte)
    ensures Plus(TimesGenerator([]), r) == Bits(r)
  {
    forall i | 0 <= i < 8 ensures Plus(TimesGenerator([]), r)[i] == Bits(r)[i] {
      assert TimesGenerator([])[i] == Coefficient([], i) == false;
      BitsAt(r, i);
    }
  }

  /** The remainder is one: some quotient times the generator, plus it, is the polynomial. */
  lemma {:induction false} RemainderDivides(bits: seq<bool>) returns (q: seq<bool>)
    requires |bits| >= 8
    ensures |q| == |bits| - 8 && Plus(TimesGenerator(q), Remainder(bits)) == bits
  {
    if |bits| == 8 {
      q := [];
      RemainderOfEight(bits);
      PlusNothing(Remainder(bits));
    } else {
      var n := |bits| - 1;
      var q0 := RemainderDivides(bits[..n]);
      q := q0 + [Remainder(bits[..n]).b7];
      DivisionStep(q0, Remainder(bits[..n]), bits[n]);
      assert bits == bits[..n] + [bits[n]];
    }
  }

  lemma {:induction false} RemainderOfEight(bits: seq<bool>)
    requires |bits| == 8
    ensures Bits(Remainder(bits)) == bits
  {
    FirstEight(bits);
    assert bits[..8] == bits;
  }

  /** And it is the only one of degree below 8. */
  lemma {:induction false} RemainderIsUnique(bits: seq<bool>, q: seq<bool>, r: byte)
    requires |bits| == |q| + 8 && Plus(TimesGenerator(q), r) == bits
    ensures r == Remainder(bits)
    decreases |q|
  {
    if q == [] {
      PlusNothing(r);
      RemainderOfByte(r);
    } else {
      var n := |q| - 1;
      var t := q[n];
      var before := Unfed(r, t);
      assert q == q[..n] + [t];
      UnfedFeeds(r, t);
      DivisionStep(q[..n], before, r.b0 != t);
      var init := bits[..|bits| - 1];
      assert init == Plus(TimesGenerator(q[..n]), before);
      RemainderIsUnique(init, q[..n], before);
      assert bits[|bits| - 1] == (r.b0 != t);
    }
  }

  /** The register one step earlier, if its top bit was `t`. */
  function Unfed(r: byte, t: bool): byte {
    Byte(t, r.b7, r.b6, r.b5, r.b4, r.b3, r.b2 != t, r.b1 != t)
  }

  lemma {:induction false} UnfedFeeds(r: byte, t: bool)
    ensures Unfed(r, t).b7 == t && Feed(Unfed(r, t), r.b0 != t) == r
  {}

  /** The code is what is left of the message polynomial times x^8 when it is divided by the
      generator: for some quotient, and for no other remainder. */
  lemma {:induction false} PecIsRemainderOfDivision(data: seq<byte>, r: byte)
    ensures var shifted := MessageBits(data) + Bits(ZERO);
            r == Pec(data) <==> exists q: seq<bool> :: |q| == |shifted| - 8 && Plus(TimesGenerator(q), r) == shifted
  {
    var shifted := MessageBits(data) + Bits(ZERO);
    PecIsRemainder(data);
    var q := RemainderDivides(shifted);
    if q: seq<bool> :| |q| == |shifted| - 8 && Plus(TimesGenerator(q), r) == shifted {
      RemainderIsUnique(shifted, q, r);
    }
  }
}
