/** The bits of a byte, and the digits of a number written as bytes. */
module Bits {
  import opened Bytes

  lemma DivUnique(n: int, m: nat, q: int, r: int)
    requires m > 0 && n == q * m + r && 0 <= r < m
    ensures n / m == q
  {
    ModUnique(n, m, q, r);
    assert (n / m - q) * m == 0;
    MulAway(n / m - q, m);
  }

  lemma Combined(a: int, b: int, u: int, v: int, r: int)
    ensures (u * b + v) * a + r == u * (a * b) + (v * a + r)
  {
  }

  lemma Below(v: nat, b: nat, a: nat, r: nat)
    requires v < b && r < a
    ensures v * a + r < a * b
  {
    MulAway(b - v, a);
    assert (b - v) * a == a * b - v * a;
  }

  lemma DivTwice(n: nat, a: nat, b: nat)
    requires a > 0 && b > 0
    ensures a * b > 0 && n / (a * b) == n / a / b
  {
    MulAway(a, b);
    var q, r := n / a, n % a;
    var u, v := q / b, q % b;
    Combined(a, b, u, v, r);
    Below(v, b, a, r);
    DivUnique(n, a * b, u, v * a + r);
  }

  // ----- Digits

  /** Byte `i` of a little-endian number is its digit `i` to the base 256. */
  lemma {:induction false} LeDigit(n: nat, w: nat, i: nat)
    requires i < w
    ensures Le(n, w)[i] == n / Pow256(i) % 256
  {
    if i > 0 {
      LeDigit(n / 256, w - 1, i - 1);
      DivTwice(n, 256, Pow256(i - 1));
    }
  }

  /** Byte `i` of a big-endian one is the digit as far from its end. */
  lemma {:induction false} BeDigit(n: nat, w: nat, i: nat)
    requires i < w
    ensures Be(n, w)[w - 1 - i] == n / Pow256(i) % 256
  {
    if i > 0 {
      BeDigit(n / 256, w - 1, i - 1);
      DivTwice(n, 256, Pow256(i - 1));
      assert Be(n, w)[w - 1 - i] == Be(n / 256, w - 1)[w - 1 - i];
    }
  }

  /** The number two, four and eight bytes mean, the lowest first. */
  function Two(s: bytes): u16
    requires |s| == 2
  {
    s[0] + 0x100 * (s[1] as int)
  }

  function Four(s: bytes): u32
    requires |s| == 4
  {
    Two(s[..2]) + 0x1_0000 * (Two(s[2..]) as int)
  }

  function Eight(s: bytes): u64
    requires |s| == 8
  {
    Four(s[..4]) + 0x1_0000_0000 * (Four(s[4..]) as int)
  }

  lemma Distribute(x: nat, p: nat, y: nat)
    ensures 256 * (x + p * y) == 256 * x + (256 * p) * y
  {
  }

  lemma {:induction false} OfLeSum(a: bytes, b: bytes)
    ensures OfLe(a + b) == OfLe(a) + Pow256(|a|) * OfLe(b)
  {
    if |a| == 0 {
      assert a + b == b;
    } else {
      OfLeSum(a[1..], b);
      assert (a + b)[1..] == a[1..] + b;
      assert OfLe(a + b) == a[0] + 256 * OfLe(a[1..] + b);
      assert OfLe(a) == a[0] + 256 * OfLe(a[1..]);
      Distribute(OfLe(a[1..]), Pow256(|a| - 1), OfLe(b));
    }
  }

  lemma TwoIs(s: bytes)
    requires |s| == 2
    ensures OfLe(s) == Two(s) && OfBe(s) == Two([s[1], s[0]])
  {
    assert s[1..][1..] == [] && s[..1][..0] == [];
    assert OfLe(s[1..]) == s[1] && OfBe(s[..1]) == s[0];
  }

  lemma FourIs(s: bytes)
    requires |s| == 4
    ensures OfLe(s) == Four(s)
  {
    PowValues();
    TwoIs(s[..2]);
    TwoIs(s[2..]);
    OfLeSum(s[..2], s[2..]);
    assert s == s[..2] + s[2..];
  }

  lemma EightIs(s: bytes)
    requires |s| == 8
    ensures OfLe(s) == Eight(s)
  {
    PowValues();
    FourIs(s[..4]);
    FourIs(s[4..]);
    OfLeSum(s[..4], s[4..]);
    assert s == s[..4] + s[4..];
  }

  /** Two's complement is the one number of its width that differs by a multiple of what the width counts. */
  lemma SignedExactly(n: nat, w: nat)
    requires w > 0 && n < Pow256(w)
    ensures 0 <= 2 * Signed(n, w) + Pow256(w) < 2 * Pow256(w)
    ensures Signed(n, w) == n || Signed(n, w) == n - Pow256(w)
  {
  }

  // ----- Bits

  /** Four bits, the low one first, below a number: each is found where it was put, and the number above them. */
  lemma LowBits(b0: nat, b1: nat, b2: nat, b3: nat, high: nat)
    requires b0 <= 1 && b1 <= 1 && b2 <= 1 && b3 <= 1
    ensures var n := b0 + 2 * b1 + 4 * b2 + 8 * b3 + 16 * high;
            && n % 2 == b0 && n / 2 % 2 == b1 && n / 2 / 2 % 2 == b2 && n / 2 / 2 / 2 % 2 == b3
            && n / 2 / 2 / 2 / 2 == high
  {
    LowBit(b3, high);
    LowBit(b2, b3 + 2 * high);
    LowBit(b1, b2 + 2 * (b3 + 2 * high));
    LowBit(b0, b1 + 2 * (b2 + 2 * (b3 + 2 * high)));
  }

  /** Dividing by a power of two is halving again and again. */
  lemma Halves(n: nat)
    ensures n / 4 == n / 2 / 2 && n / 8 == n / 2 / 2 / 2 && n / 16 == n / 2 / 2 / 2 / 2
  {
  }

  lemma HighHalves(n: nat)
    ensures n / 32 == n / 16 / 2 && n / 64 == n / 16 / 4 && n / 128 == n / 16 / 8
  {
  }

  lemma LowFour(n: nat, b0: nat, b1: nat, b2: nat, b3: nat, high: nat)
    requires b0 <= 1 && b1 <= 1 && b2 <= 1 && b3 <= 1
    requires n == b0 + 2 * b1 + 4 * b2 + 8 * b3 + 16 * high
    ensures n % 2 == b0 && n / 2 % 2 == b1 && n / 4 % 2 == b2 && n / 8 % 2 == b3 && n / 16 == high
  {
    LowBits(b0, b1, b2, b3, high);
    Halves(n);
  }

  lemma HighFour(n: nat, b4: nat, b5: nat, b6: nat, b7: nat)
    requires b4 <= 1 && b5 <= 1 && b6 <= 1 && b7 <= 1
    requires n / 16 == b4 + 2 * b5 + 4 * b6 + 8 * b7
    ensures n / 16 % 2 == b4 && n / 32 % 2 == b5 && n / 64 % 2 == b6 && n / 128 % 2 == b7
  {
    LowFour(n / 16, b4, b5, b6, b7, 0);
    HighHalves(n);
  }

  lemma PowTwoValues()
    ensures Pow2(0) == 1 && Pow2(1) == 2 && Pow2(2) == 4 && Pow2(3) == 8
    ensures Pow2(4) == 16 && Pow2(5) == 32 && Pow2(6) == 64 && Pow2(7) == 128
  {
  }

  /** Bit `i` is digit `i` to the base two. */
  lemma BitIs(b: byte, i: nat)
    requires i < 8
    ensures Bit(b, i) <==> b / Pow2(i) % 2 == 1
    ensures Bit(b, i) <==> Digit(b, i) == 1
  {
    PowTwoValues();
  }

  /** Digit `i` to the base two. */
  function Digit(n: nat, i: nat): nat {
    n / Pow2(i) % 2
  }

  /** The lowest digit is the number's parity; any other is the one below it of the half. */
  lemma DigitBelow(n: nat, i: nat)
    ensures Digit(n, i) == if i == 0 then n % 2 else Digit(n / 2, i - 1)
  {
    if i > 0 {
      DivTwice(n, 2, Pow2(i - 1));
    }
  }

  lemma {:induction false} XorDigit(a: nat, b: nat, w: nat, i: nat)
    requires i < w
    ensures Digit(Xor(a, b, w), i) == (Digit(a, i) + Digit(b, i)) % 2
  {
    hide Xor, Digit;
    XorStep(a, b, w);
    DigitBelow(Xor(a, b, w), i);
    DigitBelow(a, i);
    DigitBelow(b, i);
    if i > 0 {
      XorDigit(a / 2, b / 2, w - 1, i - 1);
    }
  }

  /** Bit by bit, exclusive or says where two bytes differ. */
  lemma XorBits(a: byte, b: byte, c: byte, i: nat)
    requires i < 8 && c == Xor(a, b, 8)
    ensures Bit(c, i) <==> Bit(a, i) != Bit(b, i)
  {
    hide Xor, Bit, Pow2;
    XorDigit(a, b, 8, i);
    BitIs(a, i);
    BitIs(b, i);
    BitIs(c, i);
  }

  /** A number below sixteen from its four bits. */
  lemma Nibble(n: nat)
    ensures n % 16 == n % 2 + 2 * (n / 2 % 2) + 4 * (n / 4 % 2) + 8 * (n / 8 % 2)
  {
    Halves(n);
    var a, b, c, d := n / 2, n / 2 / 2, n / 2 / 2 / 2, n / 2 / 2 / 2 / 2;
    assert n == 2 * a + n % 2 && a == 2 * b + a % 2 && b == 2 * c + b % 2 && c == 2 * d + c % 2;
    ModUnique(n, 16, d, n % 2 + 2 * (a % 2) + 4 * (b % 2) + 8 * (c % 2));
  }

  /** The bits of a byte whose halves are exchanged: those of its lower half are the upper ones. */
  lemma LowerDigits(n: nat, m: nat)
    requires n < 256 && m == 16 * (n % 16) + n / 16
    ensures m % 2 == n / 16 % 2 && m / 2 % 2 == n / 32 % 2 && m / 4 % 2 == n / 64 % 2 && m / 8 % 2 == n / 128 % 2
    ensures m / 16 == n % 16
  {
    var h := n / 16;
    Nibble(h);
    HighHalves(n);
    LowFour(m, h % 2, h / 2 % 2, h / 4 % 2, h / 8 % 2, n % 16);
  }

  /** And those of its upper half the lower ones. */
  lemma UpperDigits(n: nat, m: nat)
    requires m / 16 == n % 16
    ensures m / 16 % 2 == n % 2 && m / 32 % 2 == n / 2 % 2 && m / 64 % 2 == n / 4 % 2 && m / 128 % 2 == n / 8 % 2
  {
    Nibble(n);
    HighFour(m, n % 2, n / 2 % 2, n / 4 % 2, n / 8 % 2);
  }

  /** A byte whose halves are those of another, exchanged: bit `i` is bit `i + 4` of that, counted round. */
  lemma SwappedBits(b: byte, c: byte, i: nat)
    requires i < 8 && c as int == 16 * (b % 16) + b / 16
    ensures Bit(c, i) <==> Bit(b, (i + 4) % 8)
  {
    hide Bit;
    LowerDigits(b, c);
    UpperDigits(b, c);
    BitTable(b);
    BitTable(c);
  }

  lemma BitTable(b: byte)
    ensures Bit(b, 0) <==> b % 2 == 1
    ensures Bit(b, 1) <==> b / 2 % 2 == 1
    ensures Bit(b, 2) <==> b / 4 % 2 == 1
    ensures Bit(b, 3) <==> b / 8 % 2 == 1
    ensures Bit(b, 4) <==> b / 16 % 2 == 1
    ensures Bit(b, 5) <==> b / 32 % 2 == 1
    ensures Bit(b, 6) <==> b / 64 % 2 == 1
    ensures Bit(b, 7) <==> b / 128 % 2 == 1
  {
  }
}
