/** Bytes, fixed-width integers in both byte orders, and parsing off the front of a byte sequence. */
module Bytes {

  type byte = x: int | 0 <= x < 0x100
  type bytes = seq<byte>
  type u16 = x: int | 0 <= x < 0x1_0000
  type u32 = x: int | 0 <= x < 0x1_0000_0000
  type u64 = x: int | 0 <= x < 0x1_0000_0000_0000_0000
  type i32 = x: int | -0x8000_0000 <= x < 0x8000_0000
  type i64 = x: int | -0x8000_0000_0000_0000 <= x < 0x8000_0000_0000_0000

  const U16_MAX: u16 := 0xFFFF

  function Min(a: nat, b: nat): nat {
    if a <= b then a else b
  }

  // ----- Integers as bytes

  /** How many values `w` bytes can hold. */
  function Pow256(w: nat): (p: nat)
    ensures p >= 1
  {
    if w == 0 then 1 else 256 * Pow256(w - 1)
  }

  lemma PowValues()
    ensures Pow256(0) == 1
    ensures Pow256(1) == 0x100
    ensures Pow256(2) == 0x1_0000
    ensures Pow256(4) == 0x1_0000_0000
    ensures Pow256(8) == 0x1_0000_0000_0000_0000
  {
    assert Pow256(3) == 0x100_0000;
    assert Pow256(5) == 0x100_0000_0000;
    assert Pow256(6) == 0x1_0000_0000_0000;
    assert Pow256(7) == 0x100_0000_0000_0000;
  }

  /** `n` as `w` bytes, the least significant first; what does not fit is cut off. */
  function Le(n: nat, w: nat): (s: bytes)
    ensures |s| == w
  {
    if w == 0 then [] else [n % 256] + Le(n / 256, w - 1)
  }

  function OfLe(s: bytes): (n: nat)
    ensures n < Pow256(|s|)
  {
    if |s| == 0 then 0 else s[0] + 256 * OfLe(s[1..])
  }

  /** `n` as `w` bytes, the most significant first. */
  function Be(n: nat, w: nat): (s: bytes)
    ensures |s| == w
  {
    if w == 0 then [] else Be(n / 256, w - 1) + [n % 256]
  }

  function OfBe(s: bytes): (n: nat)
    ensures n < Pow256(|s|)
  {
    if |s| == 0 then 0 else 256 * OfBe(s[..|s| - 1]) + s[|s| - 1]
  }

  lemma MulAway(a: int, m: nat)
    requires m > 0
    ensures a >= 1 ==> a * m >= m
    ensures a <= -1 ==> a * m + m <= 0
  {
  }

  /** A remainder is the only number in range that differs by a multiple. */
  lemma ModUnique(n: int, m: nat, k: int, r: int)
    requires m > 0 && n == k * m + r && 0 <= r < m
    ensures n % m == r
  {
    var q := n / m;
    assert (k - q) * m == n % m - r;
    MulAway(k - q, m);
  }

  lemma ModOfDigits(n: nat, p: nat)
    requires p > 0
    ensures 256 * ((n / 256) % p) + n % 256 == n % (256 * p)
  {
    var q := n / 256;
    assert n == (q / p) * (256 * p) + (256 * (q % p) + n % 256) by {
      assert q == (q / p) * p + q % p;
      assert 256 * ((q / p) * p) == (q / p) * (256 * p);
    }
    ModUnique(n, 256 * p, q / p, 256 * (q % p) + n % 256);
  }

  /** Reading back a little-endian integer gives it modulo what its width holds. */
  lemma {:induction false} LeRoundTrip(n: nat, w: nat)
    ensures OfLe(Le(n, w)) == n % Pow256(w)
  {
    if w > 0 {
      LeRoundTrip(n / 256, w - 1);
      assert Le(n, w)[1..] == Le(n / 256, w - 1);
      ModOfDigits(n, Pow256(w - 1));
    }
  }

  lemma LowByte(b: byte, high: nat)
    ensures (b + 256 * high) % 256 == b && (b + 256 * high) / 256 == high
  {
  }

  lemma {:induction false} LeOfLe(s: bytes)
    ensures Le(OfLe(s), |s|) == s
  {
    if |s| > 0 {
      var b, high := s[0], OfLe(s[1..]);
      assert OfLe(s) == b + 256 * high;
      hide OfLe;
      LowByte(b, high);
      LeOfLe(s[1..]);
      assert Le(OfLe(s), |s|) == [b] + Le(high, |s| - 1);
    }
  }

  lemma {:induction false} BeRoundTrip(n: nat, w: nat)
    ensures OfBe(Be(n, w)) == n % Pow256(w)
  {
    if w > 0 {
      BeRoundTrip(n / 256, w - 1);
      assert Be(n, w)[..w - 1] == Be(n / 256, w - 1);
      ModOfDigits(n, Pow256(w - 1));
    }
  }

  /** The first bytes of a wide little-endian integer are its narrow form. */
  lemma {:induction false} LePrefix(n: nat, w: nat, narrow: nat)
    requires narrow <= w
    ensures Le(n, w)[..narrow] == Le(n, narrow)
  {
    if narrow > 0 {
      LePrefix(n / 256, w - 1, narrow - 1);
      assert Le(n, w)[..narrow] == [n % 256] + Le(n / 256, w - 1)[..narrow - 1];
    }
  }

  // ----- Two's complement

  /** The unsigned number `w` bytes of two's complement spell for `v`. */
  function Twos(v: int, w: nat): (n: nat)
    ensures n < Pow256(w)
  {
    v % Pow256(w)
  }

  /** The signed number `w` bytes of two's complement mean. */
  function Signed(n: nat, w: nat): int {
    if 2 * n >= Pow256(w) then n - Pow256(w) else n
  }

  predicate InWidth(v: int, w: nat) {
    0 <= 2 * v + Pow256(w) < 2 * Pow256(w)
  }

  /** `v` reduced to the signed numbers `w` bytes hold. */
  function Wrap(v: int, w: nat): int {
    Signed(Twos(v, w), w)
  }

  lemma WrapInRange(v: int, w: nat)
    requires w > 0
    ensures InWidth(Wrap(v, w), w)
    ensures InWidth(v, w) ==> Wrap(v, w) == v
    ensures exists k: int :: Wrap(v, w) == v + k * Pow256(w)
  {
    var p := Pow256(w);
    assert v == (v / p) * p + v % p;
    if 2 * (v % p) >= p {
      assert Wrap(v, w) == v + (-(v / p) - 1) * p;
    } else {
      assert Wrap(v, w) == v + (-(v / p)) * p;
    }
    if InWidth(v, w) {
      if v < 0 {
        ModUnique(v, p, -1, v + p);
      } else {
        ModUnique(v, p, 0, v);
      }
    }
  }

  // ----- Bits

  /** Bit `i` of a byte, counted from the least significant. */
  predicate Bit(b: byte, i: nat)
    requires i < 8
  {
    match i
    case 0 => b % 2 == 1
    case 1 => (b / 2) % 2 == 1
    case 2 => (b / 4) % 2 == 1
    case 3 => (b / 8) % 2 == 1
    case 4 => (b / 16) % 2 == 1
    case 5 => (b / 32) % 2 == 1
    case 6 => (b / 64) % 2 == 1
    case _ => (b / 128) % 2 == 1
  }

  /** Exclusive or of the low `w` bits of two numbers. */
  function Xor(a: nat, b: nat, w: nat): nat {
    if w == 0 then 0 else (a % 2 + b % 2) % 2 + 2 * Xor(a / 2, b / 2, w - 1)
  }

  function Pow2(w: nat): (p: nat)
    ensures p >= 1
  {
    if w == 0 then 1 else 2 * Pow2(w - 1)
  }

  lemma BitTwice(a: nat, b: nat)
    requires a < 2 && b < 2
    ensures ((a + b) % 2 + b) % 2 == a
  {
  }

  lemma LowBit(b: nat, high: nat)
    requires b <= 1
    ensures (b + 2 * high) % 2 == b && (b + 2 * high) / 2 == high
  {
  }

  lemma XorStep(a: nat, b: nat, w: nat)
    requires w > 0
    ensures Xor(a, b, w) % 2 == (a % 2 + b % 2) % 2
    ensures Xor(a, b, w) / 2 == Xor(a / 2, b / 2, w - 1)
  {
    var low, high := (a % 2 + b % 2) % 2, Xor(a / 2, b / 2, w - 1);
    assert Xor(a, b, w) == low + 2 * high;
    hide Xor;
    LowBit(low, high);
  }

  /** Exclusive or with the same mask twice is no change. */
  lemma {:induction false} XorTwice(a: nat, b: nat, w: nat)
    requires a < Pow2(w)
    ensures Xor(a, b, w) < Pow2(w)
    ensures Xor(Xor(a, b, w), b, w) == a
  {
    if w > 0 {
      hide Xor;
      XorTwice(a / 2, b / 2, w - 1);
      XorStep(a, b, w);
      XorStep(Xor(a, b, w), b, w);
      BitTwice(a % 2, b % 2);
    }
  }

  // ----- Slices

  lemma Assoc(a: bytes, b: bytes, c: bytes)
    ensures a + b + c == a + (b + c)
  {
  }

  lemma Regroup(a: bytes, b: bytes, c: bytes, t: bytes)
    ensures a + b + c + t == a + (b + c + t)
  {
  }

  /** Slices of `n`, the last shorter where they do not come out even. */
  function Chunks(s: bytes, n: nat): (cs: seq<bytes>)
    requires n > 0
    ensures |s| == 0 <==> |cs| == 0
    ensures forall i :: 0 <= i < |cs| ==> 1 <= |cs[i]| <= n
    ensures forall i :: 0 <= i < |cs| - 1 ==> |cs[i]| == n
  {
    if |s| == 0 then [] else if |s| <= n then [s] else [s[..n]] + Chunks(s[n..], n)
  }

  function Concat(parts: seq<bytes>): bytes {
    if |parts| == 0 then [] else parts[0] + Concat(parts[1..])
  }

  lemma {:induction false} ChunksConcat(s: bytes, n: nat)
    requires n > 0
    ensures Concat(Chunks(s, n)) == s
  {
    if |s| > n {
      ChunksConcat(s[n..], n);
      assert Chunks(s, n)[1..] == Chunks(s[n..], n);
    } else if |s| > 0 {
      assert Chunks(s, n)[1..] == [];
    }
  }

  lemma {:induction false} ConcatSnoc(parts: seq<bytes>, last: bytes)
    ensures Concat(parts + [last]) == Concat(parts) + last
  {
    if |parts| == 0 {
      assert ([last])[1..] == [];
    } else {
      ConcatSnoc(parts[1..], last);
      assert (parts + [last])[1..] == parts[1..] + [last];
    }
  }
}

/** Reading off the front of a byte sequence: a value and what is left, or nothing. */
module Parsing {
  import opened Bytes

  datatype Parse<+T> = Bad | Got(value: T, rest: bytes) {
    predicate IsFailure() {
      Bad?
    }

    function PropagateFailure<U>(): Parse<U>
      requires Bad?
    {
      Bad
    }

    function Extract(): (T, bytes)
      requires Got?
    {
      (value, rest)
    }
  }

  /** What `p` reads, behind `front`. */
  function Prepend<T>(front: seq<T>, p: Parse<seq<T>>): Parse<seq<T>> {
    match p
    case Bad => Bad
    case Got(more, rest) => Got(front + more, rest)
  }

  lemma PrependNone<T>(p: Parse<seq<T>>)
    ensures Prepend([], p) == p
  {
    if p.Got? {
      assert [] + p.value == p.value;
    }
  }

  function Take(n: nat, s: bytes): Parse<bytes> {
    if n <= |s| then Got(s[..n], s[n..]) else Bad
  }

  function Skip(n: nat, s: bytes): Parse<()> {
    if n <= |s| then Got((), s[n..]) else Bad
  }

  function Byte(s: bytes): Parse<byte> {
    if |s| == 0 then Bad else Got(s[0], s[1..])
  }

  function U16Le(s: bytes): Parse<u16> {
    PowValues();
    if |s| < 2 then Bad else Got(OfLe(s[..2]), s[2..])
  }

  function U16Be(s: bytes): Parse<u16> {
    PowValues();
    if |s| < 2 then Bad else Got(OfBe(s[..2]), s[2..])
  }

  function U32Le(s: bytes): Parse<u32> {
    PowValues();
    if |s| < 4 then Bad else Got(OfLe(s[..4]), s[4..])
  }

  function U32Be(s: bytes): Parse<u32> {
    PowValues();
    if |s| < 4 then Bad else Got(OfBe(s[..4]), s[4..])
  }

  function U64Le(s: bytes): Parse<u64> {
    PowValues();
    if |s| < 8 then Bad else Got(OfLe(s[..8]), s[8..])
  }

  function I32Le(s: bytes): Parse<i32> {
    PowValues();
    if |s| < 4 then Bad else Got(Signed(OfLe(s[..4]), 4), s[4..])
  }

  // ----- What was written is what is read, whatever follows

  lemma U16LeBack(n: u16, t: bytes)
    ensures U16Le(Le(n, 2) + t) == Got(n, t)
  {
    hide Le, OfLe, Pow256;
    PowValues();
    LeRoundTrip(n, 2);
    assert (Le(n, 2) + t)[..2] == Le(n, 2);
  }

  lemma U16BeBack(n: u16, t: bytes)
    ensures U16Be(Be(n, 2) + t) == Got(n, t)
  {
    hide Be, OfBe, Pow256;
    PowValues();
    BeRoundTrip(n, 2);
    assert (Be(n, 2) + t)[..2] == Be(n, 2);
  }

  lemma U32LeBack(n: u32, t: bytes)
    ensures U32Le(Le(n, 4) + t) == Got(n, t)
  {
    hide Le, OfLe, Pow256;
    PowValues();
    LeRoundTrip(n, 4);
    assert (Le(n, 4) + t)[..4] == Le(n, 4);
  }

  lemma U32BeBack(n: u32, t: bytes)
    ensures U32Be(Be(n, 4) + t) == Got(n, t)
  {
    hide Be, OfBe, Pow256;
    PowValues();
    BeRoundTrip(n, 4);
    assert (Be(n, 4) + t)[..4] == Be(n, 4);
  }

  lemma U64LeBack(n: u64, t: bytes)
    ensures U64Le(Le(n, 8) + t) == Got(n, t)
  {
    hide Le, OfLe, Pow256;
    PowValues();
    LeRoundTrip(n, 8);
    assert (Le(n, 8) + t)[..8] == Le(n, 8);
  }

  lemma I32LeBack(v: i32, t: bytes)
    ensures I32Le(Le(Twos(v, 4), 4) + t) == Got(v, t)
  {
    PowValues();
    LeRoundTrip(Twos(v, 4), 4);
    WrapInRange(v, 4);
    assert (Le(Twos(v, 4), 4) + t)[..4] == Le(Twos(v, 4), 4);
  }
}
