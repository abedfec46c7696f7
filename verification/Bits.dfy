/** Machine integers as natural numbers: bit selection, bitwise operators, shifts
    and little-endian byte strings. Every operator is characterised by its bits
    (`BitAnd`, `BitShl`, ...), and `BitsDetermine` turns equal bits into equality. */
module Bits {

  type Byte = x: int | 0 <= x < 256

  const TWO64: nat := 0x1_0000_0000_0000_0000
  const ONES: U64 := 0xFFFF_FFFF_FFFF_FFFF

  type U64 = x: int | 0 <= x < 0x1_0000_0000_0000_0000

  datatype Option<+T> = None | Some(value: T)

  function Min(a: int, b: int): (m: int)
    ensures m <= a && m <= b && (m == a || m == b)
  {
    if a < b then a else b
  }

  function Pow2(n: nat): (r: nat)
    ensures r > 0
  {
    if n == 0 then 1 else 2 * Pow2(n - 1)
  }

  /** Bit `i` of `x`. */
  predicate Bit(x: nat, i: nat)
    decreases i
  {
    if i == 0 then x % 2 == 1 else Bit(x / 2, i - 1)
  }

  /** The low `n` bits of `x`. */
  function Low(x: nat, n: nat): (r: nat)
    decreases n
  {
    if n == 0 then 0 else x % 2 + 2 * Low(x / 2, n - 1)
  }

  function Shr(x: nat, n: nat): (r: nat)
    ensures r <= x
    decreases n
  {
    if n == 0 then x else Shr(x / 2, n - 1)
  }

  /** Left shift without truncation. */
  function Shl(x: nat, n: nat): (r: nat)
    decreases n
  {
    if n == 0 then x else 2 * Shl(x, n - 1)
  }

  function And(a: nat, b: nat): (r: nat)
    ensures r <= a && r <= b
  {
    if a == 0 || b == 0 then 0
    else (if a % 2 == 1 && b % 2 == 1 then 1 else 0) + 2 * And(a / 2, b / 2)
  }

  function Or(a: nat, b: nat): (r: nat)
    ensures r >= a && r >= b
  {
    if a == 0 then b else if b == 0 then a
    else (if a % 2 == 1 || b % 2 == 1 then 1 else 0) + 2 * Or(a / 2, b / 2)
  }

  function Xor(a: nat, b: nat): (r: nat)
  {
    if a == 0 then b else if b == 0 then a
    else (if a % 2 != b % 2 then 1 else 0) + 2 * Xor(a / 2, b / 2)
  }

  /** Complement of the low `n` bits. */
  function Inv(a: nat, n: nat): (r: nat)
    decreases n
  {
    if n == 0 then 0 else 1 - a % 2 + 2 * Inv(a / 2, n - 1)
  }

  /** `n` ones. */
  function Mask(n: nat): (r: nat)
  {
    if n == 0 then 0 else 1 + 2 * Mask(n - 1)
  }

  // ----- bits of each operator -----

  lemma {:induction false} BitZero(i: nat)
    ensures !Bit(0, i)
    decreases i
  {
    if i > 0 { BitZero(i - 1); }
  }

  lemma {:induction false} BitLow(x: nat, n: nat, i: nat)
    ensures Bit(Low(x, n), i) <==> i < n && Bit(x, i)
    decreases n
  {
    if n == 0 {
      BitZero(i);
    } else if i > 0 {
      assert Low(x, n) / 2 == Low(x / 2, n - 1);
      BitLow(x / 2, n - 1, i - 1);
    }
  }

  lemma {:induction false} BitShr(x: nat, n: nat, i: nat)
    ensures Bit(Shr(x, n), i) == Bit(x, i + n)
    decreases n
  {
    if n > 0 { BitShr(x / 2, n - 1, i); }
  }

  lemma {:induction false} BitShl(x: nat, n: nat, i: nat)
    ensures Bit(Shl(x, n), i) <==> i >= n && Bit(x, i - n)
    decreases n
  {
    if n > 0 && i > 0 {
      assert Shl(x, n) / 2 == Shl(x, n - 1);
      BitShl(x, n - 1, i - 1);
    }
  }

  lemma {:induction false} BitAnd(a: nat, b: nat, i: nat)
    ensures Bit(And(a, b), i) <==> Bit(a, i) && Bit(b, i)
    decreases i
  {
    if a == 0 || b == 0 {
      BitZero(i);
    } else if i > 0 {
      assert And(a, b) / 2 == And(a / 2, b / 2);
      BitAnd(a / 2, b / 2, i - 1);
    }
  }

  lemma {:induction false} BitOr(a: nat, b: nat, i: nat)
    ensures Bit(Or(a, b), i) <==> Bit(a, i) || Bit(b, i)
    decreases i
  {
    if a == 0 || b == 0 {
      BitZero(i);
    } else if i > 0 {
      assert Or(a, b) / 2 == Or(a / 2, b / 2);
      BitOr(a / 2, b / 2, i - 1);
    }
  }

  lemma {:induction false} BitXor(a: nat, b: nat, i: nat)
    ensures Bit(Xor(a, b), i) <==> Bit(a, i) != Bit(b, i)
    decreases i
  {
    if a == 0 || b == 0 {
      BitZero(i);
    } else if i > 0 {
      assert Xor(a, b) / 2 == Xor(a / 2, b / 2);
      BitXor(a / 2, b / 2, i - 1);
    }
  }

  lemma {:induction false} BitInv(a: nat, n: nat, i: nat)
    ensures Bit(Inv(a, n), i) <==> i < n && !Bit(a, i)
    decreases n
  {
    if n == 0 {
      BitZero(i);
    } else if i > 0 {
      assert Inv(a, n) / 2 == Inv(a / 2, n - 1);
      BitInv(a / 2, n - 1, i - 1);
    }
  }

  lemma {:induction false} BitMask(n: nat, i: nat)
    ensures Bit(Mask(n), i) <==> i < n
    decreases n
  {
    if n == 0 {
      BitZero(i);
    } else if i > 0 {
      assert Mask(n) / 2 == Mask(n - 1);
      BitMask(n - 1, i - 1);
    }
  }

  // ----- bits determine the number, and bound it -----

  lemma {:induction false} BitsDetermine(a: nat, b: nat)
    requires forall i: nat :: Bit(a, i) == Bit(b, i)
    ensures a == b
    decreases a + b
  {
    assert Bit(a, 0) == Bit(b, 0);
    if a + b > 0 {
      forall i: nat ensures Bit(a / 2, i) == Bit(b / 2, i) {
        assert Bit(a, i + 1) == Bit(b, i + 1);
      }
      BitsDetermine(a / 2, b / 2);
    }
  }

  lemma {:induction false} LowBound(x: nat, n: nat)
    ensures Low(x, n) < Pow2(n)
    ensures Low(x, n) <= x
    decreases n
  {
    if n > 0 { LowBound(x / 2, n - 1); }
  }

  lemma {:induction false} LowIdentity(x: nat, n: nat)
    requires x < Pow2(n)
    ensures Low(x, n) == x
    decreases n
  {
    if n > 0 { LowIdentity(x / 2, n - 1); }
  }

  lemma DoubleProduct(a: int, b: int)
    ensures a * (2 * b) == 2 * (a * b)
  {
  }

  /** Shr and Low are quotient and remainder. */
  lemma {:induction false} Split(x: nat, n: nat)
    ensures x == Shr(x, n) * Pow2(n) + Low(x, n)
    decreases n
  {
    if n > 0 {
      Split(x / 2, n - 1);
      DoubleProduct(Shr(x, n), Pow2(n - 1));
    }
  }

  lemma ProductSign(d: int, m: int)
    requires m > 0
    ensures d >= 1 ==> d * m >= m
    ensures d <= -1 ==> d * m <= -m
  {
    if d >= 1 { assert (d - 1) * m >= 0; }
    if d <= -1 { assert (-1 - d) * m >= 0; }
  }

  lemma DifferenceOfProducts(a: int, b: int, m: int)
    ensures a * m - b * m == (a - b) * m
  {
  }

  /** Quotient and remainder are unique. */
  lemma ModUnique(x: int, m: int, q: int, r: int)
    requires m > 0 && 0 <= r < m && x == q * m + r
    ensures x % m == r && x / m == q
  {
    var q', r' := x / m, x % m;
    assert x == q' * m + r';
    DifferenceOfProducts(q', q, m);
    ProductSign(q' - q, m);
  }

  lemma QuotientLe(a: nat, b: nat)
    requires b > 0
    ensures 0 <= a / b <= a
  {
    var q := a / b;
    if q >= 1 { ProductSign(b, q); }
    if q <= -1 { ProductSign(q, b); }
  }

  /** The low `n` bits are the remainder modulo 2^n. */
  lemma LowIsMod(x: nat, n: nat)
    ensures Low(x, n) == x % Pow2(n)
  {
    Split(x, n);
    LowBound(x, n);
    ModUnique(x, Pow2(n), Shr(x, n), Low(x, n));
  }

  lemma {:induction false} ShlIsTimes(x: nat, n: nat)
    ensures Shl(x, n) == x * Pow2(n)
    decreases n
  {
    if n > 0 {
      ShlIsTimes(x, n - 1);
      DoubleProduct(x, Pow2(n - 1));
    }
  }

  lemma ShrIsDiv(x: nat, n: nat)
    ensures Shr(x, n) == x / Pow2(n)
  {
    Split(x, n);
    LowBound(x, n);
    ModUnique(x, Pow2(n), Shr(x, n), Low(x, n));
  }

  /** A number whose bits from `n` up are all clear is below 2^n. */
  lemma {:induction false} BitsBound(x: nat, n: nat)
    requires forall i: nat :: i >= n ==> !Bit(x, i)
    ensures x < Pow2(n)
  {
    forall i: nat ensures Bit(x, i) == Bit(Low(x, n), i) { BitLow(x, n, i); }
    BitsDetermine(x, Low(x, n));
    LowBound(x, n);
  }

  lemma {:induction false} HighBitsClear(x: nat, n: nat, i: nat)
    requires x < Pow2(n) && i >= n
    ensures !Bit(x, i)
  {
    LowIdentity(x, n);
    BitLow(x, n, i);
  }

  lemma {:induction false} Pow2Add(a: nat, b: nat)
    ensures Pow2(a + b) == Pow2(a) * Pow2(b)
    decreases a
  {
    if a > 0 {
      Pow2Add(a - 1, b);
      DoubleProduct(Pow2(b), Pow2(a - 1));
    }
  }

  lemma Pow2Values()
    ensures Pow2(4) == 16 && Pow2(8) == 256 && Pow2(16) == 0x1_0000 && Pow2(32) == 0x1_0000_0000
    ensures Pow2(64) == TWO64
  {
    assert Pow2(4) == 16;
    Pow2Add(4, 4);
    Pow2Add(8, 8);
    Pow2Add(16, 16);
    Pow2Add(32, 32);
  }

  /** And, Or, Xor and the complement stay inside `n` bits. */
  lemma {:induction false} OpsBound(a: nat, b: nat, n: nat)
    requires a < Pow2(n) && b < Pow2(n)
    ensures And(a, b) < Pow2(n) && Or(a, b) < Pow2(n) && Xor(a, b) < Pow2(n)
    decreases n
  {
    if n > 0 { OpsBound(a / 2, b / 2, n - 1); }
  }

  lemma {:induction false} InvBound(a: nat, n: nat)
    ensures Inv(a, n) < Pow2(n)
    ensures a < Pow2(n) ==> Inv(a, n) == Pow2(n) - 1 - a
    decreases n
  {
    if n > 0 { InvBound(a / 2, n - 1); }
  }

  // ----- little-endian byte strings -----

  /** The number a little-endian byte string denotes. */
  function Le(s: seq<Byte>): (r: nat)
  {
    if s == [] then 0 else s[0] + 256 * Le(s[1..])
  }

  /** `n` little-endian bytes of `v`. */
  function ToLe(v: nat, n: nat): (s: seq<Byte>)
    ensures |s| == n
    decreases n
  {
    if n == 0 then [] else [v % 256] + ToLe(v / 256, n - 1)
  }

  lemma LeEmpty()
    ensures Le([]) == 0
  {
  }

  lemma {:induction false} LeBound(s: seq<Byte>)
    ensures Le(s) < Pow2(8 * |s|)
  {
    if s != [] {
      LeBound(s[1..]);
      Pow2Add(8, 8 * |s[1..]|);
      Pow2Values();
    }
  }

  lemma {:induction false} ToLeRoundTrip(v: nat, n: nat)
    ensures Le(ToLe(v, n)) == Low(v, 8 * n)
    decreases n
  {
    hide Shr, Shl, Low;
    if n == 0 {
      LowNone(v);
    } else {
      ToLeRoundTrip(v / 256, n - 1);
      assert ToLe(v, n)[1..] == ToLe(v / 256, n - 1);
      LowSplit(v, 8, 8 * (n - 1));
      ByteShifts(v);
      ByteShifts(Low(v / 256, 8 * (n - 1)));
    }
  }

  lemma LowNone(x: nat)
    ensures Low(x, 0) == 0
  {
  }

  lemma {:induction false} LowSplit(x: nat, a: nat, b: nat)
    ensures Low(x, a + b) == Low(x, a) + Shl(Low(Shr(x, a), b), a)
    decreases a
  {
    if a > 0 { LowSplit(x / 2, a - 1, b); }
  }

  lemma ByteShifts(x: nat)
    ensures Shr(x, 8) == x / 256 && Shl(x, 8) == 256 * x && Low(x, 8) == x % 256
  {
    ShrIsDiv(x, 8);
    ShlIsTimes(x, 8);
    LowIsMod(x, 8);
    Pow2Values();
  }

  /** Eight steps of halving: bit `i + 8` of `b + 256 * x` is bit `i` of `x`. */
  lemma BitByteStep(b: Byte, x: nat, i: nat)
    ensures i < 8 ==> Bit(b + 256 * x, i) == Bit(b, i)
    ensures Bit(b + 256 * x, i + 8) == Bit(x, i)
  {
    var y := b + 256 * x;
    ByteParts(b, x, y);
    BitShr(y, 8, i);
    BitLow(y, 8, i);
  }

  lemma ByteParts(b: Byte, x: nat, y: nat)
    requires y == b + 256 * x
    ensures Shr(y, 8) == x && Low(y, 8) == b
  {
    ByteShifts(y);
  }

  /** Bit `i` of a little-endian byte string is bit `i % 8` of byte `i / 8`. */
  lemma {:induction false} BitLe(s: seq<Byte>, i: nat)
    ensures Bit(Le(s), i) <==> i < 8 * |s| && Bit(s[i / 8], i % 8)
  {
    if s == [] {
      BitZero(i);
    } else if i < 8 {
      BitByteStep(s[0], Le(s[1..]), i);
    } else {
      BitByteStep(s[0], Le(s[1..]), i - 8);
      BitLe(s[1..], i - 8);
      assert (i - 8) / 8 == i / 8 - 1 && (i - 8) % 8 == i % 8;
    }
  }

  lemma {:induction false} LeInjective(a: seq<Byte>, b: seq<Byte>)
    requires |a| == |b| && Le(a) == Le(b)
    ensures a == b
  {
    if a != [] {
      LeInjective(a[1..], b[1..]);
      assert a == [a[0]] + a[1..] && b == [b[0]] + b[1..];
    }
  }
}
