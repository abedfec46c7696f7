/** The calculator's fixed-point numbers: 64-bit integers that count millionths.

    `Text` is the decimal form the display shows, `ReadFixed` reads a display back, `MulFixed` and
    `DivFixed` are the guarded product and quotient, and `IntSqrt` is the integer square root. */
module Fixed {
  import opened Bits

  const SCALE: int := 1_000_000
  const FRAC_DIGITS: nat := 6
  const MIN_I64: int := -0x8000_0000_0000_0000
  const MAX_I64: int := 0x7FFF_FFFF_FFFF_FFFF

  predicate InI64(x: int) { MIN_I64 <= x <= MAX_I64 }

  type I64 = x: int | MIN_I64 <= x <= MAX_I64
  type Nat64 = x: nat | x <= MAX_I64

  // ----- decimal digits -----

  predicate IsDigit(c: char) { '0' <= c <= '9' }
  predicate AllDigits(s: string) { forall i :: 0 <= i < |s| ==> IsDigit(s[i]) }

  function DigitChar(n: nat): (c: char)
    requires n < 10
    ensures IsDigit(c) && DigitVal(c) == n
  {
    ('0' as int + n) as char
  }

  function DigitVal(c: char): (n: nat)
    requires IsDigit(c)
    ensures n < 10
  {
    c as int - '0' as int
  }

  /** The number a digit string spells. */
  function Num(s: string): (n: nat)
    requires AllDigits(s)
  {
    if s == [] then 0 else 10 * Num(s[..|s| - 1]) + DigitVal(s[|s| - 1])
  }

  /** Millionths spelled by digit `k` after the point. */
  function PlaceValue(k: nat): (n: nat)
  {
    if k == 0 then 100_000 else if k == 1 then 10_000 else if k == 2 then 1_000
    else if k == 3 then 100 else if k == 4 then 10 else if k == 5 then 1 else 0
  }

  function Times(d: nat, k: nat): (n: nat)
    requires d < 10
    ensures n <= 9 * PlaceValue(k)
  {
    d * PlaceValue(k)
  }

  /** Millionths spelled by the digits after the point. */
  function FracNum(s: string): (n: nat)
    requires AllDigits(s)
  {
    if s == [] then 0 else FracNum(s[..|s| - 1]) + Times(DigitVal(s[|s| - 1]), |s| - 1)
  }

  function Digits(n: nat): (s: string)
    ensures |s| > 0 && AllDigits(s)
  {
    if n < 10 then [DigitChar(n)] else Digits(n / 10) + [DigitChar(n % 10)]
  }

  /** The last `k` digits of `n`, zeros included. */
  function Pad(n: nat, k: nat): (s: string)
    ensures |s| == k && AllDigits(s)
    decreases k
  {
    if k == 0 then [] else Pad(n / 10, k - 1) + [DigitChar(n % 10)]
  }

  function Trim(s: string): (r: string)
    ensures |r| <= |s| && r == s[..|r|] && (r != [] ==> r[|r| - 1] != '0')
  {
    if s != [] && s[|s| - 1] == '0' then Trim(s[..|s| - 1]) else s
  }

  lemma {:induction false} DigitsSpell(n: nat)
    ensures Num(Digits(n)) == n && (Digits(n)[0] == '0' ==> n == 0)
  {
    if n >= 10 {
      DigitsSpell(n / 10);
      assert Digits(n)[..|Digits(n)| - 1] == Digits(n / 10);
    }
  }

  lemma {:induction false} DigitsUnique(s: string)
    requires AllDigits(s) && s != [] && (s[0] == '0' ==> |s| == 1)
    ensures Digits(Num(s)) == s
  {
    var front := s[..|s| - 1];
    if |s| == 1 {
      assert front == [];
      assert s == [DigitChar(DigitVal(s[0]))];
    } else {
      DigitsUnique(front);
      LeadingPositive(front);
      assert s == front + [DigitChar(DigitVal(s[|s| - 1]))];
    }
  }

  lemma {:induction false} LeadingPositive(s: string)
    requires AllDigits(s) && s != [] && s[0] != '0'
    ensures Num(s) > 0
  {
    if |s| > 1 { LeadingPositive(s[..|s| - 1]); }
  }

  lemma PadStep(n: nat, k: nat)
    ensures FracNum(Pad(n, k + 1)) == FracNum(Pad(n / 10, k)) + Times(n % 10, k)
  {
    hide Times, FracNum;
    assert Pad(n, k + 1) == Pad(n / 10, k) + [DigitChar(n % 10)];
    FracLast(Pad(n / 10, k), DigitChar(n % 10));
  }

  lemma FracLast(t: string, c: char)
    requires AllDigits(t) && IsDigit(c)
    ensures AllDigits(t + [c]) && FracNum(t + [c]) == FracNum(t) + Times(DigitVal(c), |t|)
  {
    hide Times;
    assert (t + [c])[..|t|] == t;
  }

  /** Six digits after the point spell the millionths they pad. */
  lemma PadSpells(n: nat)
    requires n < SCALE
    ensures FracNum(Pad(n, 6)) == n
  {
    hide Pad, FracNum;
    var a, b := n / 10, n / 100;
    var c, d, e := n / 1_000, n / 10_000, n / 100_000;
    assert b == a / 10 && c == b / 10 && d == c / 10 && e == d / 10 && e / 10 == 0;
    PadStep(n, 5);
    PadStep(a, 4);
    PadStep(b, 3);
    PadStep(c, 2);
    PadStep(d, 1);
    PadStep(e, 0);
    PadNone();
  }

  lemma PadNone()
    ensures FracNum(Pad(0, 0)) == 0
  {
  }

  lemma {:induction false} TrimKeeps(s: string)
    requires AllDigits(s)
    ensures AllDigits(Trim(s)) && FracNum(Trim(s)) == FracNum(s)
  {
    if s != [] && s[|s| - 1] == '0' { TrimKeeps(s[..|s| - 1]); }
  }

  // ----- the display text -----

  function Abs(v: int): (n: nat) { if v < 0 then -v else v }

  function Fraction(v: int): (s: string) { Trim(Pad(Abs(v) % SCALE, 6)) }

  /** Sign, whole part, and the fraction without its trailing zeros. */
  function Text(v: int): (s: string)
    ensures |s| > 0
  {
    Spelled(v < 0, Digits(Abs(v) / SCALE), Fraction(v))
  }

  function Spelled(neg: bool, whole: string, frac: string): (s: string)
  {
    (if neg then "-" else "") + whole + if frac == "" then "" else "." + frac
  }

  /** A whole part without leading zeros and a fraction of at most six digits without trailing ones. */
  predicate Canonical(neg: bool, whole: string, frac: string)
  {
    && AllDigits(whole) && whole != "" && (whole[0] == '0' ==> whole == "0")
    && AllDigits(frac) && |frac| <= 6 && (frac != "" ==> frac[|frac| - 1] != '0')
    && (neg ==> whole != "0" || frac != "")
  }

  function Millionths(neg: bool, whole: string, frac: string): (v: int)
    requires AllDigits(whole) && AllDigits(frac)
  {
    Signed(neg, Num(whole) * SCALE + FracNum(frac))
  }

  function Signed(neg: bool, n: int): (v: int) { if neg then -n else n }

  /** Every value's text is canonical and spells the value. */
  lemma TextSpells(v: int)
    ensures var whole := Digits(Abs(v) / SCALE);
            Canonical(v < 0, whole, Fraction(v)) && Millionths(v < 0, whole, Fraction(v)) == v
  {
    hide Pad, Trim, FracNum, Digits, Num;
    var n := Abs(v);
    DigitsSpell(n / SCALE);
    DigitsZero();
    PadSpells(n % SCALE);
    TrimKeeps(Pad(n % SCALE, 6));
    FracEmpty();
  }

  lemma FracEmpty()
    ensures FracNum("") == 0 && Num("") == 0
  {
  }

  lemma DigitsZero()
    ensures Digits(0) == "0" && Num("0") == 0
  {
  }

  // ----- the text of a canonical spelling is that spelling -----

  lemma {:induction false} FracBound(s: string)
    requires AllDigits(s)
    ensures |s| <= 6 ==> FracNum(s) + (if |s| == 0 then SCALE else PlaceValue(|s| - 1)) <= SCALE
    ensures |s| > 6 ==> FracNum(s) < SCALE
  {
    if s != [] { FracBound(s[..|s| - 1]); }
  }

  lemma TenTimes(n: nat, d: nat)
    requires d < 10
    ensures (10 * n + d) / 10 == n && (10 * n + d) % 10 == d
  {
  }

  lemma {:induction false} PadUnique(s: string)
    requires AllDigits(s)
    ensures Pad(Num(s), |s|) == s
  {
    if s != [] {
      var front, d := s[..|s| - 1], DigitVal(s[|s| - 1]);
      PadUnique(front);
      TenTimes(Num(front), d);
      assert s == front + [DigitChar(d)];
    }
  }

  lemma FracStep(s: string, k: nat)
    requires AllDigits(s) && k < |s|
    ensures FracNum(s[..k + 1]) == FracNum(s[..k]) + Times(DigitVal(s[k]), k)
    ensures Num(s[..k + 1]) == 10 * Num(s[..k]) + DigitVal(s[k])
  {
    assert s[..k + 1][..k] == s[..k];
  }

  /** Six digits after the point spell the same number as six digits before it. */
  lemma FracIsNum(s: string)
    requires AllDigits(s) && |s| == 6
    ensures FracNum(s) == Num(s)
  {
    hide FracNum, Num;
    assert s[..0] == "" && s[..6] == s;
    FracEmpty();
    FracStep(s, 0);
    assert FracNum(s[..1]) == 100_000 * Num(s[..1]);
    FracStep(s, 1);
    assert FracNum(s[..2]) == 10_000 * Num(s[..2]);
    FracStep(s, 2);
    assert FracNum(s[..3]) == 1_000 * Num(s[..3]);
    FracStep(s, 3);
    assert FracNum(s[..4]) == 100 * Num(s[..4]);
    FracStep(s, 4);
    assert FracNum(s[..5]) == 10 * Num(s[..5]);
    FracStep(s, 5);
  }

  function Zeros(n: nat): (s: string)
    ensures |s| == n && forall i :: 0 <= i < n ==> s[i] == '0'
  {
    seq(n, i => '0')
  }

  lemma {:induction false} TrimZeros(s: string, n: nat)
    requires AllDigits(s) && (s != "" ==> s[|s| - 1] != '0')
    ensures Trim(s + Zeros(n)) == s && AllDigits(s + Zeros(n)) && FracNum(s + Zeros(n)) == FracNum(s)
    decreases n
  {
    var t := s + Zeros(n);
    if n == 0 {
      assert t == s;
    } else {
      assert t[..|t| - 1] == s + Zeros(n - 1);
      TrimZeros(s, n - 1);
    }
  }

  lemma TextUnique(neg: bool, whole: string, frac: string)
    requires Canonical(neg, whole, frac)
    ensures Text(Millionths(neg, whole, frac)) == Spelled(neg, whole, frac)
  {
    hide Pad, Trim, FracNum, Digits, Num;
    var n := Num(whole) * SCALE + FracNum(frac);
    FracBound(frac);
    assert n / SCALE == Num(whole) && n % SCALE == FracNum(frac);
    DigitsUnique(whole);
    DigitsZero();
    TrimZeros(frac, 6 - |frac|);
    FracIsNum(frac + Zeros(6 - |frac|));
    PadUnique(frac + Zeros(6 - |frac|));
    if neg { NotZero(whole, frac); }
  }

  lemma NotZero(whole: string, frac: string)
    requires Canonical(true, whole, frac)
    ensures Num(whole) * SCALE + FracNum(frac) > 0
  {
    if whole == "0" {
      LastPositive(frac);
    } else {
      LeadingPositive(whole);
    }
  }

  lemma LastPositive(frac: string)
    requires AllDigits(frac) && 0 < |frac| <= 6 && frac[|frac| - 1] != '0'
    ensures FracNum(frac) > 0
  {
    var d := DigitVal(frac[|frac| - 1]);
    assert d >= 1;
    TimesPositive(d, |frac| - 1);
  }

  lemma TimesPositive(d: nat, k: nat)
    requires 1 <= d < 10 && k < 6
    ensures Times(d, k) > 0
  {
  }

  // ----- reading a display -----

  datatype Scan = Overflow | Bad | At(i: nat, whole: nat)

  /** The digits of the whole part from `i` on, up to a point or the end. */
  function ScanWhole(t: string, i: nat, whole: nat): (r: Scan)
    requires whole <= MAX_I64
    ensures r.At? ==> r.whole <= MAX_I64
    decreases |t| - i
  {
    if i >= |t| then At(i, whole)
    else if t[i] == '.' then At(i + 1, whole)
    else if !IsDigit(t[i]) then Bad
    else if 10 * whole > MAX_I64 || 10 * whole + DigitVal(t[i]) > MAX_I64 then Overflow
    else ScanWhole(t, i + 1, 10 * whole + DigitVal(t[i]))
  }

  /** The digits after the point, `k` of which are already in `scaled`; further ones than six are dropped. */
  function ScanFrac(t: string, i: nat, k: nat, scaled: nat): (r: Option<nat>)
    ensures r.Some? && scaled <= MAX_I64 ==> r.value <= MAX_I64
    decreases 6 - k
  {
    if i >= |t| || k >= 6 || !IsDigit(t[i]) then Some(scaled)
    else if scaled + Times(DigitVal(t[i]), k) > MAX_I64 then None
    else ScanFrac(t, i + 1, k + 1, scaled + Times(DigitVal(t[i]), k))
  }

  /** The value of a display, or None if it overflows; a blank or malformed one reads as zero. */
  function ReadFixed(t: string): (r: Option<int>)
    ensures r.Some? ==> MIN_I64 < r.value <= MAX_I64
  {
    if t == "" then Some(0)
    else
      match ScanWhole(t, if t[0] == '-' then 1 else 0, 0)
      case Bad => Some(0)
      case Overflow => None
      case At(i, whole) =>
        if whole * SCALE > MAX_I64 then None
        else
          match ScanFrac(t, i, 0, whole * SCALE)
          case None => None
          case Some(n) => Some(Signed(t[0] == '-', n))
  }

  lemma {:induction false} ScanWholeTo(t: string, i: nat, k: nat)
    requires i <= k <= |t| && AllDigits(t[i..k])
    ensures Num(t[i..k]) > MAX_I64 ==> ScanWhole(t, i, 0).Overflow?
    ensures Num(t[i..k]) <= MAX_I64 ==> ScanWhole(t, i, 0) == ScanWhole(t, k, Num(t[i..k]))
    decreases k
  {
    if k > i {
      var s := t[i..k - 1];
      assert t[i..k] == s + [t[k - 1]] && t[i..k][..k - 1 - i] == s;
      assert AllDigits(s) by { forall j | 0 <= j < |s| ensures IsDigit(s[j]) { assert s[j] == t[i..k][j]; } }
      ScanWholeTo(t, i, k - 1);
      assert IsDigit(t[k - 1]) by { assert t[k - 1] == t[i..k][k - 1 - i]; }
    }
  }

  lemma {:induction false} ScanFracTo(t: string, i: nat, k: nat, base: nat)
    requires i <= k <= |t| && k - i <= 6 && AllDigits(t[i..k]) && base <= MAX_I64
    ensures base + FracNum(t[i..k]) > MAX_I64 ==> ScanFrac(t, i, 0, base).None?
    ensures base + FracNum(t[i..k]) <= MAX_I64 ==>
              ScanFrac(t, i, 0, base) == ScanFrac(t, k, k - i, base + FracNum(t[i..k]))
    decreases k
  {
    hide Times, FracNum, ScanFrac;
    if k == i {
      assert t[i..k] == "";
      FracEmpty();
    } else {
      var s := t[i..k - 1];
      assert t[i..k] == s + [t[k - 1]];
      assert AllDigits(s) by { forall j | 0 <= j < |s| ensures IsDigit(s[j]) { assert s[j] == t[i..k][j]; } }
      ScanFracTo(t, i, k - 1, base);
      assert IsDigit(t[k - 1]) by { assert t[k - 1] == t[i..k][k - 1 - i]; }
      FracAppend(s, t[k - 1]);
      ScanFracOne(t, k - 1, k - 1 - i, base + FracNum(s));
    }
  }

  lemma FracAppend(s: string, c: char)
    requires AllDigits(s) && IsDigit(c)
    ensures AllDigits(s + [c]) && FracNum(s + [c]) == FracNum(s) + Times(DigitVal(c), |s|)
  {
    assert (s + [c])[..|s|] == s;
  }

  lemma ScanFracOne(t: string, i: nat, k: nat, scaled: nat)
    requires i < |t| && k < 6 && IsDigit(t[i])
    ensures var n := scaled + Times(DigitVal(t[i]), k);
            ScanFrac(t, i, k, scaled) == if n > MAX_I64 then None else ScanFrac(t, i + 1, k + 1, n)
  {
    hide Times;
  }

  /** Reading a text whose whole part is `t[i..k]` and whose fraction is `t[j..]`. */
  lemma ReadParts(t: string, i: nat, k: nat, j: nat)
    requires t != "" && i == (if t[0] == '-' then 1 else 0) && i <= k <= |t| && |t| - j <= 6
    requires (k == j == |t|) || (k < |t| && t[k] == '.' && j == k + 1)
    requires AllDigits(t[i..k]) && AllDigits(t[j..])
    ensures var n := Num(t[i..k]) * SCALE + FracNum(t[j..]);
            ReadFixed(t) == if n > MAX_I64 then None else Some(Signed(t[0] == '-', n))
  {
    hide Num, FracNum, ScanFrac;
    ScanWholeTo(t, i, k);
    var whole := Num(t[i..k]);
    if whole <= MAX_I64 {
      assert ScanWhole(t, k, whole) == At(j, whole);
      assert t[j..|t|] == t[j..];
      if whole * SCALE <= MAX_I64 {
        ScanFracTo(t, j, |t|, whole * SCALE);
        ScanFracEnd(t, |t| - j, whole * SCALE + FracNum(t[j..]));
      }
    }
  }

  /** Reading any well-formed spelling gives what it spells, unless that is out of range. */
  lemma ReadSpelled(neg: bool, whole: string, frac: string, dot: bool)
    requires AllDigits(whole) && AllDigits(frac) && |frac| <= 6 && (frac != "" ==> dot) && (whole != "" || dot)
    ensures var t := (if neg then "-" else "") + whole + if dot then "." + frac else "";
            ReadFixed(t) == if Num(whole) * SCALE + FracNum(frac) > MAX_I64 then None
                else Some(Millionths(neg, whole, frac))
  {
    hide Num, FracNum, ReadFixed;
    var sign := if neg then "-" else "";
    var t := sign + whole + if dot then "." + frac else "";
    var k := |sign| + |whole|;
    var j := if dot then k + 1 else k;
    assert t[|sign|..k] == whole;
    assert t[j..] == frac;
    ReadParts(t, |sign|, k, j);
  }

  lemma ScanFracEnd(t: string, k: nat, n: nat)
    ensures ScanFrac(t, |t|, k, n) == Some(n)
  {
  }

  /** Format and read are inverse on every value whose negation is in range. */
  lemma RoundTrip(v: int)
    requires MIN_I64 < v <= MAX_I64
    ensures ReadFixed(Text(v)) == Some(v)
  {
    hide Digits, Trim, Pad, Num, FracNum, ReadFixed;
    TextSpells(v);
    var whole, frac := Digits(Abs(v) / SCALE), Fraction(v);
    ReadSpelled(v < 0, whole, frac, frac != "");
  }

  /** Exactly the canonical texts in range are texts of values. */
  lemma CanonicalRoundTrip(neg: bool, whole: string, frac: string)
    requires Canonical(neg, whole, frac) && Num(whole) * SCALE + FracNum(frac) <= MAX_I64
    ensures var t := Spelled(neg, whole, frac);
            ReadFixed(t).Some? && Text(ReadFixed(t).value) == t
  {
    hide Digits, Trim, Pad, Num, FracNum, ReadFixed, Text;
    ReadSpelled(neg, whole, frac, frac != "");
    TextUnique(neg, whole, frac);
  }

  /** How a value looks: -12345600 millionths are written -12.3456. */
  lemma TextSample()
    ensures Text(-12_345_600) == "-12.3456"
  {
    hide Text;
    assert Num("12") == 12 by { assert "12"[..1] == "1" && Num("1") == 1; }
    assert FracNum("34") == 340_000 by { assert "34"[..1] == "3"; }
    assert FracNum("345") == 345_000 by { assert "345"[..2] == "34"; }
    assert FracNum("3456") == 345_600 by { assert "3456"[..3] == "345"; }
    TextUnique(true, "12", "3456");
  }

  // ----- product and quotient -----

  /** Division that truncates toward zero. */
  function Quot(a: int, b: int): (q: int)
    requires b != 0
  {
    Signed((a < 0) != (b < 0), Abs(a) / Abs(b))
  }

  function MulFixed(a: int, b: int): (r: Option<int>)
  {
    var ai := Quot(a, SCALE);
    var af := a - ai * SCALE;
    if !InI64(ai * b) || !InI64(af * b) || !InI64(ai * b + Quot(af * b, SCALE)) then None
    else Some(ai * b + Quot(af * b, SCALE))
  }

  lemma SignOfProduct(x: int, y: int)
    ensures (x >= 0 && y >= 0) || (x <= 0 && y <= 0) ==> x * y >= 0
    ensures (x >= 0 && y <= 0) || (x <= 0 && y >= 0) ==> x * y <= 0
  {
    if x > 0 && y > 0 { ProductSign(x, y); }
    if x < 0 && y > 0 { ProductSign(x, y); }
    if x > 0 && y < 0 { ProductSign(y, x); }
    if x < 0 && y < 0 { ProductSign(-x, -y); assert (-x) * (-y) == x * y; }
  }

  lemma QuotOfSum(x: int, y: int)
    requires (x >= 0 && y >= 0) || (x <= 0 && y <= 0)
    ensures Quot(x * SCALE + y, SCALE) == x + Quot(y, SCALE)
  {
  }

  lemma QuotParts(a: int)
    ensures var ai := Quot(a, SCALE);
            var af := a - ai * SCALE;
            (a >= 0 ==> ai >= 0 && 0 <= af < SCALE) && (a <= 0 ==> ai <= 0 && -SCALE < af <= 0)
  {
  }

  lemma SplitProduct(a: int, b: int, ai: int, af: int)
    requires a == ai * SCALE + af
    ensures a * b == (ai * b) * SCALE + af * b
  {
    assert (ai * SCALE + af) * b == (ai * SCALE) * b + af * b;
    assert (ai * SCALE) * b == (ai * b) * SCALE;
  }

  /** The guarded product succeeds exactly when the truncated product and the partial product of
      `a`'s remainder with `b` are in range, and is then that truncated product. */
  lemma MulExact(a: int, b: int)
    ensures var q := Quot(a * b, SCALE);
            var af := a - Quot(a, SCALE) * SCALE;
            MulFixed(a, b) == if InI64(q) && InI64(af * b) then Some(q) else None
  {
    hide Quot;
    var ai := Quot(a, SCALE);
    var af := a - ai * SCALE;
    QuotParts(a);
    SplitProduct(a, b, ai, af);
    SignOfProduct(ai, b);
    SignOfProduct(af, b);
    SameSide(a, b, ai, af);
    QuotOfSum(ai * b, af * b);
    QuotSign(af * b);
  }

  lemma SameSide(a: int, b: int, ai: int, af: int)
    requires (a >= 0 ==> ai >= 0 && af >= 0) && (a <= 0 ==> ai <= 0 && af <= 0)
    ensures (ai * b >= 0 && af * b >= 0) || (ai * b <= 0 && af * b <= 0)
  {
    SignOfProduct(ai, b);
    SignOfProduct(af, b);
  }

  lemma QuotSign(x: int)
    ensures (x >= 0 ==> 0 <= Quot(x, SCALE) <= x) && (x <= 0 ==> x <= Quot(x, SCALE) <= 0)
  {
  }

  /** Accepted products do not depend on the order of the factors... */
  lemma MulCommutes(a: int, b: int)
    requires MulFixed(a, b).Some? && MulFixed(b, a).Some?
    ensures MulFixed(a, b) == MulFixed(b, a)
  {
    hide MulFixed, Quot;
    MulExact(a, b);
    MulExact(b, a);
    assert a * b == b * a;
  }

  /** ...but whether a product is accepted does: 0.999999 * 9300000 is rejected, 9300000 * 0.999999 is not. */
  lemma MulOrderMatters()
    ensures MulFixed(999_999, 9_300_000_000_000).None?
    ensures MulFixed(9_300_000_000_000, 999_999) == Some(9_299_990_700_000)
  {
  }

  function DivFixed(a: int, b: int): (r: Option<int>)
    requires b != 0
  {
    if !InI64(a * SCALE) then None else Some(Quot(a * SCALE, b))
  }

  lemma DivBounds(n: nat, m: nat)
    requires m > 0
    ensures (n / m) * m <= n < (n / m + 1) * m && n / m <= n
  {
    QuotientLe(n, m);
    assert (n / m + 1) * m == (n / m) * m + m;
  }

  /** A division is accepted exactly if the scaled dividend is in range. The quotient is then the largest
      in size whose product with `b` does not pass it, and never the one value that cannot be negated. */
  lemma DivExact(a: int, b: int)
    requires b != 0
    ensures DivFixed(a, b).Some? <==> InI64(a * SCALE)
    ensures DivFixed(a, b).Some? ==>
              var q := DivFixed(a, b).value;
              && Abs(q) * Abs(b) <= Abs(a) * SCALE < (Abs(q) + 1) * Abs(b)
              && (q > 0 ==> (a < 0) == (b < 0)) && (q < 0 ==> (a < 0) != (b < 0))
              && MIN_I64 < q <= MAX_I64
  {
    hide Quot;
    QuotExact(a * SCALE, b);
    Scaled(a);
  }

  lemma Scaled(a: int)
    ensures a * SCALE == 1_000_000 * a && Abs(a * SCALE) == Abs(a) * SCALE && a * SCALE != MIN_I64
  {
  }

  /** Truncated division, by size and by sign. */
  lemma QuotExact(p: int, b: int)
    requires b != 0
    ensures var q := Quot(p, b);
            && Abs(q) * Abs(b) <= Abs(p) < (Abs(q) + 1) * Abs(b) && Abs(q) <= Abs(p)
            && (q > 0 ==> (p < 0) == (b < 0)) && (q < 0 ==> (p < 0) != (b < 0))
  {
    hide Abs, Signed;
    AbsPositive(b);
    var n, m := Abs(p), Abs(b);
    DivBounds(n, m);
    SignedSize((p < 0) != (b < 0), n / m);
  }

  lemma AbsPositive(b: int)
    requires b != 0
    ensures Abs(b) > 0
  {
  }

  lemma SignedSize(negative: bool, n: nat)
    ensures var q := Signed(negative, n); Abs(q) == n && (q > 0 ==> !negative) && (q < 0 ==> negative)
  {
  }

  // ----- integer square root -----

  const ROOT_CAP: nat := 0x8000_0000

  predicate IsRoot(r: nat, v: nat) { r * r <= v < (r + 1) * (r + 1) }

  lemma RootUnique(r: nat, s: nat, v: nat)
    requires r * r <= v && v < (s + 1) * (s + 1)
    ensures r <= s
  {
    if r >= s + 1 { SquareMono(s + 1, r); }
  }

  lemma SquareMono(a: nat, b: nat)
    requires a <= b
    ensures a * a <= b * b
  {
    var d := b - a;
    assert b * b == a * a + (2 * (a * d) + d * d) by { assert (a + d) * (a + d) == a * a + 2 * (a * d) + d * d; }
    SignOfProduct(a, d);
    SignOfProduct(d, d);
  }

  function Newton(x: nat, v: nat): (n: nat)
    requires x > 0
  {
    QuotientLe(v, x);
    (x + v / x) / 2
  }

  /** A Newton step from `x` does not fall below any root of `v`. */
  lemma NewtonStays(x: nat, v: nat, r: nat)
    requires x > 0 && r * r <= v
    ensures Newton(x, v) >= r
  {
    var q := v / x;
    DivBounds(v, x);
    if (x + q) / 2 < r {
      assert x + q + 1 <= 2 * r;
      MeanSquare(x, q + 1, r);
    }
  }

  /** If x + y is at most 2 r then x y is at most r squared. */
  lemma MeanSquare(x: nat, y: nat, r: nat)
    requires x + y <= 2 * r
    ensures x * y <= r * r
  {
    var d := x - y;
    SignOfProduct(d, d);
    assert (x + y) * (x + y) - d * d == 4 * (x * y);
    SquareMono(x + y, 2 * r);
    assert (2 * r) * (2 * r) == 4 * (r * r);
  }

  /** The integer part of the square root. */
  ghost function Root(v: nat): (r: nat)
    ensures IsRoot(r, v)
  {
    if v == 0 then 0
    else
      var s := Root(v - 1);
      if (s + 1) * (s + 1) <= v then NextSquare(s, v); s + 1 else s
  }

  lemma NextSquare(s: nat, v: nat)
    requires v - 1 < (s + 1) * (s + 1)
    ensures v < (s + 2) * (s + 2)
  {
    assert (s + 2) * (s + 2) == (s + 1) * (s + 1) + 2 * s + 3;
  }

  lemma RootIs(r: nat, v: nat)
    requires IsRoot(r, v)
    ensures Root(v) == r
  {
    hide Root;
    RootUnique(r, Root(v), v);
    RootUnique(Root(v), r, v);
  }

  /** The iterate is at or above the root, or stopped at the cap below it. */
  ghost predicate Above(x: nat, v: nat) { 1 <= x <= ROOT_CAP && (Root(v) <= x || x == ROOT_CAP) }

  lemma BelowStops(x: nat, v: nat)
    requires 1 <= x < Root(v)
    ensures Newton(x, v) >= x
  {
    hide Root;
    SquareMono(x + 1, Root(v));
    if v / x < x {
      DivBounds(v, x);
      TimesMono(v / x + 1, x, x);
    }
  }

  lemma TimesMono(a: nat, b: nat, c: nat)
    requires a <= b
    ensures a * c <= b * c
  {
    SignOfProduct(b - a, c);
    assert (b - a) * c == b * c - a * c;
  }

  lemma StepAbove(x: nat, v: nat)
    requires Above(x, v) && v >= 1 && Newton(x, v) < x
    ensures Above(Newton(x, v), v)
  {
    hide Root;
    if x < Root(v) {
      BelowStops(x, v);
    } else {
      NewtonStays(x, v, Root(v));
      RootPositive(v);
    }
  }

  lemma RootPositive(v: nat)
    requires v >= 1
    ensures Root(v) >= 1
  {
    hide Root;
    RootUnique(1, Root(v), v);
  }

  lemma TooBig(x: nat, v: nat)
    requires x * x > v
    ensures Root(v) < x
  {
    hide Root;
    if x <= Root(v) { SquareMono(x, Root(v)); }
  }

  lemma SquareFits(x: nat)
    requires x <= ROOT_CAP
    ensures x * x <= MAX_I64
  {
    SquareMono(x, ROOT_CAP);
  }

  /** No square and no Newton sum the search forms leaves the 64-bit range. */
  lemma SearchFits(x: nat, v: nat)
    requires v <= MAX_I64 && Above(x, v)
    ensures x * x <= MAX_I64 && 0 <= x + v / x <= MAX_I64
  {
    hide Root;
    SquareFits(x);
    if x == ROOT_CAP {
      assert v / 0x8000_0000 <= 0x1_0000_0000;
    } else {
      SquareMono(Root(v) + 1, x + 1);
      QuotientNear(x, v);
    }
  }

  lemma QuotientNear(x: nat, v: nat)
    requires x > 0 && v < (x + 1) * (x + 1)
    ensures v / x <= x + 2
  {
    DivBounds(v, x);
    assert (x + 3) * x == (x + 1) * (x + 1) + x - 1;
    if v / x > x + 2 { TimesMono(x + 3, v / x, x); }
  }

  /** The square root, cut off at the largest starting point of the search. Every square and every
      sum it forms is a 64-bit number. */
  method IntSqrt(v: I64) returns (r: I64)
    ensures v < 0 ==> r == -1
    ensures v >= 0 ==> r == Min(Root(v), ROOT_CAP)
  {
    hide Root, Newton;
    if v < 0 { return -1; }
    if v < 2 { RootIs(v, v); return v; }
    var x: Nat64 := Double(v);
    var i := 0;
    while i < 64
      invariant Above(x, v)
    {
      SearchFits(x, v);
      var sum: Nat64 := x + v / x;
      var nx: Nat64 := sum / 2;
      assert nx == Newton(x, v) by { NewtonIs(x, v); }
      if nx >= x { break; }
      StepAbove(x, v);
      x := nx;
      i := i + 1;
    }
    SearchFits(x, v);
    var square: Nat64 := x * x;
    while square > v
      invariant Above(x, v) && square == x * x
      decreases x
    {
      TooBig(x, v);
      RootPositive(v);
      x := x - 1;
      SearchFits(x, v);
      square := x * x;
    }
    RootUnique(x, Root(v), v);
    return x;
  }

  lemma NewtonIs(x: nat, v: nat)
    requires x > 0
    ensures Newton(x, v) == (x + v / x) / 2
  {
  }

  /** The starting point: the first power of two whose square passes `v`, or the cap. */
  method Double(v: Nat64) returns (x: Nat64)
    requires 2 <= v
    ensures Above(x, v) && InI64(x * x) && InI64(x + v / x)
    ensures x < ROOT_CAP ==> x * x > v
  {
    hide Root, Pow2, Above;
    x := 1;
    var square: Nat64 := 1;
    ghost var k: nat := 0;
    PowersOfTwo(0);
    Pow2Cap();
    while square <= v && x < ROOT_CAP
      invariant 1 <= x <= ROOT_CAP && k <= 31 && x == Pow2(k) && square == x * x
      decreases ROOT_CAP - x
    {
      PowersOfTwo(k);
      PowerMono(k + 1, 31);
      x, k := 2 * x, k + 1;
      SquareFits(x);
      square := x * x;
    }
    StartAbove(x, v);
    SearchFits(x, v);
  }

  lemma StartAbove(x: nat, v: nat)
    requires 1 <= x <= ROOT_CAP && (x * x > v || x == ROOT_CAP)
    ensures Above(x, v)
  {
    hide Root;
    if x * x > v { TooBig(x, v); }
  }

  lemma PowersOfTwo(k: nat)
    ensures Pow2(0) == 1 && Pow2(k + 1) == 2 * Pow2(k)
  {
  }

  lemma Pow2Cap()
    ensures Pow2(31) == ROOT_CAP
  {
    Pow2Values();
    PowersOfTwo(31);
  }

  lemma {:induction false} PowerMono(a: nat, b: nat)
    requires a <= b
    ensures Pow2(a) <= Pow2(b)
    decreases b
  {
    if a < b { PowerMono(a, b - 1); }
  }

  /** It is the square root exactly below (2^31 + 1) squared. */
  lemma SqrtExactIff(v: nat)
    ensures Min(Root(v), ROOT_CAP) == Root(v) <==> v < (ROOT_CAP + 1) * (ROOT_CAP + 1)
  {
    hide Root;
    if v < (ROOT_CAP + 1) * (ROOT_CAP + 1) {
      RootUnique(Root(v), ROOT_CAP, v);
    } else if Root(v) <= ROOT_CAP {
      SquareMono(Root(v) + 1, ROOT_CAP + 1);
    }
  }

  /** The square root of 9000000 is displayed as 2147.483648, not 3000. */
  lemma SqrtOfNineMillion()
    ensures var v := 9_000_000 * SCALE * SCALE;
            v <= MAX_I64 && Root(v) == 3_000 * SCALE && Min(Root(v), ROOT_CAP) == 2_147_483_648
  {
    RootIs(3_000 * SCALE, 9_000_000 * SCALE * SCALE);
  }

  // ----- the display buffer -----

  lemma {:induction false} DigitsLen(n: nat, k: nat)
    requires n < Ten(k) && k >= 1
    ensures |Digits(n)| <= k
    decreases k
  {
    if n >= 10 {
      assert k > 1;
      DigitsLen(n / 10, k - 1);
    }
  }

  lemma {:induction false} DigitsLong(n: nat, k: nat)
    requires n >= Ten(k)
    ensures |Digits(n)| > k
    decreases k
  {
    if k > 0 { DigitsLong(n / 10, k - 1); }
  }

  function Ten(k: nat): (n: nat) { if k == 0 then 1 else 10 * Ten(k - 1) }

  lemma DigitsEnd(t: nat)
    ensures |Digits(t)| > 0 && Digits(t)[|Digits(t)| - 1] == DigitChar(t % 10)
    ensures if t >= 10 then Digits(t)[..|Digits(t)| - 1] == Digits(t / 10) else |Digits(t)| == 1
  {
  }

  /** The digits of `n`, last one first. */
  method WholeDigits(n: nat, tmp: array<char>) returns (len: nat)
    requires |Digits(n)| <= tmp.Length
    modifies tmp
    ensures len == |Digits(n)| && forall i :: 0 <= i < len ==> tmp[i] == Digits(n)[len - 1 - i]
  {
    hide Digits, DigitChar;
    ghost var d := Digits(n);
    len := 0;
    DigitsEnd(n);
    if n == 0 {
      tmp[0] := DigitChar(0);
      return 1;
    }
    var t := n;
    while t > 0 && len < tmp.Length
      invariant len <= |d| && forall i :: 0 <= i < len ==> tmp[i] == d[|d| - 1 - i]
      invariant if t > 0 then Digits(t) == d[..|d| - len] else len == |d|
    {
      DigitsEnd(t);
      tmp[len] := DigitChar(t % 10);
      t := t / 10;
      len := len + 1;
    }
  }

  /** The six digits of `n`. */
  method SixDigits(n: nat, tmp: array<char>)
    requires tmp.Length == 7
    modifies tmp
    ensures tmp[..6] == Pad(n, 6)
  {
    hide Pad;
    ghost var d := Pad(n, 6);
    var f, i := n, 6;
    assert tmp[6..6] == [];
    while i > 0
      invariant 0 <= i <= 6 && d == Pad(f, i) + tmp[i..6]
    {
      i := i - 1;
      PadLast(f, i);
      ghost var tail := tmp[i + 1..6];
      tmp[i] := DigitChar(f % 10);
      assert tmp[i..6] == [DigitChar(f % 10)] + tail;
      f := f / 10;
    }
    PadLast(f, 0);
    assert tmp[..6] == tmp[0..6];
  }

  lemma PadLast(n: nat, k: nat)
    ensures Pad(n, k + 1) == Pad(n / 10, k) + [DigitChar(n % 10)] && Pad(n, 0) == []
  {
  }

  /** How many of the six digits stay when trailing zeros go. */
  method FracDigits(n: nat, tmp: array<char>) returns (len: nat)
    requires tmp.Length == 7
    modifies tmp
    ensures len == |Trim(Pad(n, 6))| <= 6 && tmp[..len] == Trim(Pad(n, 6))
  {
    hide Pad;
    SixDigits(n, tmp);
    ghost var d := Pad(n, 6);
    len := 6;
    assert d[..6] == d;
    while len > 0 && tmp[len - 1] == '0'
      invariant len <= 6 && Trim(d) == Trim(d[..len])
    {
      assert d[..len][..len - 1] == d[..len - 1];
      assert d[len - 1] == tmp[..6][len - 1];
      len := len - 1;
    }
    assert len > 0 ==> d[len - 1] == tmp[..6][len - 1];
    assert tmp[..len] == tmp[..6][..len];
  }

  /** Where each character of a spelled text comes from. */
  lemma SpelledAt(neg: bool, whole: string, frac: string, i: nat)
    requires i < |Spelled(neg, whole, frac)|
    ensures var s := if neg then 1 else 0;
            Spelled(neg, whole, frac)[i] ==
            if i < s then '-' else if i < s + |whole| then whole[i - s]
            else if i == s + |whole| then '.' else frac[i - s - |whole| - 1]
  {
  }

  /** Write sign, whole part (kept last digit first) and fraction one after the other. */
  method PutText(neg: bool, whole: array<char>, wholeLen: nat, frac: array<char>, fracLen: nat, out: array<char>,
                 ghost text: string, ghost w: string)
    returns (n: nat)
    requires wholeLen <= whole.Length && fracLen <= frac.Length && out != whole && out != frac
    requires |w| == wholeLen && forall i :: 0 <= i < wholeLen ==> whole[i] == w[wholeLen - 1 - i]
    requires text == Spelled(neg, w, frac[..fracLen]) && |text| < out.Length
    modifies out
    ensures n == |text| && out[..n] == text && out[n] == '\0'
  {
    hide Spelled;
    ghost var f := frac[..fracLen];
    SpelledLen(neg, w, f);
    n := 0;
    if neg {
      SpelledAt(neg, w, f, 0);
      out[0] := '-';
      n := 1;
    }
    ghost var s := n;
    for i := 0 to wholeLen
      invariant n == s + i && out[..n] == text[..n]
    {
      SpelledAt(neg, w, f, n);
      out[n] := whole[wholeLen - 1 - i];
      n := n + 1;
    }
    if fracLen > 0 {
      SpelledAt(neg, w, f, n);
      out[n] := '.';
      n := n + 1;
      for i := 0 to fracLen
        invariant n == s + wholeLen + 1 + i && out[..n] == text[..n]
      {
        SpelledAt(neg, w, f, n);
        out[n] := frac[i];
        n := n + 1;
      }
    }
    out[n] := '\0';
    assert text[..n] == text;
  }

  lemma SpelledLen(neg: bool, whole: string, frac: string)
    ensures |Spelled(neg, whole, frac)| == (if neg then 1 else 0) + |whole| + if frac == "" then 0 else 1 + |frac|
  {
  }

  /** Write the text of `v` if it has at most `cap` characters; otherwise leave the buffer alone. */
  method FormatFixed(v: int, out: array<char>, cap: nat) returns (n: nat)
    requires MIN_I64 < v <= MAX_I64 && cap < out.Length
    modifies out
    ensures |Text(v)| > cap ==> n == 0 && out[..] == old(out[..])
    ensures |Text(v)| <= cap ==> n == |Text(v)| && out[..n] == Text(v) && out[n] == '\0'
  {
    hide Digits, Trim, Pad, Spelled;
    var neg := v < 0;
    var abs := if neg then -v else v;
    var itmp, ftmp := new char[24], new char[7];
    DigitsLen(abs / SCALE, 13) by { TenThirteen(); }
    var wholeLen := WholeDigits(abs / SCALE, itmp);
    var fracLen := FracDigits(abs % SCALE, ftmp);
    SpelledLen(neg, Digits(abs / SCALE), ftmp[..fracLen]);
    var total := (if neg then 1 else 0) + wholeLen + if fracLen > 0 then 1 + fracLen else 0;
    if total > cap { return 0; }
    n := PutText(neg, itmp, wholeLen, ftmp, fracLen, out, Text(v), Digits(abs / SCALE));
  }

  lemma TenThirteen()
    ensures Ten(13) == 10_000_000_000_000
  {
    assert Ten(4) == 10_000;
    assert Ten(8) == 100_000_000;
    assert Ten(12) == 1_000_000_000_000;
  }

  method ReadWhole(display: array<char>, len: nat, start: nat) returns (r: Scan)
    requires start <= len <= display.Length
    ensures r == ScanWhole(display[..len], start, 0)
  {
    ghost var t := display[..len];
    var i, whole := start, 0;
    while i < len
      invariant i <= len && 0 <= whole <= MAX_I64 && ScanWhole(t, start, 0) == ScanWhole(t, i, whole)
    {
      var c := display[i];
      if c == '.' { return At(i + 1, whole); }
      if c < '0' || c > '9' { return Bad; }
      if 10 * whole > MAX_I64 || 10 * whole + (c as int - '0' as int) > MAX_I64 { return Overflow; }
      whole := 10 * whole + (c as int - '0' as int);
      i := i + 1;
    }
    return At(i, whole);
  }

  method ReadFrac(display: array<char>, len: nat, first: nat, base: nat) returns (r: Option<nat>)
    requires len <= display.Length && base <= MAX_I64
    ensures r == ScanFrac(display[..len], first, 0, base)
  {
    hide Times, PlaceValue;
    ghost var t := display[..len];
    var i, scaled: nat, place := first, base, SCALE / 10;
    ghost var k := 0;
    PlaceStep(0);
    while i < len && place > 0
      invariant k <= 6 && place == PlaceValue(k) && ScanFrac(t, first, 0, base) == ScanFrac(t, i, k, scaled)
    {
      var c := display[i];
      if c < '0' || c > '9' { return Some(scaled); }
      var term := (c as int - '0' as int) * place;
      PlaceStep(k);
      PlaceStep(k + 1);
      TimesIs(DigitVal(c), k);
      if scaled + term > MAX_I64 { return None; }
      scaled := scaled + term;
      place := place / 10;
      i := i + 1;
      k := k + 1;
    }
    PlaceStep(k);
    return Some(scaled);
  }

  /** Read the display; `overflow` tells when its value is out of range. */
  method ReadDisplayAsFixed(display: array<char>, len: nat) returns (v: int, overflow: bool)
    requires len <= display.Length
    ensures match ReadFixed(display[..len]) case None => overflow && v == 0 case Some(x) => !overflow && v == x
  {
    hide ScanWhole, ScanFrac;
    v, overflow := 0, false;
    if len == 0 { return; }
    var neg := display[0] == '-';
    var whole := ReadWhole(display, len, if neg then 1 else 0);
    if whole.Bad? { return; }
    if whole.Overflow? || whole.whole * SCALE > MAX_I64 { return 0, true; }
    var n := ReadFrac(display, len, whole.i, whole.whole * SCALE);
    if n.None? { return 0, true; }
    v := Signed(neg, n.value);
  }

  /** The places of the six digits after the point, each a tenth of the one before. */
  lemma PlaceStep(k: nat)
    ensures PlaceValue(0) == SCALE / 10 && PlaceValue(k + 1) == PlaceValue(k) / 10
    ensures PlaceValue(k) > 0 <==> k < 6
  {
  }

  lemma TimesIs(d: nat, k: nat)
    requires d < 10
    ensures Times(d, k) == d * PlaceValue(k)
  {
  }
}
