/** The 64-bit integer operators of the interpreter, with their opcodes. */
module Alu {
  import opened Bits

  datatype BinOp = Add | Subtract | Multiply | ShiftLeft | ShiftRight | AndOp | Nand | OrOp | Nor | XorOp | ModOp

  function Opcode(o: BinOp): (b: Byte)
    ensures BinOpOf(b) == Some(o)
  {
    match o
    case Add => 0x72
    case Subtract => 0x74
    case Multiply => 0x77
    case ShiftLeft => 0x79
    case ShiftRight => 0x7A
    case AndOp => 0x7B
    case Nand => 0x7C
    case OrOp => 0x7D
    case Nor => 0x7E
    case XorOp => 0x7F
    case ModOp => 0x85
  }

  function BinOpOf(b: Byte): (o: Option<BinOp>)
  {
    match b
    case 0x72 => Some(Add)
    case 0x74 => Some(Subtract)
    case 0x77 => Some(Multiply)
    case 0x79 => Some(ShiftLeft)
    case 0x7A => Some(ShiftRight)
    case 0x7B => Some(AndOp)
    case 0x7C => Some(Nand)
    case 0x7D => Some(OrOp)
    case 0x7E => Some(Nor)
    case 0x7F => Some(XorOp)
    case 0x85 => Some(ModOp)
    case _ => None
  }

  lemma OpBounds(a: U64, b: U64)
    ensures And(a, b) < TWO64 && Or(a, b) < TWO64 && Xor(a, b) < TWO64
    ensures Inv(And(a, b), 64) < TWO64 && Inv(Or(a, b), 64) < TWO64 && Inv(a, 64) < TWO64
    ensures b < 64 ==> Low(Shl(a, b), 64) < TWO64
  {
    Pow2Values();
    OpsBound(a, b, 64);
    InvBound(And(a, b), 64);
    InvBound(Or(a, b), 64);
    InvBound(a, 64);
    LowBound(Shl(a, b), 64);
  }

  /** Unsigned 64-bit arithmetic: wrap-around, shifts of 64 or more give zero, modulo zero gives zero. */
  function Apply(o: BinOp, a: U64, b: U64): (r: U64)
  {
    OpBounds(a, b);
    match o
    case Add => (a + b) % TWO64
    case Subtract => (a - b) % TWO64
    case Multiply => (a * b) % TWO64
    case ShiftLeft => if b >= 64 then 0 else Low(Shl(a, b), 64)
    case ShiftRight => if b >= 64 then 0 else Shr(a, b)
    case AndOp => And(a, b)
    case Nand => Inv(And(a, b), 64)
    case OrOp => Or(a, b)
    case Nor => Inv(Or(a, b), 64)
    case XorOp => Xor(a, b)
    case ModOp => if b != 0 then a % b else 0
  }

  /** Division; dividing by zero gives zero. */
  function Quotient(a: U64, b: U64): (q: U64)
  {
    if b != 0 then QuotientLe(a, b); a / b else 0
  }

  /** Addition counts: adding one more is counting one further, and after the last number comes zero. */
  lemma AddCounts(a: U64, b: U64)
    requires b + 1 < TWO64
    ensures Apply(Add, a, 0) == a
    ensures Apply(Add, a, b + 1) == if Apply(Add, a, b) == ONES then 0 else Apply(Add, a, b) + 1
  {
    hide Inv, And, Or, Xor, Low, Shl, Shr;
    ModStep(a, TWO64);
    ModStep(a + b, TWO64);
  }

  /** Counting on past `m` starts again at zero. */
  lemma ModStep(x: nat, m: nat)
    requires m > 1
    ensures x < m ==> x % m == x
    ensures (x + 1) % m == if x % m == m - 1 then 0 else x % m + 1
  {
    if x < m { ModUnique(x, m, 0, x); }
    var q, r := x / m, x % m;
    assert x == q * m + r;
    if r == m - 1 {
      assert x + 1 == (q + 1) * m + 0;
      ModUnique(x + 1, m, q + 1, 0);
    } else {
      ModUnique(x + 1, m, q, r + 1);
    }
  }

  /** Multiplication is repeated addition. */
  lemma MultiplyRepeats(a: U64, b: U64)
    requires b + 1 < TWO64
    ensures Apply(Multiply, a, 0) == 0
    ensures Apply(Multiply, a, b + 1) == Apply(Add, Apply(Multiply, a, b), a)
  {
    hide Inv, And, Or, Xor, Low, Shl, Shr;
    assert a * (b + 1) == a * b + a;
    ModOfSum(a * b, a);
  }

  lemma ModOfSum(x: nat, a: nat)
    ensures (x + a) % TWO64 == (x % TWO64 + a) % TWO64
  {
    var q, r := x / TWO64, x % TWO64;
    var q', r' := (r + a) / TWO64, (r + a) % TWO64;
    assert x + a == (q + q') * TWO64 + r';
    ModUnique(x + a, TWO64, q + q', r');
  }

  /** Addition and subtraction undo each other, wrap-around included. */
  lemma SubtractUndoesAdd(a: U64, b: U64)
    ensures Apply(Subtract, Apply(Add, a, b), b) == a && Apply(Add, Apply(Subtract, a, b), b) == a
  {
    hide Inv, And, Or, Xor, Low, Shl, Shr;
    assert Apply(Add, a, b) == if a + b < TWO64 then a + b else a + b - TWO64;
    assert Apply(Subtract, a, b) == if a >= b then a - b else a - b + TWO64;
  }

  /** Shifts multiply and divide by powers of two, for every count. */
  lemma ShiftMeans(a: U64, b: U64)
    ensures Apply(ShiftLeft, a, b) == a * Pow2(b) % TWO64 && Apply(ShiftRight, a, b) == a / Pow2(b)
  {
    hide Inv, And, Or, Xor, Low, Shl, Shr, Pow2;
    Pow2Values();
    if b < 64 {
      ShlIsTimes(a, b);
      LowIsMod(Shl(a, b), 64);
      ShrIsDiv(a, b);
    } else {
      WideShift(a, b);
    }
  }

  lemma WideShift(a: U64, b: nat)
    requires b >= 64
    ensures a * Pow2(b) % TWO64 == 0 && a / Pow2(b) == 0
  {
    hide Pow2;
    Pow2Values();
    var k := Pow2(b - 64);
    Pow2Add(64, b - 64);
    ProductSign(k, TWO64);
    ModUnique(a, Pow2(b), 0, a);
    assert a * (TWO64 * k) == (a * k) * TWO64;
    ModUnique(a * Pow2(b), TWO64, a * k, 0);
  }

  /** What a bitwise operator does to one bit of each operand. */
  predicate Gate(o: BinOp, x: bool, y: bool)
  {
    match o
    case AndOp => x && y
    case Nand => !(x && y)
    case OrOp => x || y
    case Nor => !(x || y)
    case XorOp => x != y
    case _ => false
  }

  lemma BitwiseMeans(o: BinOp, a: U64, b: U64, i: nat)
    requires o in {AndOp, Nand, OrOp, Nor, XorOp} && i < 64
    ensures Bit(Apply(o, a, b), i) <==> Gate(o, Bit(a, i), Bit(b, i))
  {
    hide Inv, And, Or, Xor, Low, Shl, Shr, Bit;
    BitAnd(a, b, i);
    BitOr(a, b, i);
    BitXor(a, b, i);
    BitInv(And(a, b), 64, i);
    BitInv(Or(a, b), 64, i);
  }

  /** Divide's two results recompose the dividend; dividing by zero gives zero twice. */
  lemma DivideMeans(a: U64, b: U64)
    ensures if b == 0 then Quotient(a, b) == 0 && Apply(ModOp, a, b) == 0
            else Quotient(a, b) * b + Apply(ModOp, a, b) == a && Apply(ModOp, a, b) < b
  {
    hide Inv, And, Or, Xor, Low, Shl, Shr;
  }

  datatype UnOp = NotOp | FindSetLeft | FindSetRight

  function UnOpcode(o: UnOp): (b: Byte)
  {
    match o
    case NotOp => 0x80
    case FindSetLeft => 0x81
    case FindSetRight => 0x82
  }

  /** One more than the index of the highest set bit below `n`; zero if there is none. */
  function HighestBelow(a: nat, n: nat): (r: nat)
    ensures r <= n
  {
    if n == 0 then 0 else if Bit(a, n - 1) then n else HighestBelow(a, n - 1)
  }

  /** One more than the index of the lowest set bit in `i..64`; zero if there is none. */
  function LowestFrom(a: nat, i: nat): (r: nat)
    requires i <= 64
    ensures r <= 64
    decreases 64 - i
  {
    if i == 64 then 0 else if Bit(a, i) then i + 1 else LowestFrom(a, i + 1)
  }

  function ApplyUn(o: UnOp, a: U64): (r: U64)
  {
    OpBounds(a, a);
    match o
    case NotOp => Inv(a, 64)
    case FindSetLeft => HighestBelow(a, 64)
    case FindSetRight => LowestFrom(a, 0)
  }

  /** Not turns every bit over. */
  lemma NotMeans(a: U64, i: nat)
    requires i < 64
    ensures Bit(ApplyUn(NotOp, a), i) <==> !Bit(a, i)
  {
    hide Inv, Bit;
    BitInv(a, 64, i);
  }

  lemma {:induction false} HighestIs(a: nat, n: nat)
    ensures var r := HighestBelow(a, n);
            && (r > 0 ==> Bit(a, r - 1))
            && (forall i :: r <= i < n ==> !Bit(a, i))
  {
    if n > 0 && !Bit(a, n - 1) { HighestIs(a, n - 1); }
  }

  lemma {:induction false} LowestIs(a: nat, i: nat)
    requires i <= 64
    ensures var r := LowestFrom(a, i);
            && (r > 0 ==> r > i && Bit(a, r - 1))
            && (forall j :: i <= j < (if r == 0 then 64 else r - 1) ==> !Bit(a, j))
    decreases 64 - i
  {
    if i < 64 && !Bit(a, i) { LowestIs(a, i + 1); }
  }

  /** FindSetLeftBit is the bit length; both searches give zero exactly for zero. */
  lemma FindSetMeans(a: U64)
    ensures a < Pow2(ApplyUn(FindSetLeft, a))
    ensures ApplyUn(FindSetLeft, a) == 0 <==> a == 0
    ensures ApplyUn(FindSetRight, a) == 0 <==> a == 0
    ensures a != 0 ==> Bit(a, ApplyUn(FindSetLeft, a) - 1) && Bit(a, ApplyUn(FindSetRight, a) - 1)
    ensures a != 0 ==> forall j :: 0 <= j < ApplyUn(FindSetRight, a) - 1 ==> !Bit(a, j)
  {
    HighestIs(a, 64);
    LowestIs(a, 0);
    Pow2Values();
    forall i: nat | i >= 64 ensures !Bit(a, i) { HighBitsClear(a, 64, i); }
    BitsBound(a, HighestBelow(a, 64));
    if LowestFrom(a, 0) == 0 {
      forall i: nat ensures Bit(a, i) == Bit(0, i) { BitZero(i); }
      BitsDetermine(a, 0);
    }
    if a == 0 {
      forall i: nat ensures !Bit(a, i) { BitZero(i); }
    }
  }

  method FindLeftLoop(a: U64) returns (r: U64)
    ensures r == ApplyUn(FindSetLeft, a)
  {
    var i := 63;
    while i >= 0
      invariant -1 <= i <= 63
      invariant HighestBelow(a, 64) == HighestBelow(a, i + 1)
    {
      if Bit(a, i) { return i + 1; }
      i := i - 1;
    }
    r := 0;
  }

  method FindRightLoop(a: U64) returns (r: U64)
    ensures r == ApplyUn(FindSetRight, a)
  {
    var i := 0;
    while i < 64
      invariant 0 <= i <= 64
      invariant LowestFrom(a, 0) == LowestFrom(a, i)
    {
      if Bit(a, i) { return i + 1; }
      i := i + 1;
    }
    r := 0;
  }

  datatype Logic = LAnd | LOr | LEqual | LGreater | LLess

  function LogicOpcode(o: Logic): (b: Byte)
    ensures LogicOf(b) == Some(o)
  {
    match o
    case LAnd => 0x90
    case LOr => 0x91
    case LEqual => 0x93
    case LGreater => 0x94
    case LLess => 0x95
  }

  function LogicOf(b: Byte): (o: Option<Logic>)
  {
    match b
    case 0x90 => Some(LAnd)
    case 0x91 => Some(LOr)
    case 0x93 => Some(LEqual)
    case 0x94 => Some(LGreater)
    case 0x95 => Some(LLess)
    case _ => None
  }

  predicate Holds(o: Logic, a: U64, b: U64)
  {
    match o
    case LAnd => a != 0 && b != 0
    case LOr => a != 0 || b != 0
    case LEqual => a == b
    case LGreater => a > b
    case LLess => a < b
  }

  /** ACPI truth: all ones or zero. */
  function Truth(b: bool): (r: U64) { if b then ONES else 0 }

  /** The comparisons by counting: nothing is less than zero, and what is less than the next number is
      less than or equal to this one. The connectives ask whether their operands equal zero. */
  lemma LogicMeans(a: U64, b: U64)
    ensures Holds(LEqual, a, b) <==> Apply(Subtract, a, b) == 0
    ensures !Holds(LLess, a, 0)
    ensures b < ONES ==> (Holds(LLess, a, b + 1) <==> Holds(LLess, a, b) || Holds(LEqual, a, b))
    ensures Holds(LGreater, a, b) <==> Holds(LLess, b, a)
    ensures Holds(LAnd, a, b) <==> !Holds(LEqual, a, 0) && !Holds(LEqual, b, 0)
    ensures Holds(LOr, a, b) <==> !Holds(LEqual, a, 0) || !Holds(LEqual, b, 0)
  {
    hide Inv, And, Or, Xor, Low, Shl, Shr;
    assert Apply(Subtract, a, b) == if a >= b then a - b else a - b + TWO64;
  }

  lemma {:induction false} MaskSize(n: nat)
    ensures Mask(n) + 1 == Pow2(n)
  {
    if n > 0 { MaskSize(n - 1); }
  }

  /** Every bit of a truth value is that truth. */
  lemma TruthMeans(b: bool, i: nat)
    requires i < 64
    ensures Bit(Truth(b), i) <==> b
  {
    hide Bit, Mask;
    Pow2Values();
    MaskSize(64);
    BitMask(64, i);
    BitZero(i);
  }
}
