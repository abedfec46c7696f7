/** What the operator opcodes compute, byte by byte: the code of a method that combines its first two
    arguments, written out, and the number it returns in every namespace. */
module Operators {
  import opened Bits
  import opened PkgLength
  import opened Names
  import opened Regions
  import opened Alu
  import opened Interp
  import opened Ast
  import opened Represent
  import opened Api
  import opened Defined

  function TwoArgs(a: U64, b: U64): (args: seq<Value>)
    ensures |args| == 7 && AllPlain(args)
  {
    [Int(a), Int(b), Uninit, Uninit, Uninit, Uninit, Uninit]
  }

  /** Called with `a` and `b`, the code returns the integer `n` and leaves the regions alone. */
  ghost predicate Yields(c: Env, code: seq<Byte>, a: U64, b: U64, w: World, n: int)
    requires WorldOk(w)
  {
    var r := EvaluateRaw(c, code, TwoArgs(a, b), 2, w);
    r.Some? && r.value.val.Int? && r.value.val.n == n && r.value.st.world == w
  }

  ghost function Begin(a: U64, b: U64, w: World): (t: TSt)
    requires WorldOk(w)
    ensures TOk(t) && t.world == w && t.argc == 2 && t.args[0] == TInt(a) && t.args[1] == TInt(b)
  {
    TStart([], TwoArgs(a, b), 2, w)
  }

  /** A body without names that returns an integer. */
  lemma BodyYields(c: Env, body: seq<Stmt>, a: U64, b: U64, w: World, n: U64, end: TSt)
    requires WorldOk(w) && WfStmts(body) && NamelessStmts(body) && end.world == w
    requires Run(Knowing(c, map[]), body, Begin(a, b, w), c.top) == Some(Out(Returned(TInt(n)), end))
    ensures Yields(c, EncStmts(body), a, b, w, n)
  {
    hide Run, EvaluateRaw, EncStmts, WfStmts, NamelessStmts, Knowing;
    NamelessCorrect(c, body, TwoArgs(a, b), 2, w);
  }

  /** A single Return of a term without names. */
  lemma TermYields(c: Env, e: Expr, a: U64, b: U64, w: World, n: U64)
    requires WorldOk(w) && Wf(e) && Height(e) <= MAX_EXPR_DEPTH && Nameless(e)
    requires Sem(Knowing(c, map[]), e, Begin(a, b, w), c.top) == Some(EV(TInt(n), Begin(a, b, w)))
    ensures Yields(c, [0xA4] + Enc(e), a, b, w, n)
  {
    hide Sem, Wf, Height, Nameless, Enc, Yields, Knowing, Begin;
    var s := Return(e);
    OneWf(s);
    assert RunOne(Knowing(c, map[]), s, Begin(a, b, w), c.top) == Some(Out(Returned(TInt(n)), Begin(a, b, w)));
    BodyYields(c, [s], a, b, w, n, Begin(a, b, w));
  }

  lemma ArgTerms(g: Program, a: U64, b: U64, w: World, rank: nat)
    requires WorldOk(w)
    ensures var t := Begin(a, b, w);
            Sem(g, Arg(0), t, rank) == Some(EV(TInt(a), t)) && Sem(g, Arg(1), t, rank) == Some(EV(TInt(b), t))
    ensures forall i :: 0 <= i < 2 ==> Wf(Arg(i)) && Height(Arg(i)) <= 1 && Nameless(Arg(i))
    ensures Enc(Arg(0)) == [0x68] && Enc(Arg(1)) == [0x69]
  {
  }

  /** Two operands, taken from the arguments in order. */
  lemma Operands(g: Program, e: Expr, a: U64, b: U64, w: World, rank: nat)
    requires WorldOk(w) && HasTwo(e) && e.a == Arg(0) && e.b == Arg(1)
    ensures SemTwo(g, e, Begin(a, b, w), rank) == Some(Pair(TInt(a), TInt(b), Begin(a, b, w)))
  {
    hide Sem, Begin;
    ArgTerms(g, a, b, w, rank);
  }

  // ----- arithmetic -----

  lemma BinYields(c: Env, o: BinOp, a: U64, b: U64, w: World)
    requires WorldOk(w)
    ensures Yields(c, [0xA4, Opcode(o), 0x68, 0x69, 0x00], a, b, w, Apply(o, a, b))
  {
    hide Apply, Opcode, Yields, Begin, Knowing;
    var e, g := Bin(o, Arg(0), Arg(1), Nowhere), Knowing(c, map[]);
    ArgTerms(g, a, b, w, c.top);
    Operands(g, e, a, b, w, c.top);
    assert Sem(g, e, Begin(a, b, w), c.top) == TwoSem(g, e, Begin(a, b, w), c.top);
    assert Wf(e) && Height(e) <= 2 && Nameless(e);
    assert Enc(e) == [Opcode(o)] + ([0x68] + ([0x69] + [0]));
    TermYields(c, e, a, b, w, Apply(o, a, b));
    assert [0xA4] + Enc(e) == [0xA4, Opcode(o), 0x68, 0x69, 0x00];
  }

  /** Add, Subtract, Multiply, the shifts and Mod are arithmetic modulo 2^64, Mod by zero giving zero. */
  lemma ArithmeticBytes(c: Env, a: U64, b: U64, w: World)
    requires WorldOk(w)
    ensures Yields(c, [0xA4, 0x72, 0x68, 0x69, 0x00], a, b, w, (a + b) % TWO64)
    ensures Yields(c, [0xA4, 0x74, 0x68, 0x69, 0x00], a, b, w, (a - b) % TWO64)
    ensures Yields(c, [0xA4, 0x77, 0x68, 0x69, 0x00], a, b, w, a * b % TWO64)
    ensures Yields(c, [0xA4, 0x79, 0x68, 0x69, 0x00], a, b, w, a * Pow2(b) % TWO64)
    ensures Yields(c, [0xA4, 0x7A, 0x68, 0x69, 0x00], a, b, w, a / Pow2(b))
    ensures Yields(c, [0xA4, 0x85, 0x68, 0x69, 0x00], a, b, w, if b == 0 then 0 else a % b)
  {
    hide Yields, Pow2;
    BinYields(c, Add, a, b, w);
    BinYields(c, Subtract, a, b, w);
    BinYields(c, Multiply, a, b, w);
    BinYields(c, ShiftLeft, a, b, w);
    BinYields(c, ShiftRight, a, b, w);
    BinYields(c, ModOp, a, b, w);
    ShiftMeans(a, b);
  }

  /** Divide returns the quotient, zero for a divisor of zero. */
  lemma DivideBytes(c: Env, a: U64, b: U64, w: World)
    requires WorldOk(w)
    ensures Yields(c, [0xA4, 0x78, 0x68, 0x69, 0x00, 0x00], a, b, w, if b == 0 then 0 else a / b)
  {
    hide Apply, Yields, Begin, Knowing;
    var e, g := DivideE(Arg(0), Arg(1), Nowhere, Nowhere), Knowing(c, map[]);
    ArgTerms(g, a, b, w, c.top);
    Operands(g, e, a, b, w, c.top);
    assert Sem(g, e, Begin(a, b, w), c.top) == TwoSem(g, e, Begin(a, b, w), c.top);
    assert Wf(e) && Height(e) <= 2 && Nameless(e);
    assert Enc(e) == [0x78] + ([0x68] + ([0x69] + ([0] + [0])));
    TermYields(c, e, a, b, w, Quotient(a, b));
    assert [0xA4] + Enc(e) == [0xA4, 0x78, 0x68, 0x69, 0x00, 0x00];
  }

  /** And, Nand, Or, Nor and Xor work on each bit by itself. */
  lemma BitwiseBytes(c: Env, op: Byte, a: U64, b: U64, w: World) returns (n: U64)
    requires WorldOk(w) && 0x7B <= op <= 0x7F
    ensures Yields(c, [0xA4, op, 0x68, 0x69, 0x00], a, b, w, n)
    ensures forall i :: 0 <= i < 64 ==>
              (Bit(n, i) <==> match op
                              case 0x7B => Bit(a, i) && Bit(b, i)
                              case 0x7C => !(Bit(a, i) && Bit(b, i))
                              case 0x7D => Bit(a, i) || Bit(b, i)
                              case 0x7E => !(Bit(a, i) || Bit(b, i))
                              case _ => Bit(a, i) != Bit(b, i))
  {
    hide Yields, Bit, Apply;
    var o := BinOpOf(op).value;
    n := Apply(o, a, b);
    BinYields(c, o, a, b, w);
    forall i | 0 <= i < 64 ensures Bit(n, i) <==> Gate(o, Bit(a, i), Bit(b, i)) { BitwiseMeans(o, a, b, i); }
  }

  // ----- one operand -----

  lemma UnYields(c: Env, o: UnOp, a: U64, b: U64, w: World)
    requires WorldOk(w)
    ensures Yields(c, [0xA4, UnOpcode(o), 0x68, 0x00], a, b, w, ApplyUn(o, a))
  {
    hide ApplyUn, UnOpcode, Yields, Begin, Knowing;
    var e, g := Un(o, Arg(0), Nowhere), Knowing(c, map[]);
    ArgTerms(g, a, b, w, c.top);
    assert Sem(g, e, Begin(a, b, w), c.top) == OneSem(g, e, Begin(a, b, w), c.top);
    assert Wf(e) && Height(e) <= 2 && Nameless(e);
    assert Enc(e) == [UnOpcode(o)] + ([0x68] + [0]);
    TermYields(c, e, a, b, w, ApplyUn(o, a));
    assert [0xA4] + Enc(e) == [0xA4, UnOpcode(o), 0x68, 0x00];
  }

  /** Not turns every bit over; FindSetLeftBit and FindSetRightBit give one more than the index of the
      highest and of the lowest set bit, zero if there is none. */
  lemma UnaryBytes(c: Env, a: U64, b: U64, w: World) returns (not: U64, left: U64, right: U64)
    requires WorldOk(w)
    ensures Yields(c, [0xA4, 0x80, 0x68, 0x00], a, b, w, not) && forall i :: 0 <= i < 64 ==> Bit(not, i) != Bit(a, i)
    ensures Yields(c, [0xA4, 0x81, 0x68, 0x00], a, b, w, left) && (left == 0 <==> a == 0) && a < Pow2(left)
    ensures Yields(c, [0xA4, 0x82, 0x68, 0x00], a, b, w, right) && (right == 0 <==> a == 0)
    ensures a != 0 ==> Bit(a, left - 1) && Bit(a, right - 1) && forall j :: 0 <= j < right - 1 ==> !Bit(a, j)
  {
    hide Yields, Bit, ApplyUn;
    not, left, right := ApplyUn(NotOp, a), ApplyUn(FindSetLeft, a), ApplyUn(FindSetRight, a);
    UnYields(c, NotOp, a, b, w);
    UnYields(c, FindSetLeft, a, b, w);
    UnYields(c, FindSetRight, a, b, w);
    FindSetMeans(a);
    forall i | 0 <= i < 64 ensures Bit(not, i) != Bit(a, i) { NotMeans(a, i); }
  }

  // ----- logic -----

  lemma LogicYields(c: Env, o: Logic, a: U64, b: U64, w: World)
    requires WorldOk(w)
    ensures Yields(c, [0xA4, LogicOpcode(o), 0x68, 0x69], a, b, w, Truth(Holds(o, a, b)))
  {
    hide Holds, LogicOpcode, Yields, Begin, Knowing;
    var e, g := LogicE(o, Arg(0), Arg(1)), Knowing(c, map[]);
    ArgTerms(g, a, b, w, c.top);
    Operands(g, e, a, b, w, c.top);
    assert Sem(g, e, Begin(a, b, w), c.top) == TwoSem(g, e, Begin(a, b, w), c.top);
    assert Wf(e) && Height(e) <= 2 && Nameless(e);
    assert Enc(e) == [LogicOpcode(o)] + ([0x68] + [0x69]);
    TermYields(c, e, a, b, w, Truth(Holds(o, a, b)));
    assert [0xA4] + Enc(e) == [0xA4, LogicOpcode(o), 0x68, 0x69];
  }

  lemma LogicNotYields(c: Env, o: Logic, a: U64, b: U64, w: World)
    requires WorldOk(w) && Fusable(o)
    ensures Yields(c, [0xA4, 0x92, LogicOpcode(o), 0x68, 0x69], a, b, w, Truth(!Holds(o, a, b)))
  {
    hide Holds, LogicOpcode, Yields, Begin, Knowing;
    var e, g := LogicNotE(o, Arg(0), Arg(1)), Knowing(c, map[]);
    ArgTerms(g, a, b, w, c.top);
    Operands(g, e, a, b, w, c.top);
    assert Sem(g, e, Begin(a, b, w), c.top) == TwoSem(g, e, Begin(a, b, w), c.top);
    assert Wf(e) && Height(e) <= 3 && Nameless(e);
    assert Enc(e) == [0x92] + ([LogicOpcode(o)] + ([0x68] + [0x69]));
    TermYields(c, e, a, b, w, Truth(!Holds(o, a, b)));
    assert [0xA4] + Enc(e) == [0xA4, 0x92, LogicOpcode(o), 0x68, 0x69];
  }

  lemma NotYields(c: Env, a: U64, b: U64, w: World)
    requires WorldOk(w)
    ensures Yields(c, [0xA4, 0x92, 0x68], a, b, w, Truth(a == 0))
  {
    hide Yields, Begin, Knowing;
    var e, g := LNotE(Arg(0)), Knowing(c, map[]);
    ArgTerms(g, a, b, w, c.top);
    assert Sem(g, e, Begin(a, b, w), c.top) == OneSem(g, e, Begin(a, b, w), c.top);
    assert Wf(e) && Height(e) <= 2 && Nameless(e);
    assert Enc(e) == [0x92] + [0x68];
    TermYields(c, e, a, b, w, Truth(a == 0));
    assert [0xA4] + Enc(e) == [0xA4, 0x92, 0x68];
  }

  const TRUE: nat := 0xFFFF_FFFF_FFFF_FFFF

  /** LAnd, LOr, LEqual, LGreater, LLess, their negations by a leading LNot, and LNot: all ones if the
      condition holds, zero otherwise. */
  lemma LogicBytes(c: Env, a: U64, b: U64, w: World)
    requires WorldOk(w)
    ensures Yields(c, [0xA4, 0x90, 0x68, 0x69], a, b, w, if a != 0 && b != 0 then TRUE else 0)
    ensures Yields(c, [0xA4, 0x91, 0x68, 0x69], a, b, w, if a != 0 || b != 0 then TRUE else 0)
    ensures Yields(c, [0xA4, 0x93, 0x68, 0x69], a, b, w, if a == b then TRUE else 0)
    ensures Yields(c, [0xA4, 0x94, 0x68, 0x69], a, b, w, if a > b then TRUE else 0)
    ensures Yields(c, [0xA4, 0x95, 0x68, 0x69], a, b, w, if a < b then TRUE else 0)
    ensures Yields(c, [0xA4, 0x92, 0x68], a, b, w, if a == 0 then TRUE else 0)
    ensures Yields(c, [0xA4, 0x92, 0x93, 0x68, 0x69], a, b, w, if a != b then TRUE else 0)
    ensures Yields(c, [0xA4, 0x92, 0x94, 0x68, 0x69], a, b, w, if a <= b then TRUE else 0)
    ensures Yields(c, [0xA4, 0x92, 0x95, 0x68, 0x69], a, b, w, if a >= b then TRUE else 0)
  {
    hide Yields;
    LogicYields(c, LAnd, a, b, w);
    LogicYields(c, LOr, a, b, w);
    LogicYields(c, LEqual, a, b, w);
    LogicYields(c, LGreater, a, b, w);
    LogicYields(c, LLess, a, b, w);
    LogicNotYields(c, LEqual, a, b, w);
    LogicNotYields(c, LGreater, a, b, w);
    LogicNotYields(c, LLess, a, b, w);
    NotYields(c, a, b, w);
  }

  // ----- control flow -----

  /** A short body gets a length byte of one more than its size. */
  lemma ShortPack(body: seq<Byte>)
    requires |body| < 63
    ensures Pack(body) == [|body| + 1] + body
  {
  }

  /** If(LLess(Arg0, Arg1)) { Return(Arg1) } Else { Return(Arg0) } */
  function Larger(): (s: Stmt)
  {
    IfElse(LogicE(LLess, Arg(0), Arg(1)), [Return(Arg(1))], [Return(Arg(0))])
  }

  lemma LessMeans(g: Program, a: U64, b: U64, w: World, rank: nat)
    requires WorldOk(w)
    ensures Sem(g, LogicE(LLess, Arg(0), Arg(1)), Begin(a, b, w), rank) ==
            Some(EV(TInt(Truth(a < b)), Begin(a, b, w)))
  {
    hide Begin;
    var e, t := LogicE(LLess, Arg(0), Arg(1)), Begin(a, b, w);
    Operands(g, e, a, b, w, rank);
    assert Sem(g, e, t, rank) == TwoSem(g, e, t, rank);
  }

  lemma LargerRuns(g: Program, a: U64, b: U64, w: World, rank: nat)
    requires WorldOk(w)
    ensures Run(g, [Larger()], Begin(a, b, w), rank) ==
            Some(Out(Returned(TInt(if a < b then b else a)), Begin(a, b, w)))
  {
    hide Begin, Sem;
    var e, t := LogicE(LLess, Arg(0), Arg(1)), Begin(a, b, w);
    ArgTerms(g, a, b, w, rank);
    LessMeans(g, a, b, w, rank);
    assert RunOne(g, Return(Arg(0)), t, rank) == Some(Out(Returned(TInt(a)), t));
    assert RunOne(g, Return(Arg(1)), t, rank) == Some(Out(Returned(TInt(b)), t));
    assert RunOne(g, Larger(), t, rank) == Some(Out(Returned(TInt(if a < b then b else a)), t));
  }

  lemma LessCode()
    ensures var e := LogicE(LLess, Arg(0), Arg(1));
            Wf(e) && Height(e) <= 2 && Nameless(e) && Enc(e) == [0x95, 0x68, 0x69]
  {
    assert Enc(Arg(0)) == [0x68] && Enc(Arg(1)) == [0x69];
  }

  lemma ReturnCode(i: nat)
    requires i < 7
    ensures var ss := [Return(Arg(i))]; WfStmts(ss) && NamelessStmts(ss) && EncStmts(ss) == [0xA4, 0x68 + i]
  {
    hide WfStmts, NamelessStmts, EncStmts;
    assert EncStmt(Return(Arg(i))) == [0xA4, 0x68 + i] && Height(Arg(i)) <= 1;
    OneWf(Return(Arg(i)));
  }

  lemma LargerCode()
    ensures WfStmt(Larger()) && NamelessStmt(Larger())
    ensures EncStmt(Larger()) == [0xA0, 0x06, 0x95, 0x68, 0x69, 0xA4, 0x69, 0xA1, 0x03, 0xA4, 0x68]
  {
    hide Pack, Wf, Height, Nameless, Enc, WfStmts, NamelessStmts, EncStmts;
    LessCode();
    ReturnCode(0);
    ReturnCode(1);
    ShortPack([0x95, 0x68, 0x69] + [0xA4, 0x69]);
    ShortPack([0xA4, 0x68]);
  }

  /** An If with an Else chooses by its predicate. */
  lemma ChoiceBytes(c: Env, a: U64, b: U64, w: World)
    requires WorldOk(w)
    ensures Yields(c, [0xA0, 0x06, 0x95, 0x68, 0x69, 0xA4, 0x69, 0xA1, 0x03, 0xA4, 0x68], a, b, w,
                   if a < b then b else a)
  {
    hide Yields, Begin, Knowing, Larger, WfStmt, NamelessStmt, EncStmt, Run;
    LargerCode();
    OneWf(Larger());
    LargerRuns(Knowing(c, map[]), a, b, w, c.top);
    BodyYields(c, [Larger()], a, b, w, if a < b then b else a, Begin(a, b, w));
  }

  function Step(): (s: Stmt) { Do(StepE(true, LocalD(0))) }

  predicate Jump(s: Stmt) { s.Break? || s.Continue? || s.Noop? }

  /** While(One) { Increment(Local0) `s` Increment(Local0) } */
  function Spin(s: Stmt): (r: Stmt) { While(One, [Step(), s, Step()]) }

  /** The numbers that one turn counts. */
  function Turn(s: Stmt): (n: nat) { if s.Noop? then 2 else 1 }

  lemma StepRuns(g: Program, t: TSt, i: U64, rank: nat)
    requires TOk(t) && t.locals[0] == TInt(i) && i < ONES
    ensures RunOne(g, Step(), t, rank) == Some(Out(Next, At0(t, i + 1)))
  {
    hide Sem, RunOne;
    IncrementMeans(g, t, i, rank);
  }

  lemma TurnRuns(g: Program, s: Stmt, t: TSt, i: U64, rank: nat)
    requires TOk(t) && t.locals[0] == TInt(i) && i < ONES - 1 && Jump(s)
    ensures Run(g, [Step(), s, Step()], t, rank) ==
            Some(Out(if s.Break? then Broke else if s.Continue? then Continued else Next, At0(t, i + Turn(s))))
  {
    hide Sem, Step;
    var ss := [Step(), s, Step()];
    var two, one := ss[1..], ss[1..][1..];
    assert two[0] == s && one[0] == Step() && one[1..] == [];
    StepRuns(g, t, i, rank);
    var u := At0(t, i + 1);
    StepRuns(g, u, i + 1, rank);
    assert At0(u, i + 2) == At0(t, i + 2);
    assert Run(g, one, u, rank) == Some(Out(Next, At0(t, i + 2)));
    assert Run(g, two, u, rank) == if s.Noop? then Run(g, one, u, rank) else RunOne(g, s, u, rank);
  }

  lemma {:induction false} SpinRuns(g: Program, s: Stmt, t: TSt, i: U64, rank: nat, k: nat)
    requires TOk(t) && t.locals[0] == TInt(i) && i + 2 * k < ONES - 2 && Jump(s)
    ensures RunWhile(g, Spin(s), t, rank, k) ==
            Some(Out(Next, At0(t, i + if s.Break? then Min(k, 1) else k * Turn(s))))
    decreases k
  {
    hide Run, Step;
    assert At0(t, i) == t;
    if k > 0 {
      assert Sem(g, One, t, rank) == Some(EV(TInt(1), t));
      TurnRuns(g, s, t, i, rank);
      if !s.Break? {
        var u := At0(t, i + Turn(s));
        SpinRuns(g, s, u, i + Turn(s), rank, k - 1);
        assert At0(u, i + k * Turn(s)) == At0(t, i + k * Turn(s));
      }
    }
  }

  function SpinCode(s: Stmt): (ss: seq<Stmt>) { [Do(CopyE(0x70, Zero, LocalD(0))), Spin(s), Return(Local(0))] }

  function Turns(s: Stmt): (n: U64) { if s.Break? then 1 else 100_000 * Turn(s) }

  lemma SpinCodeRuns(g: Program, s: Stmt, t: TSt, rank: nat)
    requires TOk(t) && Jump(s)
    ensures Run(g, SpinCode(s), t, rank) == Some(Out(Returned(TInt(Turns(s))), At0(t, Turns(s))))
  {
    hide Sem, RunWhile;
    StoreZero(g, t, rank);
    SpinRuns(g, s, At0(t, 0), 0, rank, 100_000);
    assert At0(At0(t, 0), Turns(s)) == At0(t, Turns(s));
    ReadLocal(g, At0(t, Turns(s)), Turns(s), rank);
    RunThree(g, SpinCode(s), t, At0(t, 0), At0(t, Turns(s)), TInt(Turns(s)), rank);
  }

  lemma ThreeWf(ss: seq<Stmt>)
    requires |ss| == 3 && forall i :: 0 <= i < 3 ==> WfStmt(ss[i]) && NamelessStmt(ss[i])
    ensures WfStmts(ss) && NamelessStmts(ss)
    ensures EncStmts(ss) == EncStmt(ss[0]) + (EncStmt(ss[1]) + EncStmt(ss[2]))
  {
    hide WfStmt, NamelessStmt, EncStmt;
    OneWf(ss[2]);
    var two := ss[1..];
    assert two[1..] == [ss[2]] && two[0] == ss[1];
    assert WfStmts(two) && NamelessStmts(two) && EncStmts(two) == EncStmt(ss[1]) + EncStmt(ss[2]);
  }

  lemma JumpCode(s: Stmt)
    requires Jump(s)
    ensures WfStmt(s) && NamelessStmt(s)
    ensures EncStmt(s) == [if s.Break? then 0xA5 else if s.Continue? then 0x9F else 0xA3]
  {
  }

  lemma SpinBytes(s: Stmt)
    requires Jump(s)
    ensures WfStmt(Spin(s)) && NamelessStmt(Spin(s))
    ensures EncStmt(Spin(s)) == [0xA2, 0x07, 0x01, 0x75, 0x60] + (EncStmt(s) + [0x75, 0x60])
  {
    hide Pack, WfStmts, NamelessStmts, EncStmts;
    JumpCode(s);
    IncrementWf();
    assert EncStmt(Step()) == [0x75, 0x60];
    var body := [Step(), s, Step()];
    ThreeWf(body);
    assert Wf(One) && Height(One) <= 1 && Nameless(One) && Enc(One) == [0x01];
    assert EncStmts(body) == [0x75, 0x60] + (EncStmt(s) + [0x75, 0x60]);
    ShortPack([0x01] + EncStmts(body));
  }

  /** Store(Zero, Local0) and Return(Local0) around the loop. */
  lemma SpinCodeBytes(s: Stmt)
    requires Jump(s)
    ensures WfStmts(SpinCode(s)) && NamelessStmts(SpinCode(s))
    ensures var op := if s.Break? then 0xA5 else if s.Continue? then 0x9F else 0xA3;
            EncStmts(SpinCode(s)) == [0x70, 0x00, 0x60, 0xA2, 0x07, 0x01, 0x75, 0x60, op, 0x75, 0x60, 0xA4, 0x60]
  {
    hide WfStmts, NamelessStmts, EncStmts, Spin, WfStmt, NamelessStmt;
    SpinBytes(s);
    JumpCode(s);
    EndsWf();
    ThreeWf(SpinCode(s));
    assert EncStmt(Do(CopyE(0x70, Zero, LocalD(0)))) == [0x70, 0x00, 0x60];
    assert EncStmt(Return(Local(0))) == [0xA4, 0x60];
  }

  /** In an endless loop that increments before and after it, Break stops at one, Continue skips the
      second increment, and Noop does nothing, until the loop is cut off after 100000 turns. */
  lemma LoopBytes(c: Env, op: Byte, a: U64, b: U64, w: World)
    requires WorldOk(w) && op in {0xA5, 0x9F, 0xA3}
    ensures Yields(c, [0x70, 0x00, 0x60, 0xA2, 0x07, 0x01, 0x75, 0x60, op, 0x75, 0x60, 0xA4, 0x60], a, b, w,
                   if op == 0xA5 then 1 else if op == 0x9F then 100_000 else 200_000)
  {
    hide Yields, Begin, Knowing, WfStmts, NamelessStmts, EncStmts, SpinCode, Run;
    var s := if op == 0xA5 then Break else if op == 0x9F then Continue else Noop;
    SpinCodeBytes(s);
    SpinCodeRuns(Knowing(c, map[]), s, Begin(a, b, w), c.top);
    BodyYields(c, SpinCode(s), a, b, w, Turns(s), At0(Begin(a, b, w), Turns(s)));
  }
}
