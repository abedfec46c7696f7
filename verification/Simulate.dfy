/** Compiler correctness: running the bytes of a term gives what the term means.

    `EvalSim` and `ExecSim` are proved by induction on (call depth, Name rank, syntax). Every
    case is: locate the sub-terms' bytes, use the induction hypothesis on them in order, and
    carry the frozen-slot set along. */
module Simulate {
  import opened Bits
  import opened PkgLength
  import opened Names
  import opened Regions
  import opened Alu
  import opened Tables
  import opened Interp
  import opened Ast
  import opened Represent

  ghost predicate Ready(c: Env, g: Program, st: St, t: TSt, F: set<nat>) { EnvMatch(c, g) && Data(st, t, F) }

  /** `code` sits at `pos`, before the limit `len`. */
  predicate Code(p: seq<Byte>, pos: nat, len: nat, code: seq<Byte>)
  {
    At(p, pos, code) && pos + |code| <= len <= |p|
  }

  lemma CodeSplit(p: seq<Byte>, pos: nat, len: nat, a: seq<Byte>, b: seq<Byte>)
    requires Code(p, pos, len, a + b)
    ensures Code(p, pos, len, a) && Code(p, pos + |a|, len, b)
  {
    AtSplit(p, pos, a, b);
  }

  lemma CodeHead(p: seq<Byte>, pos: nat, len: nat, b: Byte, s: seq<Byte>)
    requires Code(p, pos, len, [b] + s)
    ensures pos < len && p[pos] == b && Code(p, pos + 1, len, s)
  {
    AtHead(p, pos, b, s);
  }

  /** The evaluator succeeded at `pos` with a value and state that stand for `q`. */
  ghost predicate Yields(r: R, pos: nat, q: EV, used: nat, F: set<nat>)
  {
    && r.ok && r.pos == pos
    && Data(r.st, q.st, Grow(F, used, q.st.used))
    && Rep(r.st.nodes, Grow(F, used, q.st.used), r.val, q.val)
  }

  lemma YieldsNow(r: R, pos: nat, q: EV, t: TSt, F: set<nat>)
    requires r.ok && r.pos == pos && Data(r.st, q.st, F) && Rep(r.st.nodes, F, r.val, q.val) && q.st.used == t.used
    ensures Yields(r, pos, q, t.used, F)
  {
    hide Data, Rep;
    GrowNone(F, t.used);
  }

  // ----- destinations -----

  lemma PutKept(st: St, t: TSt, F: set<nat>, i: nat, v: Value, tv: Tree)
    requires Data(st, t, F) && Rep(st.nodes, F, v, tv) && Inside(v, |st.nodes|)
    ensures i < 8 ==> Data(st.(locals := st.locals[i := v]), t.(locals := t.locals[i := tv]), F)
    ensures i < 7 ==> Data(st.(args := st.args[i := v]), t.(args := t.args[i := tv]), F)
  {
    hide Rep, Print;
  }

  lemma FieldPut(c: Env, g: Program, s: Segs, n: nat, st: St, t: TSt, F: set<nat>)
    requires Ready(c, g, st, t, F) && s in g.fields && AllSegs(s) && |s| <= 12
    ensures Print(s) in c.fields && c.fields[Print(s)] == g.fields[s]
    ensures Data(st.(world := FieldWrite(c.regions, c.fields[Print(s)], n, st.world)),
                 t.(world := SetField(g, g.fields[s], n, t.world)), F)
  {
    hide Print, FieldWrite, SetField, SameKeys, ObjsMatch, RepAll;
    SetFieldIsWrite(g, g.fields[s], n, t.world);
  }

  /** A name's bytes at a target position: never NullName, a Local or an Arg. */
  lemma TargetName(c: Env, p: seq<Byte>, len: nat, pos: nat, name: NameRef, scope: Path)
    requires WfName(name) && Code(p, pos, len, EncName(name))
    ensures NameAt(p, pos, len) == Some(Parsed(name, pos + |EncName(name)|))
    ensures NameStart(p[pos]) && p[pos] == EncName(name)[0]
    ensures TargetOf(c, p, len, pos, scope) ==
            Some(TargetAt(var f := Search(c.fields.Keys, scope, name, 0);
                          if f.None? then Discard else ToField(c.fields[f.value]), pos + |EncName(name)|))
  {
    hide NameAt, EncodeName, Search, IsName;
    NameRoundTrip(name, p, pos, len);
    NameStartByte(name);
    assert p[pos] == p[pos..pos + |EncName(name)|][0];
  }

  /** Decoding a destination's bytes and storing there is the destination's meaning. */
  lemma TargetSim(c: Env, g: Program, d: Dest, p: seq<Byte>, len: nat, pos: nat, v: Value, tv: Tree, st: St, t: TSt,
                  F: set<nat>)
    requires Ready(c, g, st, t, F) && WfDest(d) && Code(p, pos, len, EncDest(d))
    requires Rep(st.nodes, F, v, tv) && Inside(v, |st.nodes|) && StoreTo(g, d, tv, t).Some?
    ensures var a := TargetOf(c, p, len, pos, st.scope);
            && a.Some? && a.value.next == pos + |EncDest(d)|
            && Assign(c, a.value.target, v, st).nodes == st.nodes
            && Data(Assign(c, a.value.target, v, st), StoreTo(g, d, tv, t).value, F)
  {
    hide Data, Rep, Valid, EnvMatch, NameAt, Search, EncName, FieldWrite, SetField, Print, WfName, Lookup;
    if d.NameD? {
      TargetNameSim(c, g, d.name, p, len, pos, v, tv, st, t, F);
    } else {
      CodeHead(p, pos, len, EncDest(d)[0], []);
      assert Valid(st) by { DataValid(st, t, F); }
      if !d.Nowhere? { PutKept(st, t, F, d.i, v, tv); }
    }
  }

  lemma DataValid(st: St, t: TSt, F: set<nat>)
    requires Data(st, t, F)
    ensures Valid(st) && TOk(t) && !st.stuck && |st.nodes| == t.used && forall k :: k in F ==> k < |st.nodes|
    ensures st.scope == Print(t.scope) && AllSegs(t.scope) && |t.scope| <= 12 && st.world == t.world
    ensures st.depth == t.depth
    ensures st.argc == t.argc
  {
  }

  lemma TargetNameSim(c: Env, g: Program, name: NameRef, p: seq<Byte>, len: nat, pos: nat, v: Value, tv: Tree, st: St,
                      t: TSt, F: set<nat>)
    requires Ready(c, g, st, t, F) && WfName(name) && Code(p, pos, len, EncName(name))
    requires Rep(st.nodes, F, v, tv) && Inside(v, |st.nodes|) && StoreTo(g, NameD(name), tv, t).Some?
    ensures Valid(st)
    ensures var a := TargetOf(c, p, len, pos, st.scope);
            && a.Some? && a.value.next == pos + |EncName(name)|
            && Assign(c, a.value.target, v, st).nodes == st.nodes
            && Data(Assign(c, a.value.target, v, st), StoreTo(g, NameD(name), tv, t).value, F)
  {
    hide Data, Rep, Valid, NameAt, Search, EncName, FieldWrite, SetField, Print, Lookup, TargetOf, SameKeys, ObjsMatch;
    DataValid(st, t, F);
    TargetName(c, p, len, pos, name, st.scope);
    SearchCanonical(c.fields.Keys, g.fields.Keys, t.scope, name);
    LookupShape(g.fields.Keys, t.scope, name);
    RepInt(st.nodes, F, v, tv);
    var s := Lookup(g.fields.Keys, t.scope, name);
    if s.Some? { FieldPut(c, g, s.value, AsInt(tv), st, t, F); }
  }

  lemma FinishSim(c: Env, g: Program, d: Dest, p: seq<Byte>, len: nat, pos: nat, v: Value, tv: Tree, st: St, t: TSt,
                  F: set<nat>)
    requires Ready(c, g, st, t, F) && WfDest(d) && Code(p, pos, len, EncDest(d))
    requires Rep(st.nodes, F, v, tv) && Inside(v, |st.nodes|) && PutVal(g, d, tv, t).Some?
    ensures Valid(st) && Yields(Finish(c, p, len, pos, v, st), pos + |EncDest(d)|, PutVal(g, d, tv, t).value, t.used, F)
  {
    hide Data, Rep, Valid, EnvMatch, TargetOf, Assign, StoreTo, EncDest, WfDest, Yields;
    DataValid(st, t, F);
    TargetSim(c, g, d, p, len, pos, v, tv, st, t, F);
    YieldsNow(Finish(c, p, len, pos, v, st), pos + |EncDest(d)|, PutVal(g, d, tv, t).value, t, F);
  }

  /** As `FinishSim`, when the operands before it started from `F0` and `used` slots. */
  lemma FinishAfter(c: Env, g: Program, d: Dest, p: seq<Byte>, len: nat, pos: nat, v: Value, tv: Tree, st: St, t: TSt,
                    F0: set<nat>, used: nat)
    requires used <= t.used && Ready(c, g, st, t, Grow(F0, used, t.used)) && WfDest(d) && Code(p, pos, len, EncDest(d))
    requires Rep(st.nodes, Grow(F0, used, t.used), v, tv) && Inside(v, |st.nodes|) && PutVal(g, d, tv, t).Some?
    ensures Valid(st) && Yields(Finish(c, p, len, pos, v, st), pos + |EncDest(d)|, PutVal(g, d, tv, t).value, used, F0)
  {
    hide Data, Rep, Valid, EnvMatch, Finish, EncDest, WfDest, Grow;
    DataValid(st, t, Grow(F0, used, t.used));
    FinishSim(c, g, d, p, len, pos, v, tv, st, t, Grow(F0, used, t.used));
    GrowTwice(F0, used, t.used, PutVal(g, d, tv, t).value.st.used);
  }

  // ----- which evaluator an opcode selects -----

  lemma Dispatch(c: Env, p: seq<Byte>, len: nat, at: nat, st: St, rank: nat)
    requires at < len <= |p| && Valid(st)
    ensures IsLeaf(p[at]) ==> EvalOp(c, p, len, at, st, rank) == EvalLeaf(p, len, at, st)
    ensures p[at] == 0x11 ==> EvalOp(c, p, len, at, st, rank) == EvalBuffer(c, p, len, at, st, rank)
    ensures p[at] == 0x12 || p[at] == 0x13 ==> EvalOp(c, p, len, at, st, rank) == EvalPackage(c, p, len, at, st, rank)
    ensures p[at] == 0x78 ==> EvalOp(c, p, len, at, st, rank) == EvalDivide(c, p, len, at, st, rank)
    ensures forall o :: p[at] == UnOpcode(o) ==> EvalOp(c, p, len, at, st, rank) == EvalUn(c, p, len, at, st, rank, o)
    ensures p[at] == 0x75 || p[at] == 0x76 ==>
              EvalOp(c, p, len, at, st, rank) == EvalStep(c, p, len, at, st, rank, p[at] == 0x75)
    ensures p[at] == 0x92 ==> EvalOp(c, p, len, at, st, rank) == EvalLNot(c, p, len, at, st, rank)
    ensures CopyCode(p[at]) ==> EvalOp(c, p, len, at, st, rank) == EvalCopy(c, p, len, at, st, rank)
    ensures OneCode(p[at]) ==> EvalOp(c, p, len, at, st, rank) == EvalOne(c, p, len, at, st, rank, p[at])
    ensures p[at] == 0x88 ==> EvalOp(c, p, len, at, st, rank) == EvalIndex(c, p, len, at, st, rank)
    ensures p[at] == 0x5B ==> EvalOp(c, p, len, at, st, rank) == EvalExt(c, p, len, at, st, rank)
  {
    hide Eval, EvalLeaf, EvalBuffer, EvalPackage, EvalBin, EvalDivide, EvalUn, EvalStep, EvalLogic, EvalLNot, EvalCopy,
      EvalOne, EvalIndex, EvalExt, EvalName, Valid;
  }

  lemma DispatchOps(c: Env, p: seq<Byte>, len: nat, at: nat, st: St, rank: nat, o: BinOp, l: Logic)
    requires at < len <= |p| && Valid(st)
    ensures p[at] == Opcode(o) ==> EvalOp(c, p, len, at, st, rank) == EvalBin(c, p, len, at, st, rank, o)
    ensures p[at] == LogicOpcode(l) ==>
              EvalOp(c, p, len, at, st, rank) == EvalLogic(c, p, len, at, at + 1, st, rank, l, true)
  {
    hide Eval, EvalLeaf, EvalBuffer, EvalPackage, EvalBin, EvalDivide, EvalUn, EvalStep, EvalLogic, EvalLNot, EvalCopy,
      EvalOne, EvalIndex, EvalExt, EvalName, Valid;
  }

  lemma DispatchName(c: Env, p: seq<Byte>, len: nat, at: nat, st: St, rank: nat, name: NameRef)
    requires at < len <= |p| && Valid(st) && NameStart(p[at])
    requires NameAt(p, at, len).Some? && NameAt(p, at, len).value.name == name
    ensures EvalOp(c, p, len, at, st, rank) == EvalName(c, p, len, at, NameAt(p, at, len).value.next, name, st, rank)
  {
    hide Eval, EvalLeaf, EvalBuffer, EvalPackage, EvalBin, EvalDivide, EvalUn, EvalStep, EvalLogic, EvalLNot, EvalCopy,
      EvalOne, EvalIndex, EvalExt, EvalName, Valid, NameAt;
  }

  // ----- expressions -----

  lemma EvalSim(c: Env, g: Program, e: Expr, p: seq<Byte>, len: nat, pos: nat, st: St, t: TSt, F: set<nat>, rank: nat)
    requires Ready(c, g, st, t, F) && Wf(e) && Code(p, pos, len, Enc(e))
    requires st.exprDepth + Height(e) <= MAX_EXPR_DEPTH && Sem(g, e, t, rank).Some?
    ensures Yields(Eval(c, p, len, pos, st, rank), pos + |Enc(e)|, Sem(g, e, t, rank).value, t.used, F)
    decreases Fuel(t.depth, t.used), rank, e, 9
  {
    hide EvalOp, Data, Rep, EnvMatch, Grow, Enc, Sem, Wf, Height, Valid;
    DataValid(st, t, F);
    DataDepth(st, t, F, st.exprDepth + 1);
    OpSim(c, g, e, p, len, pos, st.(exprDepth := st.exprDepth + 1), t, F, rank);
    Enter(c, p, len, pos, st, rank, pos + |Enc(e)|, Sem(g, e, t, rank).value, t.used, F);
  }

  /** The nesting guard lets the term through and restores the counter. */
  lemma Enter(c: Env, p: seq<Byte>, len: nat, pos: nat, st: St, rank: nat, next: nat, q: EV, used: nat, F: set<nat>)
    requires pos < len <= |p| && Valid(st) && st.exprDepth < MAX_EXPR_DEPTH
    requires Yields(EvalOp(c, p, len, pos, st.(exprDepth := st.exprDepth + 1), rank), next, q, used, F)
    ensures Yields(Eval(c, p, len, pos, st, rank), next, q, used, F)
  {
    hide EvalOp, Data, Rep, Grow;
    var r := EvalOp(c, p, len, pos, st.(exprDepth := st.exprDepth + 1), rank);
    DataDepth(r.st, q.st, Grow(F, used, q.st.used), st.exprDepth);
  }

  lemma ConstShape(g: Program, e: Expr, t: TSt, rank: nat)
    requires TOk(t) && (e.Zero? || e.One? || e.AllOnes?) && Wf(e)
    ensures Enc(e) == [if e.Zero? then 0 else if e.One? then 1 else 0xFF]
    ensures Sem(g, e, t, rank) == Some(EV(TInt(if e.Zero? then 0 else if e.One? then 1 else ONES), t))
  {
  }

  lemma ConstSim(c: Env, g: Program, e: Expr, p: seq<Byte>, len: nat, pos: nat, st: St, t: TSt, F: set<nat>, rank: nat)
    requires Ready(c, g, st, t, F) && (e.Zero? || e.One? || e.AllOnes?) && Wf(e) && Code(p, pos, len, Enc(e))
    requires st.exprDepth + Height(e) <= MAX_EXPR_DEPTH + 1 && Sem(g, e, t, rank).Some?
    ensures Yields(EvalOp(c, p, len, pos, st, rank), pos + |Enc(e)|, Sem(g, e, t, rank).value, t.used, F)
    decreases Fuel(t.depth, t.used), rank, e, 7
  {
    hide Sem, Enc, Wf, Height, Eval, EvalOp, Data, Rep, Valid, EnvMatch, Grow, Yields;
    DataValid(st, t, F);
    ConstShape(g, e, t, rank);
    CodeHead(p, pos, len, Enc(e)[0], []);
    Dispatch(c, p, len, pos, st, rank);
    var r := EvalLeaf(p, len, pos, st);
    RepNumber(st.nodes, F, r.val.n);
    YieldsNow(r, pos + |Enc(e)|, Sem(g, e, t, rank).value, t, F);
  }

  lemma RepNumber(nodes: seq<Value>, F: set<nat>, n: U64)
    ensures Rep(nodes, F, Int(n), TInt(n))
  {
  }

  lemma LitValue(p: seq<Byte>, pos: nat, width: nat, v: nat)
    requires WidthOk(width) && v < Pow2(8 * width) && At(p, pos, ToLe(v, width))
    ensures Le(p[pos..pos + width]) == v && v < TWO64
  {
    ToLeRoundTrip(v, width);
    LowIdentity(v, 8 * width);
    LeFits(p[pos..pos + width]);
  }

  lemma LitShape(g: Program, e: Expr, t: TSt, rank: nat)
    requires TOk(t) && e.Lit? && Wf(e)
    ensures WidthOk(e.width) && e.v < Pow2(8 * e.width)
    ensures Enc(e) == [LitOp(e.width)] + ToLe(e.v, e.width)
    ensures Sem(g, e, t, rank) == Some(EV(TInt(e.v % TWO64), t))
  {
    hide Pow2, ToLe, LitOp;
  }

  lemma LitSim(c: Env, g: Program, e: Expr, p: seq<Byte>, len: nat, pos: nat, st: St, t: TSt, F: set<nat>, rank: nat)
    requires Ready(c, g, st, t, F) && e.Lit? && Wf(e) && Code(p, pos, len, Enc(e))
    requires st.exprDepth + Height(e) <= MAX_EXPR_DEPTH + 1 && Sem(g, e, t, rank).Some?
    ensures Yields(EvalOp(c, p, len, pos, st, rank), pos + |Enc(e)|, Sem(g, e, t, rank).value, t.used, F)
    decreases Fuel(t.depth, t.used), rank, e, 7
  {
    hide Sem, Enc, Wf, Height, Eval, EvalOp, Data, Rep, Valid, EnvMatch, Grow, Yields, ToLe, Le, Pow2;
    DataValid(st, t, F);
    LitShape(g, e, t, rank);
    CodeHead(p, pos, len, LitOp(e.width), ToLe(e.v, e.width));
    LitValue(p, pos + 1, e.width, e.v);
    Dispatch(c, p, len, pos, st, rank);
    RepNumber(st.nodes, F, e.v);
    YieldsNow(EvalLeaf(p, len, pos, st), pos + |Enc(e)|, Sem(g, e, t, rank).value, t, F);
  }

  lemma {:induction false} TextRun(p: seq<Byte>, len: nat, pos: nat, i: nat, bytes: seq<Byte>)
    requires At(p, pos, bytes + [0]) && pos + |bytes| < len <= |p| && i + |bytes| < BUF_CAP
    requires forall k :: 0 <= k < |bytes| ==> bytes[k] != 0
    ensures StrRun(p, len, pos, i) == |bytes|
    decreases |bytes|
  {
    if bytes == [] {
      assert bytes + [0] == [0] + [];
      AtHead(p, pos, 0, []);
    } else {
      assert bytes + [0] == [bytes[0]] + (bytes[1..] + [0]);
      AtHead(p, pos, bytes[0], bytes[1..] + [0]);
      TextRun(p, len, pos + 1, i + 1, bytes[1..]);
    }
  }

  lemma TextShape(g: Program, e: Expr, t: TSt, rank: nat)
    requires TOk(t) && e.Text? && Wf(e)
    ensures |e.bytes| < BUF_CAP && forall i :: 0 <= i < |e.bytes| ==> e.bytes[i] != 0
    ensures Enc(e) == [0x0D] + (e.bytes + [0])
    ensures Sem(g, e, t, rank) == Some(EV(TStr(e.bytes), t))
  {
  }

  lemma TextSim(c: Env, g: Program, e: Expr, p: seq<Byte>, len: nat, pos: nat, st: St, t: TSt, F: set<nat>, rank: nat)
    requires Ready(c, g, st, t, F) && e.Text? && Wf(e) && Code(p, pos, len, Enc(e))
    requires st.exprDepth + Height(e) <= MAX_EXPR_DEPTH + 1 && Sem(g, e, t, rank).Some?
    ensures Yields(EvalOp(c, p, len, pos, st, rank), pos + |Enc(e)|, Sem(g, e, t, rank).value, t.used, F)
    decreases Fuel(t.depth, t.used), rank, e, 7
  {
    hide Sem, Enc, Wf, Height, Eval, EvalOp, Data, Rep, Valid, EnvMatch, Grow, Yields, StrRun;
    DataValid(st, t, F);
    TextShape(g, e, t, rank);
    CodeHead(p, pos, len, 0x0D, e.bytes + [0]);
    TextRun(p, len, pos + 1, 0, e.bytes);
    CodeSplit(p, pos + 1, len, e.bytes, [0]);
    Dispatch(c, p, len, pos, st, rank);
    RepText(st.nodes, F, e.bytes);
    YieldsNow(EvalLeaf(p, len, pos, st), pos + |Enc(e)|, Sem(g, e, t, rank).value, t, F);
  }

  lemma RepText(nodes: seq<Value>, F: set<nat>, b: seq<Byte>)
    ensures Rep(nodes, F, Str(b), TStr(b)) && Rep(nodes, F, Buf(b), TBuf(b)) && Rep(nodes, F, Uninit, TUninit)
  {
  }

  lemma VarRep(st: St, t: TSt, F: set<nat>)
    requires Data(st, t, F)
    ensures |st.locals| == |t.locals| == 8 && forall i :: 0 <= i < 8 ==> Rep(st.nodes, F, st.locals[i], t.locals[i])
    ensures |st.args| == |t.args| == 7 && forall i :: 0 <= i < 7 ==> Rep(st.nodes, F, st.args[i], t.args[i])
  {
    hide Rep, Print;
  }

  lemma VarShape(g: Program, e: Expr, t: TSt, rank: nat)
    requires TOk(t) && (e.Local? || e.Arg?) && Wf(e)
    ensures if e.Local? then e.i < 8 else e.i < 7
    ensures Enc(e) == [(if e.Local? then 0x60 else 0x68) + e.i]
    ensures Sem(g, e, t, rank) ==
            Some(EV(if e.Local? then t.locals[e.i] else if e.i < t.argc then t.args[e.i] else TUninit, t))
  {
  }

  lemma VarSim(c: Env, g: Program, e: Expr, p: seq<Byte>, len: nat, pos: nat, st: St, t: TSt, F: set<nat>, rank: nat)
    requires Ready(c, g, st, t, F) && (e.Local? || e.Arg?) && Wf(e) && Code(p, pos, len, Enc(e))
    requires st.exprDepth + Height(e) <= MAX_EXPR_DEPTH + 1 && Sem(g, e, t, rank).Some?
    ensures Yields(EvalOp(c, p, len, pos, st, rank), pos + |Enc(e)|, Sem(g, e, t, rank).value, t.used, F)
    decreases Fuel(t.depth, t.used), rank, e, 7
  {
    hide Sem, Enc, Wf, Height, Eval, EvalOp, Data, Rep, Valid, EnvMatch, Grow, Yields;
    DataValid(st, t, F);
    VarShape(g, e, t, rank);
    CodeHead(p, pos, len, Enc(e)[0], []);
    Dispatch(c, p, len, pos, st, rank);
    VarRep(st, t, F);
    RepText(st.nodes, F, []);
    YieldsNow(EvalLeaf(p, len, pos, st), pos + |Enc(e)|, Sem(g, e, t, rank).value, t, F);
  }

  /** Both operands in order. */
  lemma TwoSim(c: Env, g: Program, e: Expr, p: seq<Byte>, len: nat, pos: nat, st: St, t: TSt, F: set<nat>, rank: nat)
    requires Ready(c, g, st, t, F) && HasTwo(e) && Wf(e.a) && Wf(e.b)
    requires Code(p, pos, len, Enc(e.a)) && Code(p, pos + |Enc(e.a)|, len, Enc(e.b))
    requires st.exprDepth + Height(e.a) <= MAX_EXPR_DEPTH && st.exprDepth + Height(e.b) <= MAX_EXPR_DEPTH
    requires SemTwo(g, e, t, rank).Some?
    ensures var w := EvalTwo(c, p, len, pos, st, rank);
            var q := SemTwo(g, e, t, rank).value;
            && w.ok && w.pos == pos + |Enc(e.a)| + |Enc(e.b)| && w.a == AsInt(q.a) && w.b == AsInt(q.b)
            && Data(w.st, q.st, Grow(F, t.used, q.st.used))
    decreases Fuel(t.depth, t.used), rank, e, 6
  {
    hide Eval, Data, Rep, Valid, EnvMatch, Enc, Sem, Wf, Height, Grow, AsInteger, AsInt;
    DataValid(st, t, F);
    EvalSim(c, g, e.a, p, len, pos, st, t, F, rank);
    var x, qx := Eval(c, p, len, pos, st, rank), Sem(g, e.a, t, rank).value;
    var F1 := Grow(F, t.used, qx.st.used);
    EvalSim(c, g, e.b, p, len, x.pos, x.st, qx.st, F1, rank);
    var y, qy := Eval(c, p, len, x.pos, x.st, rank), Sem(g, e.b, qx.st, rank).value;
    GrowTwice(F, t.used, qx.st.used, qy.st.used);
    RepInt(x.st.nodes, F1, x.val, qx.val);
    RepInt(y.st.nodes, Grow(F1, qx.st.used, qy.st.used), y.val, qy.val);
  }

  lemma BinShape(g: Program, e: Expr, t: TSt, rank: nat)
    requires TOk(t) && e.Bin? && Wf(e)
    ensures Wf(e.a) && Wf(e.b) && Height(e.a) < Height(e) && Height(e.b) < Height(e) && WfDest(e.dest)
    ensures Enc(e) == [Opcode(e.op)] + (Enc(e.a) + (Enc(e.b) + EncDest(e.dest)))
    ensures Sem(g, e, t, rank) == (var q := SemTwo(g, e, t, rank); if q.None? then None
            else PutVal(g, e.dest, TInt(Apply(e.op, AsInt(q.value.a), AsInt(q.value.b))), q.value.st))
  {
    hide SemTwo, PutVal, AsInt, Apply, Opcode, EncDest, WfDest;
  }

  lemma BinSim(c: Env, g: Program, e: Expr, p: seq<Byte>, len: nat, pos: nat, st: St, t: TSt, F: set<nat>, rank: nat)
    requires Ready(c, g, st, t, F) && e.Bin? && Wf(e) && Code(p, pos, len, Enc(e))
    requires st.exprDepth + Height(e) <= MAX_EXPR_DEPTH + 1 && Sem(g, e, t, rank).Some?
    ensures Yields(EvalOp(c, p, len, pos, st, rank), pos + |Enc(e)|, Sem(g, e, t, rank).value, t.used, F)
    decreases Fuel(t.depth, t.used), rank, e, 7
  {
    hide Sem, Enc, Wf, Height, Eval, EvalOp, Data, Rep, Valid, EnvMatch, Grow, EvalTwo, Finish, StoreTo, PutVal,
      EncDest, WfDest, Yields, AsInt, Apply, Opcode, SemTwo;
    DataValid(st, t, F);
    BinShape(g, e, t, rank);
    CodeHead(p, pos, len, Opcode(e.op), Enc(e.a) + (Enc(e.b) + EncDest(e.dest)));
    CodeSplit(p, pos + 1, len, Enc(e.a), Enc(e.b) + EncDest(e.dest));
    CodeSplit(p, pos + 1 + |Enc(e.a)|, len, Enc(e.b), EncDest(e.dest));
    DispatchOps(c, p, len, pos, st, rank, e.op, LAnd);
    TwoSim(c, g, e, p, len, pos + 1, st, t, F, rank);
    var q, w := SemTwo(g, e, t, rank).value, EvalTwo(c, p, len, pos + 1, st, rank);
    DataValid(w.st, q.st, Grow(F, t.used, q.st.used));
    var n := Apply(e.op, w.a, w.b);
    RepNumber(w.st.nodes, Grow(F, t.used, q.st.used), n);
    FinishAfter(c, g, e.dest, p, len, w.pos, Int(n), TInt(n), w.st, q.st, F, t.used);
  }

  /** Two destinations, stored in order. */
  lemma FinishTwoSim(c: Env, g: Program, d: Dest, k: Dest, p: seq<Byte>, len: nat, pos: nat, m: U64, n: U64, st: St,
                     t: TSt, F: set<nat>)
    requires Ready(c, g, st, t, F) && WfDest(d) && WfDest(k) && Code(p, pos, len, EncDest(d))
    requires Code(p, pos + |EncDest(d)|, len, EncDest(k))
    requires StoreTo(g, d, TInt(m), t).Some? && PutVal(g, k, TInt(n), StoreTo(g, d, TInt(m), t).value).Some?
    ensures Valid(st)
    ensures Yields(FinishTwo(c, p, len, pos, m, n, st), pos + |EncDest(d)| + |EncDest(k)|,
                   PutVal(g, k, TInt(n), StoreTo(g, d, TInt(m), t).value).value, t.used, F)
  {
    hide Data, Rep, Valid, EnvMatch, TargetOf, Assign, StoreTo, EncDest, WfDest, Yields;
    DataValid(st, t, F);
    RepNumber(st.nodes, F, m);
    RepNumber(st.nodes, F, n);
    TargetSim(c, g, d, p, len, pos, Int(m), TInt(m), st, t, F);
    var a := TargetOf(c, p, len, pos, st.scope).value;
    var st1, t1 := Assign(c, a.target, Int(m), st), StoreTo(g, d, TInt(m), t).value;
    DataValid(st1, t1, F);
    TargetSim(c, g, k, p, len, a.next, Int(n), TInt(n), st1, t1, F);
    YieldsNow(FinishTwo(c, p, len, pos, m, n, st), pos + |EncDest(d)| + |EncDest(k)|,
              PutVal(g, k, TInt(n), t1).value, t, F);
  }

  lemma DivideShape(g: Program, e: Expr, t: TSt, rank: nat)
    requires TOk(t) && e.DivideE? && Wf(e)
    ensures Wf(e.a) && Wf(e.b) && Height(e.a) < Height(e) && Height(e.b) < Height(e) && WfDest(e.rem) && WfDest(e.quo)
    ensures Enc(e) == [0x78] + (Enc(e.a) + (Enc(e.b) + (EncDest(e.rem) + EncDest(e.quo))))
    ensures Sem(g, e, t, rank) == (var q := SemTwo(g, e, t, rank); if q.None? then None
            else (var u := StoreTo(g, e.rem, TInt(Apply(ModOp, AsInt(q.value.a), AsInt(q.value.b))), q.value.st);
              if u.None? then None else PutVal(g, e.quo, TInt(Quotient(AsInt(q.value.a), AsInt(q.value.b))), u.value)))
  {
    hide SemTwo, PutVal, StoreTo, AsInt, Apply, Quotient, EncDest, WfDest;
  }

  lemma DivideSim(c: Env, g: Program, e: Expr, p: seq<Byte>, len: nat, pos: nat, st: St, t: TSt, F: set<nat>, rank: nat)
    requires Ready(c, g, st, t, F) && e.DivideE? && Wf(e) && Code(p, pos, len, Enc(e))
    requires st.exprDepth + Height(e) <= MAX_EXPR_DEPTH + 1 && Sem(g, e, t, rank).Some?
    ensures Yields(EvalOp(c, p, len, pos, st, rank), pos + |Enc(e)|, Sem(g, e, t, rank).value, t.used, F)
    decreases Fuel(t.depth, t.used), rank, e, 7
  {
    hide Sem, Enc, Wf, Height, Eval, EvalOp, Data, Rep, Valid, EnvMatch, Grow, EvalTwo, FinishTwo, StoreTo, PutVal,
      EncDest, WfDest, Yields, AsInt, Apply, Quotient, SemTwo;
    DataValid(st, t, F);
    DivideShape(g, e, t, rank);
    CodeHead(p, pos, len, 0x78, Enc(e.a) + (Enc(e.b) + (EncDest(e.rem) + EncDest(e.quo))));
    CodeSplit(p, pos + 1, len, Enc(e.a), Enc(e.b) + (EncDest(e.rem) + EncDest(e.quo)));
    CodeSplit(p, pos + 1 + |Enc(e.a)|, len, Enc(e.b), EncDest(e.rem) + EncDest(e.quo));
    CodeSplit(p, pos + 1 + |Enc(e.a)| + |Enc(e.b)|, len, EncDest(e.rem), EncDest(e.quo));
    Dispatch(c, p, len, pos, st, rank);
    TwoSim(c, g, e, p, len, pos + 1, st, t, F, rank);
    var q, w := SemTwo(g, e, t, rank).value, EvalTwo(c, p, len, pos + 1, st, rank);
    DataValid(w.st, q.st, Grow(F, t.used, q.st.used));
    var m, n := Apply(ModOp, w.a, w.b), Quotient(w.a, w.b);
    FinishTwoSim(c, g, e.rem, e.quo, p, len, w.pos, m, n, w.st, q.st, Grow(F, t.used, q.st.used));
    YieldsAfter(FinishTwo(c, p, len, w.pos, m, n, w.st), pos + |Enc(e)|,
                Sem(g, e, t, rank).value, F, t.used, q.st.used);
  }

  lemma YieldsAfter(r: R, pos: nat, q: EV, F: set<nat>, a: nat, b: nat)
    requires a <= b <= q.st.used && Yields(r, pos, q, b, Grow(F, a, b))
    ensures Yields(r, pos, q, a, F)
  {
    hide Data, Rep, Grow;
    GrowTwice(F, a, b, q.st.used);
  }

  lemma UnShape(g: Program, e: Expr, t: TSt, rank: nat)
    requires TOk(t) && e.Un? && Wf(e)
    ensures Wf(e.a) && Height(e.a) < Height(e) && WfDest(e.dest)
    ensures Enc(e) == [UnOpcode(e.uop)] + (Enc(e.a) + EncDest(e.dest))
    ensures Sem(g, e, t, rank) == (var x := Sem(g, e.a, t, rank); if x.None? then None
            else PutVal(g, e.dest, TInt(ApplyUn(e.uop, AsInt(x.value.val))), x.value.st))
  {
    hide PutVal, AsInt, ApplyUn, EncDest, WfDest;
  }

  lemma UnSim(c: Env, g: Program, e: Expr, p: seq<Byte>, len: nat, pos: nat, st: St, t: TSt, F: set<nat>, rank: nat)
    requires Ready(c, g, st, t, F) && e.Un? && Wf(e) && Code(p, pos, len, Enc(e))
    requires st.exprDepth + Height(e) <= MAX_EXPR_DEPTH + 1 && Sem(g, e, t, rank).Some?
    ensures Yields(EvalOp(c, p, len, pos, st, rank), pos + |Enc(e)|, Sem(g, e, t, rank).value, t.used, F)
    decreases Fuel(t.depth, t.used), rank, e, 7
  {
    hide Sem, Enc, Wf, Height, Eval, EvalOp, Data, Rep, Valid, EnvMatch, Grow, Finish, StoreTo, PutVal, EncDest,
      WfDest, AsInt, AsInteger, ApplyUn;
    DataValid(st, t, F);
    UnShape(g, e, t, rank);
    CodeHead(p, pos, len, UnOpcode(e.uop), Enc(e.a) + EncDest(e.dest));
    CodeSplit(p, pos + 1, len, Enc(e.a), EncDest(e.dest));
    Dispatch(c, p, len, pos, st, rank);
    EvalSim(c, g, e.a, p, len, pos + 1, st, t, F, rank);
    var x, q := Eval(c, p, len, pos + 1, st, rank), Sem(g, e.a, t, rank).value;
    var F1 := Grow(F, t.used, q.st.used);
    DataValid(x.st, q.st, F1);
    RepInt(x.st.nodes, F1, x.val, q.val);
    var n := ApplyUn(e.uop, AsInteger(x.val));
    RepNumber(x.st.nodes, F1, n);
    FinishAfter(c, g, e.dest, p, len, x.pos, Int(n), TInt(n), x.st, q.st, F, t.used);
  }

  lemma CopyShape(g: Program, e: Expr, t: TSt, rank: nat)
    requires TOk(t) && e.CopyE? && Wf(e)
    ensures Wf(e.a) && Height(e.a) < Height(e) && WfDest(e.dest) && CopyCode(e.code)
    ensures Enc(e) == [e.code] + (Enc(e.a) + EncDest(e.dest))
    ensures Sem(g, e, t, rank) == (var x := Sem(g, e.a, t, rank); if x.None? then None
            else PutVal(g, e.dest, x.value.val, x.value.st))
  {
    hide PutVal, EncDest, WfDest;
  }

  lemma CopySim(c: Env, g: Program, e: Expr, p: seq<Byte>, len: nat, pos: nat, st: St, t: TSt, F: set<nat>, rank: nat)
    requires Ready(c, g, st, t, F) && e.CopyE? && Wf(e) && Code(p, pos, len, Enc(e))
    requires st.exprDepth + Height(e) <= MAX_EXPR_DEPTH + 1 && Sem(g, e, t, rank).Some?
    ensures Yields(EvalOp(c, p, len, pos, st, rank), pos + |Enc(e)|, Sem(g, e, t, rank).value, t.used, F)
    decreases Fuel(t.depth, t.used), rank, e, 7
  {
    hide Sem, Enc, Wf, Height, Eval, EvalOp, Data, Rep, Valid, EnvMatch, Grow, Finish, StoreTo, PutVal, EncDest,
      WfDest, AsInt, AsInteger, ApplyUn;
    DataValid(st, t, F);
    CopyShape(g, e, t, rank);
    CodeHead(p, pos, len, e.code, Enc(e.a) + EncDest(e.dest));
    CodeSplit(p, pos + 1, len, Enc(e.a), EncDest(e.dest));
    Dispatch(c, p, len, pos, st, rank);
    EvalSim(c, g, e.a, p, len, pos + 1, st, t, F, rank);
    var x, q := Eval(c, p, len, pos + 1, st, rank), Sem(g, e.a, t, rank).value;
    var F1 := Grow(F, t.used, q.st.used);
    DataValid(x.st, q.st, F1);
    RepInt(x.st.nodes, F1, x.val, q.val);
    FinishAfter(c, g, e.dest, p, len, x.pos, x.val, q.val, x.st, q.st, F, t.used);
  }

  lemma OneRep(nodes: seq<Value>, F: set<nat>, code: Byte, v: Value, t: Tree)
    requires Rep(nodes, F, v, t) && Inside(v, ARENA_CAP) && OneCode(code)
    ensures Rep(nodes, F, OneOperand(code, v), OneVal(code, t))
  {
    RepInt(nodes, F, v, t);
  }

  lemma ValidSize(st: St)
    requires Valid(st)
    ensures |st.nodes| <= ARENA_CAP
  {
  }

  lemma OneShape(g: Program, e: Expr, t: TSt, rank: nat)
    requires TOk(t) && e.OneE? && Wf(e)
    ensures Wf(e.a) && Height(e.a) < Height(e) && OneCode(e.code)
    ensures Enc(e) == [e.code] + Enc(e.a)
    ensures Sem(g, e, t, rank) == (var x := Sem(g, e.a, t, rank); if x.None? then None
            else Some(EV(OneVal(e.code, x.value.val), x.value.st)))
  {
    hide OneVal;
  }

  lemma OneSim(c: Env, g: Program, e: Expr, p: seq<Byte>, len: nat, pos: nat, st: St, t: TSt, F: set<nat>, rank: nat)
    requires Ready(c, g, st, t, F) && e.OneE? && Wf(e) && Code(p, pos, len, Enc(e))
    requires st.exprDepth + Height(e) <= MAX_EXPR_DEPTH + 1 && Sem(g, e, t, rank).Some?
    ensures Yields(EvalOp(c, p, len, pos, st, rank), pos + |Enc(e)|, Sem(g, e, t, rank).value, t.used, F)
    decreases Fuel(t.depth, t.used), rank, e, 7
  {
    hide Sem, Enc, Wf, Height, Eval, EvalOp, Data, Rep, Valid, EnvMatch, Grow, AsInt, AsInteger, OneOperand, OneVal;
    DataValid(st, t, F);
    OneShape(g, e, t, rank);
    CodeHead(p, pos, len, e.code, Enc(e.a));
    Dispatch(c, p, len, pos, st, rank);
    EvalSim(c, g, e.a, p, len, pos + 1, st, t, F, rank);
    var x, q := Eval(c, p, len, pos + 1, st, rank), Sem(g, e.a, t, rank).value;
    var F1 := Grow(F, t.used, q.st.used);
    DataValid(x.st, q.st, F1);
    RepInt(x.st.nodes, F1, x.val, q.val);
    ValidSize(x.st);
    OneRep(x.st.nodes, F1, e.code, x.val, q.val);
  }

  lemma WaitShape(g: Program, e: Expr, t: TSt, rank: nat)
    requires TOk(t) && (e.WaitE? || e.AcquireE?) && Wf(e)
    ensures Wf(e.a) && Height(e.a) < Height(e) && (e.WaitE? ==> WaitCode(e.code))
    ensures e.WaitE? ==> Enc(e) == [0x5B] + ([e.code] + Enc(e.a))
    ensures e.AcquireE? ==> Enc(e) == [0x5B] + ([0x23] + (Enc(e.a) + ToLe(e.timeout, 2)))
    ensures Sem(g, e, t, rank) == (var x := Sem(g, e.a, t, rank); if x.None? then None
            else Some(EV(TInt(0), x.value.st)))
  {
    hide ToLe;
  }

  /** Stall, Sleep, Release and Acquire evaluate their operand and yield zero; Acquire skips a timeout. */
  lemma WaitSim(c: Env, g: Program, e: Expr, p: seq<Byte>, len: nat, pos: nat, st: St, t: TSt, F: set<nat>, rank: nat)
    requires Ready(c, g, st, t, F) && (e.WaitE? || e.AcquireE?) && Wf(e) && Code(p, pos, len, Enc(e))
    requires st.exprDepth + Height(e) <= MAX_EXPR_DEPTH + 1 && Sem(g, e, t, rank).Some?
    ensures Yields(EvalOp(c, p, len, pos, st, rank), pos + |Enc(e)|, Sem(g, e, t, rank).value, t.used, F)
    decreases Fuel(t.depth, t.used), rank, e, 7
  {
    hide Sem, Enc, Wf, Height, Eval, EvalOp, Data, Rep, Valid, EnvMatch, Grow, AsInt, TargetOf, Search, NameAt, ToLe;
    DataValid(st, t, F);
    WaitShape(g, e, t, rank);
    if e.WaitE? {
      CodeHead(p, pos, len, 0x5B, [e.code] + Enc(e.a));
      CodeHead(p, pos + 1, len, e.code, Enc(e.a));
    } else {
      CodeHead(p, pos, len, 0x5B, [0x23] + (Enc(e.a) + ToLe(e.timeout, 2)));
      CodeHead(p, pos + 1, len, 0x23, Enc(e.a) + ToLe(e.timeout, 2));
      CodeSplit(p, pos + 2, len, Enc(e.a), ToLe(e.timeout, 2));
    }
    Dispatch(c, p, len, pos, st, rank);
    EvalSim(c, g, e.a, p, len, pos + 2, st, t, F, rank);
    var x, q := Eval(c, p, len, pos + 2, st, rank), Sem(g, e.a, t, rank).value;
    RepNumber(x.st.nodes, Grow(F, t.used, q.st.used), 0);
  }

  lemma LogicShape(g: Program, e: Expr, t: TSt, rank: nat)
    requires TOk(t) && e.LogicE? && Wf(e)
    ensures Wf(e.a) && Wf(e.b) && Height(e.a) < Height(e) && Height(e.b) < Height(e)
    ensures Enc(e) == [LogicOpcode(e.lop)] + (Enc(e.a) + Enc(e.b))
    ensures Sem(g, e, t, rank) == (var q := SemTwo(g, e, t, rank); if q.None? then None
            else Some(EV(TInt(Truth(Holds(e.lop, AsInt(q.value.a), AsInt(q.value.b)))), q.value.st)))
  {
    hide SemTwo, AsInt, Holds, Truth, LogicOpcode;
  }

  lemma LogicSim(c: Env, g: Program, e: Expr, p: seq<Byte>, len: nat, pos: nat, st: St, t: TSt, F: set<nat>, rank: nat)
    requires Ready(c, g, st, t, F) && e.LogicE? && Wf(e) && Code(p, pos, len, Enc(e))
    requires st.exprDepth + Height(e) <= MAX_EXPR_DEPTH + 1 && Sem(g, e, t, rank).Some?
    ensures Yields(EvalOp(c, p, len, pos, st, rank), pos + |Enc(e)|, Sem(g, e, t, rank).value, t.used, F)
    decreases Fuel(t.depth, t.used), rank, e, 7
  {
    hide Sem, Enc, Wf, Height, Eval, EvalOp, Data, Rep, Valid, EnvMatch, Grow, EvalTwo, AsInt, Holds, Truth,
      LogicOpcode, SemTwo;
    DataValid(st, t, F);
    LogicShape(g, e, t, rank);
    CodeHead(p, pos, len, LogicOpcode(e.lop), Enc(e.a) + Enc(e.b));
    CodeSplit(p, pos + 1, len, Enc(e.a), Enc(e.b));
    DispatchOps(c, p, len, pos, st, rank, Add, e.lop);
    TwoSim(c, g, e, p, len, pos + 1, st, t, F, rank);
    var q, w := SemTwo(g, e, t, rank).value, EvalTwo(c, p, len, pos + 1, st, rank);
    DataValid(w.st, q.st, Grow(F, t.used, q.st.used));
    RepNumber(w.st.nodes, Grow(F, t.used, q.st.used), Truth(Holds(e.lop, w.a, w.b)));
  }

  lemma LogicNotShape(g: Program, e: Expr, t: TSt, rank: nat)
    requires TOk(t) && e.LogicNotE? && Wf(e)
    ensures Wf(e.a) && Wf(e.b) && Height(e.a) < Height(e) && Height(e.b) < Height(e) && Fusable(e.lop)
    ensures Enc(e) == [0x92] + ([LogicOpcode(e.lop)] + (Enc(e.a) + Enc(e.b)))
    ensures Sem(g, e, t, rank) == (var q := SemTwo(g, e, t, rank); if q.None? then None
            else Some(EV(TInt(Truth(!Holds(e.lop, AsInt(q.value.a), AsInt(q.value.b)))), q.value.st)))
  {
    hide SemTwo, AsInt, Holds, Truth, LogicOpcode;
  }

  /** The fused two-byte forms LNotEqual, LLessEqual and LGreaterEqual. */
  lemma LogicNotSim(c: Env, g: Program, e: Expr, p: seq<Byte>, len: nat, pos: nat, st: St, t: TSt, F: set<nat>,
                    rank: nat)
    requires Ready(c, g, st, t, F) && e.LogicNotE? && Wf(e) && Code(p, pos, len, Enc(e))
    requires st.exprDepth + Height(e) <= MAX_EXPR_DEPTH + 1 && Sem(g, e, t, rank).Some?
    ensures Yields(EvalOp(c, p, len, pos, st, rank), pos + |Enc(e)|, Sem(g, e, t, rank).value, t.used, F)
    decreases Fuel(t.depth, t.used), rank, e, 7
  {
    hide Sem, Enc, Wf, Height, Eval, EvalOp, Data, Rep, Valid, EnvMatch, Grow, EvalTwo, AsInt, Holds, Truth, SemTwo;
    DataValid(st, t, F);
    LogicNotShape(g, e, t, rank);
    CodeHead(p, pos, len, 0x92, [LogicOpcode(e.lop)] + (Enc(e.a) + Enc(e.b)));
    CodeHead(p, pos + 1, len, LogicOpcode(e.lop), Enc(e.a) + Enc(e.b));
    CodeSplit(p, pos + 2, len, Enc(e.a), Enc(e.b));
    Dispatch(c, p, len, pos, st, rank);
    assert EvalLNot(c, p, len, pos, st, rank) == EvalLogic(c, p, len, pos, pos + 2, st, rank, e.lop, false);
    TwoSim(c, g, e, p, len, pos + 2, st, t, F, rank);
    var q, w := SemTwo(g, e, t, rank).value, EvalTwo(c, p, len, pos + 2, st, rank);
    RepNumber(w.st.nodes, Grow(F, t.used, q.st.used), Truth(!Holds(e.lop, w.a, w.b)));
  }

  /** Only a comparison starts with a byte that LNot would fuse with. */
  lemma FirstByte(e: Expr)
    requires Wf(e)
    ensures 0x93 <= Enc(e)[0] <= 0x95 <==> e.LogicE? && Fusable(e.lop)
    ensures Enc(e)[0] !in {0xA4, 0xA3, 0xCC, 0xA5, 0x9F, 0xA0, 0xA1, 0xA2, 0x86}
  {
    hide Enc, WfAll, Height, HeightAll, EncName, WfName, WfDest, Opcode, UnOpcode, LogicOpcode, LitOp;
    EncFirst(e);
    if e.Ref? { NameFirst(e.name); } else { LeadByte(e); }
  }

  lemma LeadByte(e: Expr)
    requires !e.Ref? && (e.CopyE? ==> CopyCode(e.code)) && (e.OneE? ==> OneCode(e.code))
    ensures 0x93 <= Lead(e) <= 0x95 <==> e.LogicE? && Fusable(e.lop)
    ensures Lead(e) !in {0xA4, 0xA3, 0xCC, 0xA5, 0x9F, 0xA0, 0xA1, 0xA2, 0x86}
  {
  }

  /** The first byte an expression is encoded with. */
  function Lead(e: Expr): (b: Byte)
  {
    match e
    case Zero => 0
    case One => 1
    case AllOnes => 0xFF
    case Lit(width, v) => LitOp(width)
    case Text(bytes) => 0x0D
    case Local(i) => if i < 8 then 0x60 + i else 0
    case Arg(i) => if i < 7 then 0x68 + i else 0
    case BufferE(size, init) => 0x11
    case PackageE(count, elems) => 0x12
    case VarPackageE(length, elems) => 0x13
    case Bin(op, a, b, dest) => Opcode(op)
    case DivideE(a, b, rem, quo) => 0x78
    case Un(uop, a, dest) => UnOpcode(uop)
    case StepE(up, dest) => if up then 0x75 else 0x76
    case LogicE(lop, a, b) => LogicOpcode(lop)
    case LogicNotE(lop, a, b) => 0x92
    case LNotE(a) => 0x92
    case CopyE(code, a, dest) => code
    case OneE(code, a) => code
    case IndexE(a, b, dest) => 0x88
    case ExistsE(name, dest) => 0x5B
    case WaitE(_, _) => 0x5B
    case AcquireE(_, _) => 0x5B
    case Ref(name, args) => EncName(name)[0]
  }

  lemma EncFirst(e: Expr)
    requires Wf(e)
    ensures Enc(e)[0] == Lead(e)
  {
    hide Pack, EncName, Opcode, UnOpcode, LogicOpcode, LitOp, EncAll, EncDest, ToLe, WfName;
  }

  lemma NameFirst(name: NameRef)
    requires WfName(name)
    ensures 0x2E <= EncName(name)[0] <= 0x5F
  {
    NameStartByte(name);
  }

  lemma LNotFusedShape(g: Program, e: Expr, t: TSt, rank: nat)
    requires TOk(t) && e.LNotE? && e.a.LogicE? && Fusable(e.a.lop) && Wf(e)
    ensures Wf(e.a.a) && Wf(e.a.b) && Height(e.a.a) < Height(e) && Height(e.a.b) < Height(e)
    ensures Enc(e) == [0x92] + ([LogicOpcode(e.a.lop)] + (Enc(e.a.a) + Enc(e.a.b)))
    ensures Sem(g, e, t, rank) == (var q := SemTwo(g, e.a, t, rank); if q.None? then None
            else Some(EV(TInt(Truth(!Holds(e.a.lop, AsInt(q.value.a), AsInt(q.value.b)))), q.value.st)))
  {
    hide SemTwo, Holds, LogicOpcode;
    assert Sem(g, e, t, rank) == OneSem(g, e, t, rank) && Sem(g, e.a, t, rank) == TwoSem(g, e.a, t, rank);
  }

  /** LNot of a comparison is decoded as the fused form, with the same meaning. */
  lemma LNotFusedSim(c: Env, g: Program, e: Expr, p: seq<Byte>, len: nat, pos: nat, st: St, t: TSt, F: set<nat>,
                     rank: nat)
    requires Ready(c, g, st, t, F) && e.LNotE? && e.a.LogicE? && Fusable(e.a.lop) && Wf(e) && Code(p, pos, len, Enc(e))
    requires st.exprDepth + Height(e) <= MAX_EXPR_DEPTH + 1 && Sem(g, e, t, rank).Some?
    ensures Yields(EvalOp(c, p, len, pos, st, rank), pos + |Enc(e)|, Sem(g, e, t, rank).value, t.used, F)
    decreases Fuel(t.depth, t.used), rank, e, 7
  {
    hide Sem, Enc, Wf, Height, Eval, EvalOp, Data, Rep, Valid, EnvMatch, Grow, EvalTwo, Holds, SemTwo, Truth, AsInt;
    DataValid(st, t, F);
    LNotFusedShape(g, e, t, rank);
    var l := e.a;
    CodeHead(p, pos, len, 0x92, [LogicOpcode(l.lop)] + (Enc(l.a) + Enc(l.b)));
    CodeHead(p, pos + 1, len, LogicOpcode(l.lop), Enc(l.a) + Enc(l.b));
    CodeSplit(p, pos + 2, len, Enc(l.a), Enc(l.b));
    Dispatch(c, p, len, pos, st, rank);
    assert EvalLNot(c, p, len, pos, st, rank) == EvalLogic(c, p, len, pos, pos + 2, st, rank, l.lop, false);
    TwoSim(c, g, l, p, len, pos + 2, st, t, F, rank);
    var q, w := SemTwo(g, l, t, rank).value, EvalTwo(c, p, len, pos + 2, st, rank);
    RepNumber(w.st.nodes, Grow(F, t.used, q.st.used), Truth(!Holds(l.lop, w.a, w.b)));
  }

  lemma LNotShape(g: Program, e: Expr, t: TSt, rank: nat)
    requires TOk(t) && e.LNotE? && !(e.a.LogicE? && Fusable(e.a.lop)) && Wf(e)
    ensures Wf(e.a) && Height(e.a) < Height(e)
    ensures Enc(e) == [0x92] + Enc(e.a)
    ensures Sem(g, e, t, rank) == (var x := Sem(g, e.a, t, rank); if x.None? then None
            else Some(EV(TInt(Truth(AsInt(x.value.val) == 0)), x.value.st)))
  {
    hide AsInt, Truth;
  }

  lemma LNotSim(c: Env, g: Program, e: Expr, p: seq<Byte>, len: nat, pos: nat, st: St, t: TSt, F: set<nat>, rank: nat)
    requires Ready(c, g, st, t, F) && e.LNotE? && !(e.a.LogicE? && Fusable(e.a.lop)) && Wf(e)
    requires Code(p, pos, len, Enc(e))
    requires st.exprDepth + Height(e) <= MAX_EXPR_DEPTH + 1 && Sem(g, e, t, rank).Some?
    ensures Yields(EvalOp(c, p, len, pos, st, rank), pos + |Enc(e)|, Sem(g, e, t, rank).value, t.used, F)
    decreases Fuel(t.depth, t.used), rank, e, 7
  {
    hide Sem, Enc, Wf, Height, Eval, EvalOp, Data, Rep, Valid, EnvMatch, Grow, AsInt, AsInteger, EvalLogic, Truth;
    DataValid(st, t, F);
    LNotShape(g, e, t, rank);
    FirstByte(e.a);
    assert p[pos + 1] == Enc(e.a)[0] by {
      AtHead(p, pos, 0x92, Enc(e.a));
      assert p[pos + 1..pos + 1 + |Enc(e.a)|][0] == p[pos + 1];
    }
    CodeHead(p, pos, len, 0x92, Enc(e.a));
    Dispatch(c, p, len, pos, st, rank);
    EvalSim(c, g, e.a, p, len, pos + 1, st, t, F, rank);
    var x, q := Eval(c, p, len, pos + 1, st, rank), Sem(g, e.a, t, rank).value;
    var F1 := Grow(F, t.used, q.st.used);
    DataValid(x.st, q.st, F1);
    RepInt(x.st.nodes, F1, x.val, q.val);
    RepNumber(x.st.nodes, F1, Truth(AsInteger(x.val) == 0));
  }

  lemma ElementRep(st: St, F: set<nat>, v: Value, tv: Tree, i: nat)
    requires Valid(st) && Rep(st.nodes, F, v, tv) && Inside(v, |st.nodes|)
    ensures Rep(st.nodes, F, Element(st, v, i), Nth(tv, i))
  {
    hide Valid;
    if tv.TPkg? && i < |tv.elems| { assert RepSlot(st.nodes, F, v.first + i, tv.elems[i]); }
  }

  lemma IndexOperands(c: Env, g: Program, e: Expr, p: seq<Byte>, len: nat, pos: nat, st: St, t: TSt, F: set<nat>,
                      rank: nat)
    requires Ready(c, g, st, t, F) && HasTwo(e) && Wf(e.a) && Wf(e.b)
    requires Code(p, pos, len, Enc(e.a)) && Code(p, pos + |Enc(e.a)|, len, Enc(e.b))
    requires st.exprDepth + Height(e.a) <= MAX_EXPR_DEPTH && st.exprDepth + Height(e.b) <= MAX_EXPR_DEPTH
    requires SemTwo(g, e, t, rank).Some?
    ensures Sem(g, e.a, t, rank).Some? && Sem(g, e.b, Sem(g, e.a, t, rank).value.st, rank).Some?
    ensures var x, q := Eval(c, p, len, pos, st, rank), SemTwo(g, e, t, rank).value;
            && x.ok
            && var i := Eval(c, p, len, x.pos, x.st, rank);
               var qx, qi := Sem(g, e.a, t, rank).value, Sem(g, e.b, Sem(g, e.a, t, rank).value.st, rank).value;
               && Yields(x, pos + |Enc(e.a)|, qx, t.used, F)
               && Yields(i, pos + |Enc(e.a)| + |Enc(e.b)|, qi, qx.st.used, Grow(F, t.used, qx.st.used))
               && q == Pair(qx.val, qi.val, qi.st)
    decreases Fuel(t.depth, t.used), rank, e, 6
  {
    hide Eval, Data, Rep, Valid, EnvMatch, Enc, Sem, Wf, Height, Grow;
    DataValid(st, t, F);
    EvalSim(c, g, e.a, p, len, pos, st, t, F, rank);
    var x, qx := Eval(c, p, len, pos, st, rank), Sem(g, e.a, t, rank).value;
    EvalSim(c, g, e.b, p, len, x.pos, x.st, qx.st, Grow(F, t.used, qx.st.used), rank);
  }

  lemma IndexShape(g: Program, e: Expr, t: TSt, rank: nat)
    requires TOk(t) && e.IndexE? && Wf(e)
    ensures Wf(e.a) && Wf(e.b) && Height(e.a) < Height(e) && Height(e.b) < Height(e) && WfDest(e.dest)
    ensures Enc(e) == [0x88] + (Enc(e.a) + (Enc(e.b) + EncDest(e.dest)))
    ensures Sem(g, e, t, rank) == (var q := SemTwo(g, e, t, rank); if q.None? then None
            else PutVal(g, e.dest, Nth(q.value.a, AsInt(q.value.b)), q.value.st))
  {
    hide SemTwo, PutVal, Nth, AsInt, EncDest, WfDest;
  }

  lemma IndexSim(c: Env, g: Program, e: Expr, p: seq<Byte>, len: nat, pos: nat, st: St, t: TSt, F: set<nat>, rank: nat)
    requires Ready(c, g, st, t, F) && e.IndexE? && Wf(e) && Code(p, pos, len, Enc(e))
    requires st.exprDepth + Height(e) <= MAX_EXPR_DEPTH + 1 && Sem(g, e, t, rank).Some?
    ensures Yields(EvalOp(c, p, len, pos, st, rank), pos + |Enc(e)|, Sem(g, e, t, rank).value, t.used, F)
    decreases Fuel(t.depth, t.used), rank, e, 7
  {
    hide Sem, Enc, Wf, Height, Eval, EvalOp, Data, Rep, Valid, EnvMatch, Grow, Finish, StoreTo, PutVal, EncDest,
      WfDest, AsInt, AsInteger, Nth, Element, SemTwo;
    DataValid(st, t, F);
    IndexShape(g, e, t, rank);
    CodeHead(p, pos, len, 0x88, Enc(e.a) + (Enc(e.b) + EncDest(e.dest)));
    CodeSplit(p, pos + 1, len, Enc(e.a), Enc(e.b) + EncDest(e.dest));
    CodeSplit(p, pos + 1 + |Enc(e.a)|, len, Enc(e.b), EncDest(e.dest));
    Dispatch(c, p, len, pos, st, rank);
    IndexOperands(c, g, e, p, len, pos + 1, st, t, F, rank);
    var x, qx := Eval(c, p, len, pos + 1, st, rank), Sem(g, e.a, t, rank).value;
    var i, qi := Eval(c, p, len, x.pos, x.st, rank), Sem(g, e.b, qx.st, rank).value;
    DataValid(x.st, qx.st, Grow(F, t.used, qx.st.used));
    IndexFinish(c, g, e.dest, p, len, x.st.nodes, x.val, qx.val, i, qi, F, t.used, qx.st.used);
  }

  lemma IndexFinish(c: Env, g: Program, d: Dest, p: seq<Byte>, len: nat, nodes: seq<Value>, v: Value, tv: Tree, i: R,
                    qi: EV,
                    F: set<nat>, a: nat, b: nat)
    requires EnvMatch(c, g) && WfDest(d) && Code(p, i.pos, len, EncDest(d)) && a <= b <= qi.st.used && |nodes| == b
    requires Yields(i, i.pos, qi, b, Grow(F, a, b)) && nodes <= i.st.nodes && Inside(v, |nodes|)
    requires forall k :: k in F ==> k < a
    requires Rep(nodes, Grow(F, a, b), v, tv) && PutVal(g, d, Nth(tv, AsInt(qi.val)), qi.st).Some?
    ensures Valid(i.st) && Inside(v, |i.st.nodes|)
    ensures Yields(Finish(c, p, len, i.pos, Element(i.st, v, AsInteger(i.val)), i.st), i.pos + |EncDest(d)|,
                   PutVal(g, d, Nth(tv, AsInt(qi.val)), qi.st).value, a, F)
  {
    hide Data, Rep, Valid, EnvMatch, Finish, StoreTo, PutVal, EncDest, WfDest, AsInt, AsInteger, Nth, Element;
    var F2 := Grow(F, a, qi.st.used);
    GrowTwice(F, a, b, qi.st.used);
    DataValid(i.st, qi.st, F2);
    RepInt(i.st.nodes, F2, i.val, qi.val);
    RepKept(nodes, i.st.nodes, Grow(F, a, b), b, qi.st.used, v, tv);
    ElementRep(i.st, F2, v, tv, AsInt(qi.val));
    FinishAfter(c, g, d, p, len, i.pos, Element(i.st, v, AsInteger(i.val)), Nth(tv, AsInt(qi.val)), i.st, qi.st, F, a);
  }

  lemma TargetDecodes(c: Env, d: Dest, p: seq<Byte>, len: nat, pos: nat, scope: Path)
    requires WfDest(d) && Code(p, pos, len, EncDest(d))
    ensures TargetOf(c, p, len, pos, scope).Some? && TargetOf(c, p, len, pos, scope).value.next == pos + |EncDest(d)|
  {
    hide NameAt, Search, EncName, WfName;
    if d.NameD? {
      TargetName(c, p, len, pos, d.name, scope);
    } else {
      CodeHead(p, pos, len, EncDest(d)[0], []);
    }
  }

  lemma ExistsShape(g: Program, e: Expr, t: TSt, rank: nat)
    requires TOk(t) && e.ExistsE? && Wf(e)
    ensures WfName(e.name) && WfDest(e.dest)
    ensures Enc(e) == [0x5B] + ([0x12] + (EncName(e.name) + EncDest(e.dest)))
    ensures Sem(g, e, t, rank) == Some(EV(TInt(Truth(Lookup(g.fields.Keys + g.objs.Keys, t.scope, e.name).Some?)), t))
  {
    hide WfName, WfDest, EncName, EncDest, Lookup;
  }

  lemma ExistsSim(c: Env, g: Program, e: Expr, p: seq<Byte>, len: nat, pos: nat, st: St, t: TSt, F: set<nat>, rank: nat)
    requires Ready(c, g, st, t, F) && e.ExistsE? && Wf(e) && Code(p, pos, len, Enc(e))
    requires st.exprDepth + Height(e) <= MAX_EXPR_DEPTH + 1 && Sem(g, e, t, rank).Some?
    ensures Yields(EvalOp(c, p, len, pos, st, rank), pos + |Enc(e)|, Sem(g, e, t, rank).value, t.used, F)
    decreases Fuel(t.depth, t.used), rank, e, 7
  {
    hide Sem, Enc, Wf, Height, Eval, EvalOp, Data, Rep, Valid, EnvMatch, Grow, EncDest, WfDest, Yields, NameAt,
      EncName, Search, Lookup, TargetOf, SameKeys, Print;
    DataValid(st, t, F);
    ExistsShape(g, e, t, rank);
    CodeHead(p, pos, len, 0x5B, [0x12] + (EncName(e.name) + EncDest(e.dest)));
    CodeHead(p, pos + 1, len, 0x12, EncName(e.name) + EncDest(e.dest));
    CodeSplit(p, pos + 2, len, EncName(e.name), EncDest(e.dest));
    Dispatch(c, p, len, pos, st, rank);
    TargetName(c, p, len, pos + 2, e.name, st.scope);
    TargetDecodes(c, e.dest, p, len, pos + 2 + |EncName(e.name)|, st.scope);
    UnionKeys(c, g);
    SearchCanonical(c.fields.Keys + c.entries.Keys, g.fields.Keys + g.objs.Keys, t.scope, e.name);
    var found := Lookup(g.fields.Keys + g.objs.Keys, t.scope, e.name).Some?;
    RepNumber(st.nodes, F, Truth(found));
    YieldsNow(EvalExt(c, p, len, pos, st, rank), pos + |Enc(e)|, Sem(g, e, t, rank).value, t, F);
  }

  // ----- names -----

  /** What the bytes of a name resolve to, in the tables and in the program. */
  lemma NameResolves(c: Env, g: Program, name: NameRef, p: seq<Byte>, len: nat, pos: nat, st: St, t: TSt, F: set<nat>,
                     rank: nat)
    requires Ready(c, g, st, t, F) && WfName(name) && Code(p, pos, len, EncName(name))
    ensures EvalOp(c, p, len, pos, st, rank) == EvalName(c, p, len, pos, pos + |EncName(name)|, name, st, rank)
    ensures var s := Lookup(g.fields.Keys + g.objs.Keys, t.scope, name);
            && Search(c.fields.Keys + c.entries.Keys, st.scope, name, 0) ==
               (if s.None? then None else Some(Print(s.value)))
            && (s.Some? ==> (Print(s.value) in c.fields <==> s.value in g.fields))
            && (s.Some? && s.value in g.fields ==> c.fields[Print(s.value)] == g.fields[s.value])
            && (s.Some? && s.value !in g.fields ==> s.value in g.objs && ObjMatch(c, Print(s.value), g.objs[s.value]))
            && (s.Some? ==> AllSegs(s.value) && |s.value| <= 12)
  {
    hide Data, Valid, NameAt, Search, EncName, Lookup, Print, SameKeys, EvalName, ObjMatch, TargetOf, EvalOp;
    DataValid(st, t, F);
    TargetName(c, p, len, pos, name, st.scope);
    DispatchName(c, p, len, pos, st, rank, name);
    UnionKeys(c, g);
    SearchCanonical(c.fields.Keys + c.entries.Keys, g.fields.Keys + g.objs.Keys, t.scope, name);
    LookupShape(g.fields.Keys + g.objs.Keys, t.scope, name);
    var s := Lookup(g.fields.Keys + g.objs.Keys, t.scope, name);
    if s.Some? { KeyAgrees(c.fields.Keys, g.fields.Keys, s.value); }
  }

  lemma FieldRefSim(c: Env, g: Program, name: NameRef, p: seq<Byte>, len: nat, pos: nat, st: St, t: TSt, F: set<nat>,
                    rank: nat, s: Segs)
    requires Ready(c, g, st, t, F) && WfName(name) && Code(p, pos, len, EncName(name))
    requires Lookup(g.fields.Keys + g.objs.Keys, t.scope, name) == Some(s) && s in g.fields
    ensures Yields(EvalOp(c, p, len, pos, st, rank), pos + |EncName(name)|,
                   EV(GetField(g, g.fields[s], t.world), t), t.used, F)
  {
    hide Data, Rep, Valid, Search, EncName, Lookup, Print, FieldsMatch, ObjsMatch, FieldRead, GetField, Yields, Invoke,
      EvalOp;
    DataValid(st, t, F);
    NameResolves(c, g, name, p, len, pos, st, t, F, rank);
    GetFieldIsRead(g, g.fields[s], t.world);
    var v := FieldRead(g.regions, g.fields[s], t.world);
    var n := if v.Some? then v.value else ONES;
    RepNumber(st.nodes, F, n);
    YieldsNow(EvalName(c, p, len, pos, pos + |EncName(name)|, name, st, rank), pos + |EncName(name)|,
              EV(TInt(n), t), t, F);
  }

  lemma VarWf(i: nat)
    ensures i < 8 ==> Wf(Local(i)) && Height(Local(i)) == 1
    ensures i < 7 ==> Wf(Arg(i)) && Height(Arg(i)) == 1
  {
  }

  lemma PaddedBytes(p: seq<Byte>, pos: nat, end: nat, init: seq<Byte>, n: nat)
    requires At(p, pos, init) && end == pos + |init|
    ensures BufferBytes(p, pos, end, n) == Padded(init, n)
  {
    forall i | 0 <= i < n ensures BufferBytes(p, pos, end, n)[i] == Padded(init, n)[i] {
      if i < |init| { assert p[pos..pos + |init|][i] == init[i]; }
    }
  }

  lemma BufferShape(g: Program, e: Expr, t: TSt, rank: nat)
    requires TOk(t) && e.BufferE? && Wf(e)
    ensures Wf(e.size) && Height(e.size) < Height(e) && |Enc(e.size) + e.init| < BODY_CAP
    ensures Enc(e) == [0x11] + Wrap(Enc(e.size) + e.init)
    ensures Sem(g, e, t, rank) == (var n := Sem(g, e.size, t, rank); if n.None? then None
            else Some(EV(TBuf(Padded(e.init, Min(AsInt(n.value.val), BUF_CAP))), n.value.st)))
  {
    hide AsInt, Padded, Wrap;
  }

  lemma BufferSim(c: Env, g: Program, e: Expr, p: seq<Byte>, len: nat, pos: nat, st: St, t: TSt, F: set<nat>, rank: nat)
    requires Ready(c, g, st, t, F) && e.BufferE? && Wf(e) && Code(p, pos, len, Enc(e))
    requires st.exprDepth + Height(e) <= MAX_EXPR_DEPTH + 1 && Sem(g, e, t, rank).Some?
    ensures Yields(EvalOp(c, p, len, pos, st, rank), pos + |Enc(e)|, Sem(g, e, t, rank).value, t.used, F)
    decreases Fuel(t.depth, t.used), rank, e, 7
  {
    hide Sem, Enc, Wf, Height, Eval, EvalOp, Data, Rep, Valid, EnvMatch, Grow, AsInt, AsInteger, PkgAt, Wrap,
      BufferBytes, Padded;
    DataValid(st, t, F);
    BufferShape(g, e, t, rank);
    var body := Enc(e.size) + e.init;
    CodeHead(p, pos, len, 0x11, Wrap(body));
    WrapDecodes(body, p, pos + 1, len);
    var q := pos + 1 + |Wrap(body)| - |body|;
    AtSplit(p, q, Enc(e.size), e.init);
    Dispatch(c, p, len, pos, st, rank);
    EvalSim(c, g, e.size, p, len, q, st, t, F, rank);
    var x, qx := Eval(c, p, len, q, st, rank), Sem(g, e.size, t, rank).value;
    RepInt(x.st.nodes, Grow(F, t.used, qx.st.used), x.val, qx.val);
    var n := Min(AsInt(qx.val), BUF_CAP);
    PaddedBytes(p, x.pos, pos + 1 + |Wrap(body)|, e.init, n);
    RepText(x.st.nodes, Grow(F, t.used, qx.st.used), Padded(e.init, n));
  }

  // ----- packages -----

  /** Writing a slot that no finished package uses disturbs nothing. */
  lemma DataSetNode(st: St, t: TSt, F: set<nat>, k: nat, v: Value)
    requires Data(st, t, F) && k < |st.nodes| && k !in F && Inside(v, |st.nodes|)
    ensures Valid(st) && Data(SetNode(st, k, v), t, F)
  {
    hide Rep, Print;
    var s := SetNode(st, k, v);
    RepAllMono(st.nodes, F, s.nodes, F, st.locals, t.locals);
    RepAllMono(st.nodes, F, s.nodes, F, st.args, t.args);
  }

  /** Reserved slots are allocated but not frozen. */
  lemma DataReserve(st: St, t: TSt, F: set<nat>, n: nat)
    requires Data(st, t, F)
    ensures Valid(st) && Data(Reserve(st, n), t.(used := t.used + Min(n, ARENA_CAP - t.used)), F)
  {
    hide Rep, Print;
    var s := Reserve(st, n);
    RepAllMono(st.nodes, F, s.nodes, F, st.locals, t.locals);
    RepAllMono(st.nodes, F, s.nodes, F, st.args, t.args);
  }

  lemma DataFreeze(st: St, t: TSt, F: set<nat>, G: set<nat>)
    requires Data(st, t, F) && F <= G && forall k :: k in G ==> k < t.used
    ensures Data(st, t, G)
  {
    hide Rep, Print;
    RepAllMono(st.nodes, F, st.nodes, G, st.locals, t.locals);
    RepAllMono(st.nodes, F, st.nodes, G, st.args, t.args);
  }

  /** Slot `first + e + j` holds element `j`. */
  ghost predicate Filled(nodes: seq<Value>, F: set<nat>, from: nat, vals: seq<Tree>)
  {
    from + |vals| <= |nodes| && forall j :: 0 <= j < |vals| ==> Rep(nodes, F, nodes[from + j], vals[j])
  }

  lemma FilledCons(nodes: seq<Value>, F: set<nat>, from: nat, v: Tree, vals: seq<Tree>)
    requires from < |nodes| && Rep(nodes, F, nodes[from], v) && Filled(nodes, F, from + 1, vals)
    ensures Filled(nodes, F, from, [v] + vals)
  {
    hide Rep;
    forall j | 0 <= j < |[v] + vals| ensures Rep(nodes, F, nodes[from + j], ([v] + vals)[j]) {
      if j > 0 { assert Rep(nodes, F, nodes[from + 1 + (j - 1)], vals[j - 1]); }
    }
  }

  lemma EncAllShape(es: seq<Expr>)
    ensures EncAll(es) == [] <==> es == []
    ensures es != [] ==> EncAll(es) == Enc(es[0]) + EncAll(es[1..])
    ensures es != [] && WfAll(es) ==> Wf(es[0]) && WfAll(es[1..])
    ensures es != [] ==> Height(es[0]) <= HeightAll(es) && HeightAll(es[1..]) <= HeightAll(es)
  {
    hide Enc, Wf, Height;
  }

  lemma SemAllShape(g: Program, es: seq<Expr>, t: TSt, rank: nat, k: nat)
    requires TOk(t) && SemAll(g, es, t, rank, k).Some?
    ensures k == 0 || es == [] ==> SemAll(g, es, t, rank, k).value == EVs([], t)
    ensures k > 0 && es != [] ==>
              && Sem(g, es[0], t, rank).Some?
              && var x := Sem(g, es[0], t, rank).value;
                 && SemAll(g, es[1..], x.st, rank, k - 1).Some?
                 && var vs := SemAll(g, es[1..], x.st, rank, k - 1).value;
                    SemAll(g, es, t, rank, k).value == EVs([x.val] + vs.vals, vs.st)
  {
    hide Sem;
  }

  /** The open slots of the package being filled are outside the frozen set. */
  ghost predicate Open(F: set<nat>, a: nat, b: nat) { forall k :: a <= k < b ==> k !in F }

  /** Filling a package's slots: element by element, with the open slots kept out of the frozen set. */
  lemma FillSim(c: Env, g: Program, es: seq<Expr>, p: seq<Byte>, end: nat, pos: nat, st: St, t: TSt, F: set<nat>,
                rank: nat,
                first: nat, e: nat, count: nat)
    requires Ready(c, g, st, t, F) && WfAll(es) && Code(p, pos, end, EncAll(es)) && pos + |EncAll(es)| == end
    requires st.exprDepth + HeightAll(es) <= MAX_EXPR_DEPTH && e <= count && first + count <= t.used
    requires Open(F, first, first + count) && SemAll(g, es, t, rank, count - e).Some?
    ensures Valid(st) && first + count <= |st.nodes|
    ensures var r := FillSlots(c, p, end, pos, st, rank, first, e, count);
            var q := SemAll(g, es, t, rank, count - e).value;
            var G := Grow(F, t.used, q.st.used);
            && Data(r, q.st, G) && Filled(r.nodes, G, first + e, q.vals)
            && forall i :: first + e + |q.vals| <= i < first + count ==> r.nodes[i] == st.nodes[i]
    decreases Fuel(t.depth, t.used), rank, es, 4
  {
    hide Eval, Data, Rep, Valid, EnvMatch, Enc, Sem, SemAll, EncAll, Wf, WfAll, Height, HeightAll;
    DataValid(st, t, F);
    EncAllShape(es);
    SemAllShape(g, es, t, rank, count - e);
    if e == count || es == [] {
      GrowNone(F, t.used);
    } else {
      FillStep(c, g, es, p, end, pos, st, t, F, rank, first, e, count);
    }
  }

  lemma FillStep(c: Env, g: Program, es: seq<Expr>, p: seq<Byte>, end: nat, pos: nat, st: St, t: TSt, F: set<nat>,
                 rank: nat,
                 first: nat, e: nat, count: nat)
    requires Ready(c, g, st, t, F) && WfAll(es) && Code(p, pos, end, EncAll(es)) && pos + |EncAll(es)| == end
    requires st.exprDepth + HeightAll(es) <= MAX_EXPR_DEPTH && e < count && first + count <= t.used && es != []
    requires Open(F, first, first + count) && SemAll(g, es, t, rank, count - e).Some?
    ensures Valid(st) && first + count <= |st.nodes|
    ensures var r := FillSlots(c, p, end, pos, st, rank, first, e, count);
            var q := SemAll(g, es, t, rank, count - e).value;
            var G := Grow(F, t.used, q.st.used);
            && Data(r, q.st, G) && Filled(r.nodes, G, first + e, q.vals)
            && forall i :: first + e + |q.vals| <= i < first + count ==> r.nodes[i] == st.nodes[i]
    decreases Fuel(t.depth, t.used), rank, es, 3
  {
    hide Eval, FillSlots, Data, Rep, Valid, EnvMatch, Enc, Sem, SemAll, EncAll, Wf, WfAll, Height, HeightAll, Filled,
      Grow;
    DataValid(st, t, F);
    EncAllShape(es);
    SemAllShape(g, es, t, rank, count - e);
    CodeSplit(p, pos, end, Enc(es[0]), EncAll(es[1..]));
    FillFirst(c, g, es[0], p, end, pos, st, t, F, rank, first, e, count);
    var x, qx := Eval(c, p, end, pos, st, rank), Sem(g, es[0], t, rank).value;
    var st1 := SetNode(x.st, first + e, x.val);
    var F1 := Grow(F, t.used, qx.st.used);
    FillSim(c, g, es[1..], p, end, x.pos, st1, qx.st, F1, rank, first, e + 1, count);
    var r := FillSlots(c, p, end, x.pos, st1, rank, first, e + 1, count);
    var q := SemAll(g, es[1..], qx.st, rank, count - e - 1).value;
    GrowTwice(F, t.used, qx.st.used, q.st.used);
    FillJoin(st1.nodes, F1, r.nodes, Grow(F, t.used, q.st.used), first, e, count, qx.val, q.vals);
  }

  /** One element: evaluated, stored in its open slot, everything finished undisturbed. */
  lemma FillFirst(c: Env, g: Program, el: Expr, p: seq<Byte>, end: nat, pos: nat, st: St, t: TSt, F: set<nat>,
                  rank: nat,
                  first: nat, e: nat, count: nat)
    requires Ready(c, g, st, t, F) && Wf(el) && Code(p, pos, end, Enc(el))
    requires st.exprDepth + Height(el) <= MAX_EXPR_DEPTH
    requires e < count && first + count <= t.used && Open(F, first, first + count) && Sem(g, el, t, rank).Some?
    ensures Valid(st) && first + count <= |st.nodes|
    ensures var x, qx := Eval(c, p, end, pos, st, rank), Sem(g, el, t, rank).value;
            var F1 := Grow(F, t.used, qx.st.used);
            && x.ok && x.pos == pos + |Enc(el)|
            && Valid(x.st) && first + e < |x.st.nodes| && Inside(x.val, |x.st.nodes|)
            && var s := SetNode(x.st, first + e, x.val);
               && FillSlots(c, p, end, pos, st, rank, first, e, count) ==
                  FillSlots(c, p, end, x.pos, s, rank, first, e + 1, count)
               && Data(s, qx.st, F1) && Rep(s.nodes, F1, s.nodes[first + e], qx.val) && Open(F1, first, first + count)
               && s.exprDepth == st.exprDepth && |s.nodes| == qx.st.used && (forall k :: k in F1 ==> k < qx.st.used)
               && forall i :: first + e + 1 <= i < first + count ==> s.nodes[i] == st.nodes[i]
    decreases Fuel(t.depth, t.used), rank, el, 10
  {
    hide Eval, Data, Rep, Valid, EnvMatch, Enc, Sem, Wf, Height, Grow;
    DataValid(st, t, F);
    EvalSim(c, g, el, p, end, pos, st, t, F, rank);
    var x, qx := Eval(c, p, end, pos, st, rank), Sem(g, el, t, rank).value;
    var F1 := Grow(F, t.used, qx.st.used);
    OpenKept(F, first, first + count, t.used, qx.st.used);
    DataValid(x.st, qx.st, F1);
    DataSetNode(x.st, qx.st, F1, first + e, x.val);
    var s := SetNode(x.st, first + e, x.val);
    DataValid(s, qx.st, F1);
    RepMono(x.st.nodes, F1, s.nodes, F1, x.val, qx.val);
  }

  lemma FillJoin(a: seq<Value>, F: set<nat>, b: seq<Value>, G: set<nat>, first: nat, e: nat, count: nat, v: Tree,
                 vals: seq<Tree>)
    requires e < count && first + count <= |a| <= |b| && F <= G && Open(F, first, first + count)
    requires (forall k :: k in F ==> k < |a|) && Rep(a, F, a[first + e], v)
    requires forall i :: 0 <= i < |a| && !(first + (e + 1) <= i < first + count) ==> b[i] == a[i]
    requires Filled(b, G, first + (e + 1), vals)
    ensures Filled(b, G, first + e, [v] + vals)
  {
    hide Rep, Filled;
    RepMono(a, F, b, G, a[first + e], v);
    FilledCons(b, G, first + e, v, vals);
  }

  lemma OpenKept(F: set<nat>, a: nat, b: nat, c: nat, d: nat)
    requires Open(F, a, b) && b <= c
    ensures Open(Grow(F, c, d), a, b)
  {
  }

  lemma PackageRep(nodes: seq<Value>, F: set<nat>, G: set<nat>, first: nat, count: nat, vals: seq<Tree>)
    requires Filled(nodes, F, first, vals) && F <= G && |vals| <= count && first + count <= |nodes|
    requires forall i :: first + |vals| <= i < first + count ==> nodes[i] == Uninit
    requires (forall k :: first <= k < first + count ==> k in G) && forall k :: k in F ==> k < |nodes|
    ensures Rep(nodes, G, Pkg(first, count), TPkg(vals + Blank(count - |vals|)))
  {
    hide Rep, RepSlot, Filled;
    var es := vals + Blank(count - |vals|);
    forall i | 0 <= i < |es| ensures RepSlot(nodes, G, first + i, es[i]) {
      ElementSlot(nodes, F, G, first, count, vals, i);
    }
    RepSlots(nodes, G, first, es);
  }

  lemma RepSlots(nodes: seq<Value>, G: set<nat>, first: nat, es: seq<Tree>)
    requires first + |es| <= |nodes| && forall i :: 0 <= i < |es| ==> RepSlot(nodes, G, first + i, es[i])
    ensures Rep(nodes, G, Pkg(first, |es|), TPkg(es))
  {
    hide RepSlot;
  }

  lemma ElementSlot(nodes: seq<Value>, F: set<nat>, G: set<nat>, first: nat, count: nat, vals: seq<Tree>, i: nat)
    requires Filled(nodes, F, first, vals) && F <= G && |vals| <= count && first + count <= |nodes| && i < count
    requires i >= |vals| ==> nodes[first + i] == Uninit
    requires first + i in G && forall k :: k in F ==> k < |nodes|
    ensures RepSlot(nodes, G, first + i, (vals + Blank(count - |vals|))[i])
  {
    hide Rep;
    if i < |vals| {
      RepMono(nodes, F, nodes, G, nodes[first + i], vals[i]);
    } else {
      RepText(nodes, G, []);
    }
  }

  lemma SameTop(c: Env, g: Program)
    requires EnvMatch(c, g)
    ensures c.top == g.top
  {
  }

  lemma EmptyRep(nodes: seq<Value>, F: set<nat>, first: nat)
    requires first <= |nodes|
    ensures Rep(nodes, F, Pkg(first, 0), TPkg([]))
  {
  }

  /** Building a package: its value stands for the tree of its elements, and its slots freeze. */
  lemma BuildShape(c: Env, g: Program, es: seq<Expr>, p: seq<Byte>, end: nat, pos: nat, st: St, t: TSt, rank: nat,
                   n: nat)
    requires Valid(st) && TOk(t) && |st.nodes| == t.used && end <= |p|
    ensures var count := Min(n, ARENA_CAP - t.used);
            var b, st1 := Build(c, p, end, pos, st, rank, n), Reserve(st, n);
            var q := SemAll(g, es, t.(used := t.used + count), g.top, count);
            if count == 0 then b == Built(t.used, 0, st1) && PackageSem(g, es, t, rank, n) == Some(EV(TPkg([]), t))
            else
              && b == Built(t.used, count, FillSlots(c, p, end, pos, st1, c.top, t.used, 0, count))
              && PackageSem(g, es, t, rank, n) ==
                 if q.None? then None else Some(EV(TPkg(q.value.vals + Blank(count - |q.value.vals|)), q.value.st))
  {
    hide FillSlots, Valid, Reserve, SemAll, Blank;
  }

  lemma BuildSim(c: Env, g: Program, es: seq<Expr>, p: seq<Byte>, end: nat, pos: nat, st: St, t: TSt, F: set<nat>,
                 rank: nat, n: nat)
    requires Ready(c, g, st, t, F) && WfAll(es) && Code(p, pos, end, EncAll(es)) && pos + |EncAll(es)| == end
    requires st.exprDepth + HeightAll(es) <= MAX_EXPR_DEPTH && PackageSem(g, es, t, rank, n).Some?
    ensures Valid(st)
    ensures var b := Build(c, p, end, pos, st, rank, n);
            var q := PackageSem(g, es, t, rank, n).value;
            var G := Grow(F, t.used, q.st.used);
            Data(b.st, q.st, G) && Rep(b.st.nodes, G, Pkg(b.first, b.count), q.val)
    decreases Fuel(t.depth, t.used), rank, es, 5
  {
    hide FillSlots, Data, Rep, Valid, EnvMatch, EncAll, WfAll, HeightAll, Reserve, SemAll, Filled, Blank, AllSegs,
      Print, Build, PackageSem;
    DataValid(st, t, F);
    BuildShape(c, g, es, p, end, pos, st, t, rank, n);
    var count := Min(n, ARENA_CAP - t.used);
    var t1, st1 := t.(used := t.used + count), Reserve(st, n);
    DataReserve(st, t, F, n);
    ValidSize(st);
    if count == 0 {
      GrowNone(F, t.used);
      EmptyRep(st.nodes, F, t.used);
      assert st1.nodes == st.nodes;
      return;
    }
    SameTop(c, g);
    FillSim(c, g, es, p, end, pos, st1, t1, F, g.top, t.used, 0, count);
    var r := FillSlots(c, p, end, pos, st1, g.top, t.used, 0, count);
    var q := SemAll(g, es, t1, g.top, count).value;
    var F1, G := Grow(F, t1.used, q.st.used), Grow(F, t.used, q.st.used);
    DataValid(r, q.st, F1);
    DataFreeze(r, q.st, F1, G);
    PackageRep(r.nodes, F1, G, t.used, count, q.vals);
  }

  lemma PackageShape(g: Program, e: Expr, t: TSt, rank: nat)
    requires TOk(t) && e.PackageE? && Wf(e)
    ensures WfAll(e.elems) && HeightAll(e.elems) < Height(e) && |[e.count] + EncAll(e.elems)| < BODY_CAP
    ensures Enc(e) == [0x12] + Wrap([e.count] + EncAll(e.elems))
    ensures Sem(g, e, t, rank) == PackageSem(g, e.elems, t, rank, e.count)
  {
    hide Wrap, PackageSem, WfAll, EncAll, HeightAll;
  }

  lemma PackageSim(c: Env, g: Program, e: Expr, p: seq<Byte>, len: nat, pos: nat, st: St, t: TSt, F: set<nat>,
                   rank: nat)
    requires Ready(c, g, st, t, F) && e.PackageE? && Wf(e) && Code(p, pos, len, Enc(e))
    requires st.exprDepth + Height(e) <= MAX_EXPR_DEPTH + 1 && Sem(g, e, t, rank).Some?
    ensures Yields(EvalOp(c, p, len, pos, st, rank), pos + |Enc(e)|, Sem(g, e, t, rank).value, t.used, F)
    decreases Fuel(t.depth, t.used), rank, e, 7
  {
    hide Sem, Enc, Wf, Height, Eval, EvalOp, Data, Rep, Valid, EnvMatch, Grow, PkgAt, Wrap, Build, PackageSem, WfAll,
      EncAll, HeightAll;
    DataValid(st, t, F);
    PackageShape(g, e, t, rank);
    var body := [e.count] + EncAll(e.elems);
    CodeHead(p, pos, len, 0x12, Wrap(body));
    WrapDecodes(body, p, pos + 1, len);
    var q, end := pos + 1 + |Wrap(body)| - |body|, pos + 1 + |Wrap(body)|;
    AtHead(p, q, e.count, EncAll(e.elems));
    Dispatch(c, p, len, pos, st, rank);
    assert ElementCount(c, p, len, q, st, rank, true) == R(true, q + 1, Int(e.count), st);
    BuildSim(c, g, e.elems, p, end, q + 1, st, t, F, rank, e.count);
  }

  lemma VarPackageShape(g: Program, e: Expr, t: TSt, rank: nat)
    requires TOk(t) && e.VarPackageE? && Wf(e)
    ensures WfAll(e.elems) && HeightAll(e.elems) < Height(e) && Wf(e.length) && Height(e.length) < Height(e)
    ensures |Enc(e.length) + EncAll(e.elems)| < BODY_CAP
    ensures Enc(e) == [0x13] + Wrap(Enc(e.length) + EncAll(e.elems))
    ensures Sem(g, e, t, rank) == (var n := Sem(g, e.length, t, rank); if n.None? then None
            else PackageSem(g, e.elems, n.value.st, rank, AsInt(n.value.val)))
  {
    hide Wrap, PackageSem, WfAll, EncAll, HeightAll, AsInt;
  }

  lemma VarPackageSim(c: Env, g: Program, e: Expr, p: seq<Byte>, len: nat, pos: nat, st: St, t: TSt, F: set<nat>,
                      rank: nat)
    requires Ready(c, g, st, t, F) && e.VarPackageE? && Wf(e) && Code(p, pos, len, Enc(e))
    requires st.exprDepth + Height(e) <= MAX_EXPR_DEPTH + 1 && Sem(g, e, t, rank).Some?
    ensures Yields(EvalOp(c, p, len, pos, st, rank), pos + |Enc(e)|, Sem(g, e, t, rank).value, t.used, F)
    decreases Fuel(t.depth, t.used), rank, e, 7
  {
    hide Sem, Enc, Wf, Height, Eval, EvalOp, Data, Rep, Valid, EnvMatch, Grow, PkgAt, Wrap, Build, PackageSem, WfAll,
      EncAll, HeightAll, AsInt, AsInteger;
    DataValid(st, t, F);
    VarPackageShape(g, e, t, rank);
    var body := Enc(e.length) + EncAll(e.elems);
    CodeHead(p, pos, len, 0x13, Wrap(body));
    WrapDecodes(body, p, pos + 1, len);
    var q, end := pos + 1 + |Wrap(body)| - |body|, pos + 1 + |Wrap(body)|;
    AtSplit(p, q, Enc(e.length), EncAll(e.elems));
    Dispatch(c, p, len, pos, st, rank);
    EvalSim(c, g, e.length, p, len, q, st, t, F, rank);
    var x, qx := Eval(c, p, len, q, st, rank), Sem(g, e.length, t, rank).value;
    var F1 := Grow(F, t.used, qx.st.used);
    DataValid(x.st, qx.st, F1);
    RepInt(x.st.nodes, F1, x.val, qx.val);
    BuildSim(c, g, e.elems, p, end, x.pos, x.st, qx.st, F1, rank, AsInt(qx.val));
    GrowTwice(F, t.used, qx.st.used, Sem(g, e, t, rank).value.st.used);
  }

  // ----- references and calls -----

  lemma RepAllCons(nodes: seq<Value>, F: set<nat>, v: Value, t: Tree, vs: seq<Value>, ts: seq<Tree>)
    requires Rep(nodes, F, v, t) && RepAll(nodes, F, vs, ts)
    ensures RepAll(nodes, F, [v] + vs, [t] + ts)
  {
    hide Rep;
  }

  /** Call arguments, in order. */
  lemma ArgsSim(c: Env, g: Program, es: seq<Expr>, p: seq<Byte>, len: nat, pos: nat, st: St, t: TSt, F: set<nat>,
                rank: nat)
    requires Ready(c, g, st, t, F) && WfAll(es) && Code(p, pos, len, EncAll(es))
    requires st.exprDepth + HeightAll(es) <= MAX_EXPR_DEPTH && SemAll(g, es, t, rank, |es|).Some?
    ensures var a := EvalArgs(c, p, len, pos, st, rank, |es|);
            var q := SemAll(g, es, t, rank, |es|).value;
            var G := Grow(F, t.used, q.st.used);
            a.ok && a.pos == pos + |EncAll(es)| && Data(a.st, q.st, G) && RepAll(a.st.nodes, G, a.vals, q.vals)
    decreases Fuel(t.depth, t.used), rank, es, 4
  {
    hide Eval, Data, Rep, Valid, EnvMatch, Enc, Sem, SemAll, EncAll, Wf, WfAll, Height, HeightAll, RepAll;
    DataValid(st, t, F);
    EncAllShape(es);
    SemAllShape(g, es, t, rank, |es|);
    if es == [] {
      GrowNone(F, t.used);
      assert RepAll(st.nodes, F, [], []) by { RepAllNone(st.nodes, F); }
    } else {
      CodeSplit(p, pos, len, Enc(es[0]), EncAll(es[1..]));
      EvalSim(c, g, es[0], p, len, pos, st, t, F, rank);
      var x, qx := Eval(c, p, len, pos, st, rank), Sem(g, es[0], t, rank).value;
      var F1 := Grow(F, t.used, qx.st.used);
      DataValid(x.st, qx.st, F1);
      ArgsSim(c, g, es[1..], p, len, x.pos, x.st, qx.st, F1, rank);
      var a := EvalArgs(c, p, len, x.pos, x.st, rank, |es| - 1);
      var q := SemAll(g, es[1..], qx.st, rank, |es| - 1).value;
      GrowTwice(F, t.used, qx.st.used, q.st.used);
      RepKept(x.st.nodes, a.st.nodes, F1, qx.st.used, q.st.used, x.val, qx.val);
      RepAllCons(a.st.nodes, Grow(F, t.used, q.st.used), x.val, qx.val, a.vals, q.vals);
    }
  }

  lemma RepAllNone(nodes: seq<Value>, F: set<nat>)
    ensures RepAll(nodes, F, [], [])
  {
  }

  lemma BlankRep(nodes: seq<Value>, F: set<nat>, n: nat)
    ensures RepAll(nodes, F, seq(n, i => Uninit), Blank(n))
  {
  }

  lemma RepAllConcat(nodes: seq<Value>, F: set<nat>, a: seq<Value>, b: seq<Value>, s: seq<Tree>, t: seq<Tree>)
    requires RepAll(nodes, F, a, s) && RepAll(nodes, F, b, t)
    ensures RepAll(nodes, F, a + b, s + t)
  {
    hide Rep;
  }

  lemma NameStateSim(st: St, t: TSt, F: set<nat>, s: Segs)
    requires Data(st, t, F) && AllSegs(s) && |s| <= 12
    ensures Valid(st) && |Print(s)| < PATH_CAP && Data(NameState(st, Print(s)), t.(locals := Blank(8), scope := s), F)
  {
    hide Rep, Print;
    PrintShape(s);
    BlankRep(st.nodes, F, 8);
  }

  lemma CallStateSim(st: St, t: TSt, F: set<nat>, s: Segs, vals: seq<Value>, trees: seq<Tree>)
    requires Data(st, t, F) && AllSegs(s) && |s| <= 12 && t.depth < MAX_CALL_DEPTH
    requires |vals| <= 7 && AllInside(vals, |st.nodes|) && RepAll(st.nodes, F, vals, trees)
    ensures Valid(st) && |Print(s)| < PATH_CAP && |trees| == |vals|
    ensures Data(CallState(st, Print(s), vals, |vals|), CallTSt(t, s, trees, |vals|), F)
  {
    hide Rep, Print, RepAll;
    assert |trees| == |vals| by { RepAllLength(st.nodes, F, vals, trees); }
    PrintShape(s);
    BlankRep(st.nodes, F, 8);
    BlankRep(st.nodes, F, 7 - |vals|);
    RepAllConcat(st.nodes, F, vals, seq(7 - |vals|, i => Uninit), trees, Blank(7 - |vals|));
  }

  lemma RepAllLength(nodes: seq<Value>, F: set<nat>, vs: seq<Value>, ts: seq<Tree>)
    requires RepAll(nodes, F, vs, ts)
    ensures |vs| == |ts|
  {
  }

  /** Back in the caller: its own variables still stand for what they did. */
  lemma SharedSim(st: St, t: TSt, F: set<nat>, sub: St, u: TSt)
    requires Data(st, t, F) && Data(sub, u, Grow(F, t.used, u.used)) && st.nodes <= sub.nodes && t.used <= u.used
    ensures Valid(st) && Valid(sub)
    ensures Data(Shared(st, sub), t.(used := u.used, world := u.world), Grow(F, t.used, u.used))
    ensures Data(Shared(st, sub).(args := sub.args), t.(args := u.args, used := u.used, world := u.world),
            Grow(F, t.used, u.used))
  {
    hide Rep, Print, RepAll;
    var G := Grow(F, t.used, u.used);
    RepAllMono(st.nodes, F, sub.nodes, G, st.locals, t.locals);
    RepAllMono(st.nodes, F, sub.nodes, G, st.args, t.args);
  }

  lemma RefShape(g: Program, e: Expr, t: TSt, rank: nat)
    requires TOk(t) && e.Ref? && Wf(e)
    ensures WfName(e.name) && WfAll(e.args) && HeightAll(e.args) < Height(e)
    ensures Enc(e) == EncName(e.name) + EncAll(e.args)
    ensures Sem(g, e, t, rank) == RefSem(g, e, t, rank)
  {
    hide WfName, WfAll, HeightAll, EncName, EncAll, RefSem;
  }

  /** A Name's value, evaluated in a fresh state at a lower rank. */
  lemma NameObjSim(c: Env, g: Program, name: NameRef, p: seq<Byte>, len: nat, pos: nat, st: St, t: TSt, F: set<nat>,
                   rank: nat, s: Segs, host: Expr)
    requires Ready(c, g, st, t, F) && WfName(name) && Code(p, pos, len, EncName(name))
    requires Lookup(g.fields.Keys + g.objs.Keys, t.scope, name) == Some(s) && s !in g.fields && s in g.objs
    requires g.objs[s].NameObj?
    requires Named(g, name, t, rank, host).Some?
    ensures Yields(EvalOp(c, p, len, pos, st, rank), pos + |EncName(name)|,
                   Named(g, name, t, rank, host).value, t.used, F)
    decreases Fuel(t.depth, t.used), rank, host, 5
  {
    hide Eval, EvalOp, Data, Rep, Valid, EnvMatch, Search, EncName, Lookup, Print, Invoke, Sem, Enc, Wf, Height;
    DataValid(st, t, F);
    NameResolves(c, g, name, p, len, pos, st, t, F, rank);
    NameStateSim(st, t, F, s);
    var abs, o := Print(s), g.objs[s];
    var d := NameValue(c.tables, c.entries[abs]).value;
    var sub, u := NameState(st, abs), t.(locals := Blank(8), scope := s);
    EvalSim(c, g, o.data, d, |d|, 0, sub, u, F, o.rank);
    var x, q := Eval(c, d, |d|, 0, sub, o.rank), Sem(g, o.data, u, o.rank).value;
    SharedSim(st, t, F, x.st, q.st);
  }

  /** A method body, run in a fresh state one level deeper, and back. */
  lemma BodySim(c: Env, g: Program, s: Segs, argc: nat, body: seq<Stmt>, vals: seq<Value>, ts: seq<Tree>, pos: nat,
                st: St, t: TSt,
                F: set<nat>, rank: nat, host: Expr)
    requires Ready(c, g, st, t, F) && AllSegs(s) && |s| <= 12 && ObjMatch(c, Print(s), MethodObj(argc, body))
    requires |vals| == |ts| == argc <= 7 && RepAll(st.nodes, F, vals, ts) && AllInside(vals, |st.nodes|)
    requires t.depth < MAX_CALL_DEPTH && Run(g, body, CallTSt(t, s, ts, argc), g.top).Some?
    ensures |Print(s)| < PATH_CAP && Valid(st)
    ensures var q := AfterCall(t, Run(g, body, CallTSt(t, s, ts, argc), g.top)).value;
            Yields(Back(pos, st, RunBody(c, Print(s), Body(EncStmts(body), argc), vals, st)), pos, q, t.used, F)
    decreases Fuel(t.depth, t.used), rank, host, 4
  {
    hide Exec, Data, Rep, Valid, FieldsMatch, ObjsMatch, Print, Run, CallTSt, RepAll, EncStmts, WfStmts;
    DataValid(st, t, F);
    PrintShape(s);
    CallStateSim(st, t, F, s, vals, ts);
    var sub, u := CallState(st, Print(s), vals, argc), CallTSt(t, s, ts, argc);
    var code := EncStmts(body);
    assert code[0..|code|] == code;
    ExecSim(c, g, body, code, |code|, 0, |code|, sub, u, F, c.top);
    var x, o := RunBody(c, Print(s), Body(code, argc), vals, st), Run(g, body, u, g.top).value;
    SharedSim(st, t, F, x.st, o.st);
    RepText(x.st.nodes, Grow(F, t.used, o.st.used), []);
  }

  /** A call: arguments, then the body. */
  lemma CallSim(c: Env, g: Program, e: Expr, p: seq<Byte>, len: nat, at: nat, pos: nat, st: St, t: TSt, F: set<nat>,
                rank: nat, s: Segs, argc: nat, body: seq<Stmt>)
    requires Ready(c, g, st, t, F) && e.Ref? && at < pos && Code(p, pos, len, EncAll(e.args)) && WfAll(e.args)
    requires AllSegs(s) && |s| <= 12 && ObjMatch(c, Print(s), MethodObj(argc, body))
    requires st.exprDepth + HeightAll(e.args) <= MAX_EXPR_DEPTH && CallSem(g, s, argc, body, e.args, t, rank).Some?
    ensures |Print(s)| < PATH_CAP
    ensures Yields(Invoke(c, p, len, at, pos, Print(s), st, rank), pos + |EncAll(e.args)|,
            CallSem(g, s, argc, body, e.args, t, rank).value, t.used, F)
    decreases Fuel(t.depth, t.used), rank, e, 5
  {
    hide RunBody, Back, EvalArgs, Data, Rep, Valid, FieldsMatch, ObjsMatch, Print, SemAll, Run, EncAll, WfAll,
      HeightAll, CallTSt, RepAll, EncStmts, WfStmts;
    DataValid(st, t, F);
    PrintShape(s);
    ArgsSim(c, g, e.args, p, len, pos, st, t, F, rank);
    var a, q := EvalArgs(c, p, len, pos, st, rank, argc), SemAll(g, e.args, t, rank, argc).value;
    var F1 := Grow(F, t.used, q.st.used);
    BodySim(c, g, s, argc, body, a.vals, q.vals, a.pos, a.st, q.st, F1, rank, e);
    GrowTwice(F, t.used, q.st.used, CallSem(g, s, argc, body, e.args, t, rank).value.st.used);
  }

  /** A name without argument terms: nothing, a field, a Name or a method without parameters. */
  lemma NamedSim(c: Env, g: Program, name: NameRef, p: seq<Byte>, len: nat, pos: nat, st: St, t: TSt, F: set<nat>,
                 rank: nat, host: Expr)
    requires Ready(c, g, st, t, F) && WfName(name) && Code(p, pos, len, EncName(name))
    requires Named(g, name, t, rank, host).Some?
    ensures Yields(EvalOp(c, p, len, pos, st, rank), pos + |EncName(name)|,
                   Named(g, name, t, rank, host).value, t.used, F)
    decreases Fuel(t.depth, t.used), rank, host, 6, 0
  {
    hide Sem, Eval, EvalOp, Data, Rep, Valid, EnvMatch, Grow, EncName, Search, Lookup, Print, GetField, WfName, Yields,
      NameValue, FieldRead, RunBody, Invoke, Back, Run, CallTSt, RepAll, MethodBody, EncStmts, WfStmts;
    DataValid(st, t, F);
    NameResolves(c, g, name, p, len, pos, st, t, F, rank);
    var s := Lookup(g.fields.Keys + g.objs.Keys, t.scope, name);
    var next := pos + |EncName(name)|;
    if s.None? || (s.value !in g.fields && g.objs[s.value].OtherObj?) {
      NoValueSim(c, g, name, p, len, pos, st, t, F, rank);
    } else if s.value in g.fields {
      FieldRefSim(c, g, name, p, len, pos, st, t, F, rank, s.value);
    } else if g.objs[s.value].NameObj? {
      NameObjSim(c, g, name, p, len, pos, st, t, F, rank, s.value, host);
    } else {
      RepAllNone(st.nodes, F);
      BodySim(c, g, s.value, 0, g.objs[s.value].body, [], [], next, st, t, F, rank, host);
      MethodNamed(c, Print(s.value), g.objs[s.value].body);
      InvokePlain(c, p, len, pos, next, Print(s.value), st, rank, EncStmts(g.objs[s.value].body));
    }
  }

  /** Calling a method without parameters takes no bytes. */
  lemma InvokePlain(c: Env, p: seq<Byte>, len: nat, at: nat, pos: nat, abs: Path, st: St, rank: nat, code: seq<Byte>)
    requires at < pos <= len <= |p| && Valid(st) && abs in c.entries && |abs| < PATH_CAP && st.depth < MAX_CALL_DEPTH
    requires MethodBody(c.tables, c.entries[abs]) == Some(Body(code, 0))
    ensures Invoke(c, p, len, at, pos, abs, st, rank) == Back(pos, st, RunBody(c, abs, Body(code, 0), [], st))
  {
    hide RunBody, Back, Valid, MethodBody, Eval;
  }

  lemma MethodNamed(c: Env, abs: Path, body: seq<Stmt>)
    requires ObjMatch(c, abs, MethodObj(0, body))
    ensures c.entries[abs].kind == MethodKind && MethodBody(c.tables, c.entries[abs]) == Some(Body(EncStmts(body), 0))
  {
  }

  lemma RefSim(c: Env, g: Program, e: Expr, p: seq<Byte>, len: nat, pos: nat, st: St, t: TSt, F: set<nat>, rank: nat)
    requires Ready(c, g, st, t, F) && e.Ref? && Wf(e) && Code(p, pos, len, Enc(e))
    requires st.exprDepth + Height(e) <= MAX_EXPR_DEPTH + 1 && Sem(g, e, t, rank).Some?
    ensures Yields(EvalOp(c, p, len, pos, st, rank), pos + |Enc(e)|, Sem(g, e, t, rank).value, t.used, F)
    decreases Fuel(t.depth, t.used), rank, e, 7
  {
    hide Sem, Enc, Wf, Height, Eval, EvalOp, Data, Rep, Valid, EnvMatch, Grow, EncName, EncAll, Search, Lookup, Print,
      Invoke, CallSem, GetField, WfName, WfAll, HeightAll, Yields, NameValue, FieldRead, Named;
    DataValid(st, t, F);
    RefShape(g, e, t, rank);
    CodeSplit(p, pos, len, EncName(e.name), EncAll(e.args));
    EncAllShape(e.args);
    if e.args == [] {
      NamedSim(c, g, e.name, p, len, pos, st, t, F, rank, e);
    } else {
      NameResolves(c, g, e.name, p, len, pos, st, t, F, rank);
      var s := Lookup(g.fields.Keys + g.objs.Keys, t.scope, e.name).value;
      CallSim(c, g, e, p, len, pos, pos + |EncName(e.name)|, st, t, F, rank, s, g.objs[s].argc, g.objs[s].body);
    }
  }

  // ----- Increment and Decrement -----

  lemma StepShape(g: Program, e: Expr, t: TSt, rank: nat)
    requires TOk(t) && e.StepE? && Wf(e)
    ensures WfDest(e.dest) && e.dest != Nowhere && Height(e) == 2
    ensures Enc(e) == [if e.up then 0x75 else 0x76] + EncDest(e.dest)
    ensures Sem(g, e, t, rank) ==
            (var x := StepOperand(g, e, t, rank);
             if x.None? then None
             else PutVal(g, e.dest, TInt((AsInt(x.value.val) + (if e.up then 1 else -1)) % TWO64), x.value.st))
  {
    hide WfDest, EncDest, PutVal, AsInt, StepOperand;
  }

  /** Reading an increment's operand as a term. */
  lemma OperandSim(c: Env, g: Program, e: Expr, p: seq<Byte>, len: nat, pos: nat, st: St, t: TSt, F: set<nat>,
                   rank: nat)
    requires Ready(c, g, st, t, F) && e.StepE? && WfDest(e.dest) && e.dest != Nowhere
    requires Code(p, pos, len, EncDest(e.dest))
    requires st.exprDepth < MAX_EXPR_DEPTH && StepOperand(g, e, t, rank).Some?
    ensures Yields(Eval(c, p, len, pos, st, rank), pos + |EncDest(e.dest)|, StepOperand(g, e, t, rank).value, t.used, F)
    decreases Fuel(t.depth, t.used), rank, e, 6, 1
  {
    hide Data, Rep, Valid, EnvMatch, Eval, EvalOp, EncName, Lookup, GetField, Yields, WfName, Sem, Enc, Wf, Named;
    DataValid(st, t, F);
    DataDepth(st, t, F, st.exprDepth + 1);
    var st1, d := st.(exprDepth := st.exprDepth + 1), e.dest;
    if d.NameD? {
      NamedSim(c, g, d.name, p, len, pos, st1, t, F, rank, e);
    } else {
      var v := if d.LocalD? then Local(d.i) else Arg(d.i);
      assert Wf(v) && Height(v) == 1 by { VarWf(d.i); }
      VarShape(g, v, t, rank);
      VarSim(c, g, v, p, len, pos, st1, t, F, rank);
    }
    Enter(c, p, len, pos, st, rank, pos + |EncDest(d)|, StepOperand(g, e, t, rank).value, t.used, F);
  }

  /** Increment and Decrement. */
  lemma StepSim(c: Env, g: Program, e: Expr, p: seq<Byte>, len: nat, pos: nat, st: St, t: TSt, F: set<nat>, rank: nat)
    requires Ready(c, g, st, t, F) && e.StepE? && Wf(e) && Code(p, pos, len, Enc(e))
    requires st.exprDepth + Height(e) <= MAX_EXPR_DEPTH + 1 && Sem(g, e, t, rank).Some?
    ensures Yields(EvalOp(c, p, len, pos, st, rank), pos + |Enc(e)|, Sem(g, e, t, rank).value, t.used, F)
    decreases Fuel(t.depth, t.used), rank, e, 7
  {
    hide Sem, Enc, Wf, Height, Eval, EvalOp, Data, Rep, Valid, EnvMatch, Grow, Finish, StoreTo, PutVal, EncDest,
      WfDest, AsInt, AsInteger, StepOperand;
    DataValid(st, t, F);
    StepShape(g, e, t, rank);
    CodeHead(p, pos, len, if e.up then 0x75 else 0x76, EncDest(e.dest));
    Dispatch(c, p, len, pos, st, rank);
    OperandSim(c, g, e, p, len, pos + 1, st, t, F, rank);
    var x, q := Eval(c, p, len, pos + 1, st, rank), StepOperand(g, e, t, rank).value;
    var F1 := Grow(F, t.used, q.st.used);
    RepInt(x.st.nodes, F1, x.val, q.val);
    var n: U64 := (AsInt(q.val) + (if e.up then 1 else -1)) % TWO64;
    RepNumber(x.st.nodes, F1, n);
    DataValid(x.st, q.st, F1);
    FinishAfter(c, g, e.dest, p, len, pos + 1, Int(n), TInt(n), x.st, q.st, F, t.used);
  }

  lemma NoValueSim(c: Env, g: Program, name: NameRef, p: seq<Byte>, len: nat, pos: nat, st: St, t: TSt, F: set<nat>,
                   rank: nat)
    requires Ready(c, g, st, t, F) && WfName(name) && Code(p, pos, len, EncName(name))
    requires var s := Lookup(g.fields.Keys + g.objs.Keys, t.scope, name);
             s.Some? ==> s.value !in g.fields && s.value in g.objs && g.objs[s.value].OtherObj?
    ensures Yields(EvalOp(c, p, len, pos, st, rank), pos + |EncName(name)|, EV(TUninit, t), t.used, F)
  {
    hide EvalOp, Data, Rep, Valid, EnvMatch, Grow, EncName, Search, Lookup, Print, Invoke, Yields, NameValue,
      FieldRead;
    DataValid(st, t, F);
    NameResolves(c, g, name, p, len, pos, st, t, F, rank);
    RepText(st.nodes, F, []);
    var s := Lookup(g.fields.Keys + g.objs.Keys, t.scope, name);
    if s.Some? { OtherHasNoValue(c, Print(s.value)); }
    var next := pos + |EncName(name)|;
    YieldsNow(EvalName(c, p, len, pos, next, name, st, rank), next, EV(TUninit, t), t, F);
  }

  lemma OtherHasNoValue(c: Env, abs: Path)
    requires ObjMatch(c, abs, OtherObj)
    ensures NameValue(c.tables, c.entries[abs]) == None
  {
  }

  // ----- statements -----

  /** The state reached and its flags stand for the outcome. */
  ghost predicate Flows(x: St, o: Out, used: nat, F: set<nat>)
  {
    && Data(x, o.st, Grow(F, used, o.st.used))
    && x.brk == o.flow.Broke? && x.cont == o.flow.Continued? && x.returned == o.flow.Returned?
    && (o.flow.Returned? ==> Rep(x.nodes, Grow(F, used, o.st.used), x.ret, o.flow.v))
  }

  lemma FlowsAfter(x: St, o: Out, F: set<nat>, a: nat, b: nat)
    requires a <= b <= o.st.used && Flows(x, o, b, Grow(F, a, b))
    ensures Flows(x, o, a, F)
  {
    hide Data, Rep, Grow;
    GrowTwice(F, a, b, o.st.used);
  }

  lemma EncStmtsShape(ss: seq<Stmt>)
    ensures ss == [] ==> EncStmts(ss) == []
    ensures ss != [] ==> EncStmts(ss) == EncStmt(ss[0]) + EncStmts(ss[1..])
    ensures ss != [] && WfStmts(ss) ==> WfStmt(ss[0]) && WfStmts(ss[1..])
  {
    hide EncStmt, WfStmt;
  }

  lemma RunShape(g: Program, ss: seq<Stmt>, t: TSt, rank: nat)
    requires TOk(t) && Run(g, ss, t, rank).Some?
    ensures ss == [] ==> Run(g, ss, t, rank).value == Out(Next, t)
    ensures ss != [] ==>
              && RunOne(g, ss[0], t, rank).Some?
              && var o := RunOne(g, ss[0], t, rank).value;
                 Run(g, ss, t, rank) == if o.flow.Next? then Run(g, ss[1..], o.st, rank) else Some(o)
  {
    hide RunOne;
  }

  lemma StmtFirstByte(s: Stmt)
    requires WfStmt(s)
    ensures EncStmt(s)[0] != 0xA1
  {
    hide Enc, Wf, Pack;
    if s.Do? { FirstByte(s.e); }
  }

  lemma NotElse(ss: seq<Stmt>, p: seq<Byte>, pos: nat, end: nat)
    requires WfStmts(ss) && At(p, pos, EncStmts(ss)) && pos + |EncStmts(ss)| == end
    ensures pos < end ==> p[pos] != 0xA1
  {
    hide EncStmts, WfStmts, EncStmt, WfStmt;
    EncStmtsShape(ss);
    if ss != [] {
      StmtFirstByte(ss[0]);
      assert p[pos] == p[pos..pos + |EncStmts(ss)|][0];
    }
  }

  /** Running the bytes of a statement list gives the outcome of the list. */
  lemma ExecSim(c: Env, g: Program, ss: seq<Stmt>, p: seq<Byte>, len: nat, pos: nat, end: nat, st: St, t: TSt,
                F: set<nat>, rank: nat)
    requires Ready(c, g, st, t, F) && Running(st) && WfStmts(ss) && At(p, pos, EncStmts(ss))
    requires pos + |EncStmts(ss)| == end <= len <= |p| && st.exprDepth == 0 && Run(g, ss, t, rank).Some?
    ensures var x := Exec(c, p, len, pos, end, st, rank);
            x.ok && Flows(x.st, Run(g, ss, t, rank).value, t.used, F)
    decreases Fuel(t.depth, t.used), rank, ss, 10
  {
    hide ExecOne, Data, Rep, Valid, EnvMatch, EncStmts, EncStmt, WfStmts, WfStmt, Run, RunOne, Grow;
    DataValid(st, t, F);
    EncStmtsShape(ss);
    RunShape(g, ss, t, rank);
    if ss == [] {
      GrowNone(F, t.used);
    } else {
      AtSplit(p, pos, EncStmt(ss[0]), EncStmts(ss[1..]));
      NotElse(ss[1..], p, pos + |EncStmt(ss[0])|, end);
      StmtSim(c, g, ss[0], p, len, pos, end, st, t, F, rank);
      var s, o := ExecOne(c, p, len, pos, end, st, rank), RunOne(g, ss[0], t, rank).value;
      DataValid(s.st, o.st, Grow(F, t.used, o.st.used));
      if o.flow.Next? {
        ExecSim(c, g, ss[1..], p, len, s.pos, end, s.st, o.st, Grow(F, t.used, o.st.used), rank);
        FlowsAfter(Exec(c, p, len, s.pos, end, s.st, rank).st, Run(g, ss[1..], o.st, rank).value, F, t.used, o.st.used);
      } else {
        assert Exec(c, p, len, s.pos, end, s.st, rank) == X(true, s.st);
      }
    }
  }

  lemma DoShape(g: Program, s: Stmt, t: TSt, rank: nat)
    requires TOk(t) && s.Do? && WfStmt(s)
    ensures Wf(s.e) && Height(s.e) <= MAX_EXPR_DEPTH && EncStmt(s) == Enc(s.e)
    ensures RunOne(g, s, t, rank) == (var x := Sem(g, s.e, t, rank); if x.None? then None
            else Some(Out(Next, x.value.st)))
  {
    hide Enc, Wf, Height, Sem;
  }

  lemma DoSim(c: Env, g: Program, s: Stmt, p: seq<Byte>, len: nat, pos: nat, end: nat, st: St, t: TSt, F: set<nat>,
              rank: nat)
    requires Ready(c, g, st, t, F) && Running(st) && s.Do? && WfStmt(s) && At(p, pos, EncStmt(s))
    requires pos + |EncStmt(s)| <= end <= len <= |p| && (pos + |EncStmt(s)| < end ==> p[pos + |EncStmt(s)|] != 0xA1)
    requires st.exprDepth == 0 && RunOne(g, s, t, rank).Some?
    ensures var x := ExecOne(c, p, len, pos, end, st, rank);
            x.ok && x.pos == pos + |EncStmt(s)| && Flows(x.st, RunOne(g, s, t, rank).value, t.used, F)
    decreases Fuel(t.depth, t.used), rank, s, 8
  {
    hide Eval, Data, Rep, Valid, EnvMatch, Grow, Enc, Wf, Height, Sem, EncStmt, WfStmt, RunOne, EncStmts, WfStmts, Run;
    DataValid(st, t, F);
    DoShape(g, s, t, rank);
    FirstByte(s.e);
    assert p[pos] == p[pos..pos + |Enc(s.e)|][0];
    EvalSim(c, g, s.e, p, len, pos, st, t, F, rank);
  }

  lemma FlagShape(g: Program, s: Stmt, t: TSt, rank: nat)
    requires TOk(t) && (s.Break? || s.Continue? || s.Noop? || s.BreakPoint?) && WfStmt(s)
    ensures EncStmt(s) == [if s.Break? then 0xA5 else if s.Continue? then 0x9F else if s.Noop? then 0xA3 else 0xCC]
    ensures RunOne(g, s, t, rank) == Some(Out(if s.Break? then Broke else if s.Continue? then Continued else Next, t))
  {
  }

  lemma FlagSim(c: Env, g: Program, s: Stmt, p: seq<Byte>, len: nat, pos: nat, end: nat, st: St, t: TSt, F: set<nat>,
                rank: nat)
    requires Ready(c, g, st, t, F) && Running(st) && WfStmt(s) && At(p, pos, EncStmt(s))
    requires s.Break? || s.Continue? || s.Noop? || s.BreakPoint?
    requires pos + |EncStmt(s)| <= end <= len <= |p| && (pos + |EncStmt(s)| < end ==> p[pos + |EncStmt(s)|] != 0xA1)
    requires st.exprDepth == 0 && RunOne(g, s, t, rank).Some?
    ensures var x := ExecOne(c, p, len, pos, end, st, rank);
            x.ok && x.pos == pos + |EncStmt(s)| && Flows(x.st, RunOne(g, s, t, rank).value, t.used, F)
    decreases Fuel(t.depth, t.used), rank, s, 8
  {
    hide Eval, Data, Rep, Valid, EnvMatch, Grow, Enc, Wf, Height, Sem, EncStmt, WfStmt, RunOne, EncStmts, WfStmts, Run;
    DataValid(st, t, F);
    FlagShape(g, s, t, rank);
    AtHead(p, pos, EncStmt(s)[0], []);
    GrowNone(F, t.used);
    DataFlags(st, t, F, st.ret, false, s.Break?, s.Continue?) by { ValidRet(st); }
  }

  lemma NotifyShape(g: Program, s: Stmt, t: TSt, rank: nat)
    requires TOk(t) && s.Notify? && WfStmt(s)
    ensures Wf(s.a) && Height(s.a) <= MAX_EXPR_DEPTH && Wf(s.b) && Height(s.b) <= MAX_EXPR_DEPTH
    ensures EncStmt(s) == [0x86] + (Enc(s.a) + Enc(s.b))
    ensures RunOne(g, s, t, rank) == (var x := Sem(g, s.a, t, rank); if x.None? then None
            else (var y := Sem(g, s.b, x.value.st, rank); if y.None? then None else Some(Out(Next, y.value.st))))
  {
    hide Enc, Wf, Height, Sem;
  }

  /** Notify evaluates both operands, in order, and reports to nobody. */
  lemma NotifySim(c: Env, g: Program, s: Stmt, p: seq<Byte>, len: nat, pos: nat, end: nat, st: St, t: TSt, F: set<nat>,
                  rank: nat)
    requires Ready(c, g, st, t, F) && Running(st) && s.Notify? && WfStmt(s) && At(p, pos, EncStmt(s))
    requires pos + |EncStmt(s)| <= end <= len <= |p| && st.exprDepth == 0 && RunOne(g, s, t, rank).Some?
    ensures var x := ExecOne(c, p, len, pos, end, st, rank);
            x.ok && x.pos == pos + |EncStmt(s)| && Flows(x.st, RunOne(g, s, t, rank).value, t.used, F)
    decreases Fuel(t.depth, t.used), rank, s, 8
  {
    hide Eval, Data, Rep, Valid, EnvMatch, Grow, Enc, Wf, Height, Sem, EncStmt, WfStmt, RunOne, EncStmts, WfStmts, Run;
    DataValid(st, t, F);
    NotifyShape(g, s, t, rank);
    AtHead(p, pos, 0x86, Enc(s.a) + Enc(s.b));
    AtSplit(p, pos + 1, Enc(s.a), Enc(s.b));
    EvalSim(c, g, s.a, p, len, pos + 1, st, t, F, rank);
    var x, q := Eval(c, p, len, pos + 1, st, rank), Sem(g, s.a, t, rank).value;
    var F1 := Grow(F, t.used, q.st.used);
    DataValid(x.st, q.st, F1);
    EvalSim(c, g, s.b, p, len, x.pos, x.st, q.st, F1, rank);
    GrowTwice(F, t.used, q.st.used, Sem(g, s.b, q.st, rank).value.st.used);
  }

  lemma ValidRet(st: St)
    requires Valid(st)
    ensures Inside(st.ret, |st.nodes|)
  {
  }

  lemma ReturnShape(g: Program, s: Stmt, t: TSt, rank: nat)
    requires TOk(t) && s.Return? && WfStmt(s)
    ensures Wf(s.e) && Height(s.e) <= MAX_EXPR_DEPTH && EncStmt(s) == [0xA4] + Enc(s.e)
    ensures RunOne(g, s, t, rank) == (var x := Sem(g, s.e, t, rank); if x.None? then None
            else Some(Out(Returned(x.value.val), x.value.st)))
  {
    hide Enc, Wf, Height, Sem;
  }

  lemma ReturnSim(c: Env, g: Program, s: Stmt, p: seq<Byte>, len: nat, pos: nat, end: nat, st: St, t: TSt, F: set<nat>,
                  rank: nat)
    requires Ready(c, g, st, t, F) && Running(st) && s.Return? && WfStmt(s) && At(p, pos, EncStmt(s))
    requires pos + |EncStmt(s)| <= end <= len <= |p| && (pos + |EncStmt(s)| < end ==> p[pos + |EncStmt(s)|] != 0xA1)
    requires st.exprDepth == 0 && RunOne(g, s, t, rank).Some?
    ensures var x := ExecOne(c, p, len, pos, end, st, rank);
            x.ok && x.pos == pos + |EncStmt(s)| && Flows(x.st, RunOne(g, s, t, rank).value, t.used, F)
    decreases Fuel(t.depth, t.used), rank, s, 8
  {
    hide Eval, Data, Rep, Valid, EnvMatch, Grow, Enc, Wf, Height, Sem, EncStmt, WfStmt, RunOne, EncStmts, WfStmts, Run;
    DataValid(st, t, F);
    ReturnShape(g, s, t, rank);
    AtHead(p, pos, 0xA4, Enc(s.e));
    EvalSim(c, g, s.e, p, len, pos + 1, st, t, F, rank);
    var x, q := Eval(c, p, len, pos + 1, st, rank), Sem(g, s.e, t, rank).value;
    DataFlags(x.st, q.st, Grow(F, t.used, q.st.used), x.val, true, false, false);
  }

  /** The predicate of an If or While, read up to the end of its package. */
  lemma PredicateSim(c: Env, g: Program, e: Expr, p: seq<Byte>, len: nat, pos: nat, st: St, t: TSt, F: set<nat>,
                     rank: nat)
    requires Ready(c, g, st, t, F) && Running(st) && Wf(e) && Height(e) <= MAX_EXPR_DEPTH && Code(p, pos, len, Enc(e))
    requires st.exprDepth == 0 && Sem(g, e, t, rank).Some?
    ensures var x := Eval(c, p, len, pos, st, rank);
            var q := Sem(g, e, t, rank).value;
            && x.ok && x.pos == pos + |Enc(e)| && AsInteger(x.val) == AsInt(q.val)
            && Running(x.st) && x.st.exprDepth == 0
            && Data(x.st, q.st, Grow(F, t.used, q.st.used))
    decreases Fuel(t.depth, t.used), rank, e, 10
  {
    hide Eval, Data, Rep, Valid, EnvMatch, Grow, Enc, Wf, Height, Sem, AsInteger, AsInt;
    DataValid(st, t, F);
    EvalSim(c, g, e, p, len, pos, st, t, F, rank);
    var x, q := Eval(c, p, len, pos, st, rank), Sem(g, e, t, rank).value;
    RepInt(x.st.nodes, Grow(F, t.used, q.st.used), x.val, q.val);
  }

  /** The state after a finished body, with its flags cleared for the next iteration. */
  lemma FlowsCleared(x: St, o: Out, used: nat, F: set<nat>)
    requires Flows(x, o, used, F) && !o.flow.Returned?
    ensures Running(x.(brk := false, cont := false))
    ensures Data(x.(brk := false, cont := false), o.st, Grow(F, used, o.st.used))
  {
    hide Rep, Grow, Print, RepAll;
    DataFlags(x, o.st, Grow(F, used, o.st.used), x.ret, false, false, false) by { ValidRet(x); }
    assert !x.returned;
  }

  /** The predicate and the taken branch of an If; what is left is the optional Else. */
  lemma IfUnfold(c: Env, p: seq<Byte>, len: nat, at: nat, end: nat, st: St, rank: nat, ifEnd: nat, q: nat)
    requires at < end <= len <= |p| && Valid(st) && p[at] == 0xA0 && at < q <= ifEnd <= len
    requires PkgAt(p, at + 1, len) == Some(Decoded(ifEnd - at - 1, q - at - 1))
    ensures ExecOne(c, p, len, at, end, st, rank) == ExecIf(c, p, len, at, end, st, rank)
    ensures var cx := Eval(c, p, ifEnd, q, st, rank);
            cx.ok ==> ExecIf(c, p, len, at, end, st, rank) ==
                      IfRest(c, p, len, cx.pos, ifEnd, end, cx.st, rank, AsInteger(cx.val) != 0)
  {
    hide Eval, IfRest, Valid, PkgAt, AsInteger;
  }

  lemma IfHead(c: Env, g: Program, s: Stmt, p: seq<Byte>, len: nat, pos: nat, end: nat, st: St, t: TSt, F: set<nat>,
               rank: nat)
    requires Ready(c, g, st, t, F) && Running(st) && (s.If? || s.IfElse?)
    requires Wf(s.c) && Height(s.c) <= MAX_EXPR_DEPTH && WfStmts(s.thn)
    requires |Enc(s.c) + EncStmts(s.thn)| < BODY_CAP && At(p, pos, [0xA0] + Wrap(Enc(s.c) + EncStmts(s.thn)))
    requires pos + 1 + |Wrap(Enc(s.c) + EncStmts(s.thn))| <= end <= len <= |p|
    requires st.exprDepth == 0 && Sem(g, s.c, t, rank).Some?
    requires AsInt(Sem(g, s.c, t, rank).value.val) != 0 ==> Run(g, s.thn, Sem(g, s.c, t, rank).value.st, rank).Some?
    ensures var q := Sem(g, s.c, t, rank).value;
            var ifEnd := pos + 1 + |Wrap(Enc(s.c) + EncStmts(s.thn))|;
            var cx := Eval(c, p, ifEnd, ifEnd - |Enc(s.c) + EncStmts(s.thn)|, st, rank);
            && ExecOne(c, p, len, pos, end, st, rank) == ExecIf(c, p, len, pos, end, st, rank)
            && (AsInt(q.val) == 0 ==>
                  && Flows(cx.st, Out(Next, q.st), t.used, F) && cx.st.exprDepth == 0
                  && ExecIf(c, p, len, pos, end, st, rank) == AfterIf(c, p, len, ifEnd, end, cx.st, rank, true))
            && (AsInt(q.val) != 0 ==>
                  var x := Exec(c, p, len, cx.pos, ifEnd, cx.st, rank);
                  && Flows(x.st, Run(g, s.thn, q.st, rank).value, t.used, F)
                  && ExecIf(c, p, len, pos, end, st, rank) == AfterIf(c, p, len, ifEnd, end, x.st, rank, false))
    decreases Fuel(t.depth, t.used), rank, s, 6
  {
    hide Eval, Exec, AfterIf, Data, Rep, Valid, EnvMatch, Grow, Enc, Wf, Height, Sem, EncStmts, WfStmts, Run, AsInt,
      AsInteger, PkgAt, Wrap, ExecOne, ExecIf;
    DataValid(st, t, F);
    var body := Enc(s.c) + EncStmts(s.thn);
    var ifEnd := pos + 1 + |Wrap(body)|;
    AtHead(p, pos, 0xA0, Wrap(body));
    WrapDecodes(body, p, pos + 1, len);
    IfUnfold(c, p, len, pos, end, st, rank, ifEnd, ifEnd - |body|);
    AtSplit(p, ifEnd - |body|, Enc(s.c), EncStmts(s.thn));
    PredicateSim(c, g, s.c, p, ifEnd, ifEnd - |body|, st, t, F, rank);
    var cx, q := Eval(c, p, ifEnd, ifEnd - |body|, st, rank), Sem(g, s.c, t, rank).value;
    var F1 := Grow(F, t.used, q.st.used);
    DataValid(cx.st, q.st, F1);
    if AsInt(q.val) != 0 {
      ExecSim(c, g, s.thn, p, len, cx.pos, ifEnd, cx.st, q.st, F1, rank);
      FlowsAfter(Exec(c, p, len, cx.pos, ifEnd, cx.st, rank).st, Run(g, s.thn, q.st, rank).value, F, t.used, q.st.used);
    }
  }

  lemma IfShape(g: Program, s: Stmt, t: TSt, rank: nat)
    requires TOk(t) && s.If? && WfStmt(s)
    ensures Wf(s.c) && Height(s.c) <= MAX_EXPR_DEPTH && WfStmts(s.thn) && |Enc(s.c) + EncStmts(s.thn)| < BODY_CAP
    ensures EncStmt(s) == [0xA0] + Wrap(Enc(s.c) + EncStmts(s.thn))
    ensures RunOne(g, s, t, rank) == (var x := Sem(g, s.c, t, rank);
              if x.None? then None else if AsInt(x.value.val) != 0 then Run(g, s.thn, x.value.st, rank)
                  else Some(Out(Next, x.value.st)))
  {
    hide Enc, Wf, Height, Sem, EncStmts, WfStmts, Run, AsInt, Wrap;
  }

  lemma IfSim(c: Env, g: Program, s: Stmt, p: seq<Byte>, len: nat, pos: nat, end: nat, st: St, t: TSt, F: set<nat>,
              rank: nat)
    requires Ready(c, g, st, t, F) && Running(st) && s.If? && WfStmt(s) && At(p, pos, EncStmt(s))
    requires pos + |EncStmt(s)| <= end <= len <= |p| && (pos + |EncStmt(s)| < end ==> p[pos + |EncStmt(s)|] != 0xA1)
    requires st.exprDepth == 0 && RunOne(g, s, t, rank).Some?
    ensures var x := ExecOne(c, p, len, pos, end, st, rank);
            x.ok && x.pos == pos + |EncStmt(s)| && Flows(x.st, RunOne(g, s, t, rank).value, t.used, F)
    decreases Fuel(t.depth, t.used), rank, s, 8
  {
    hide Eval, Data, Rep, Valid, EnvMatch, Grow, Enc, Wf, Height, Sem, EncStmt, WfStmt, RunOne, EncStmts, WfStmts, Run,
      ExecOne, ExecIf, AsInt, Wrap, Exec, Flows;
    DataValid(st, t, F);
    IfShape(g, s, t, rank);
    IfHead(c, g, s, p, len, pos, end, st, t, F, rank);
  }

  /** The Else part, run or skipped. */
  lemma ElseSim(c: Env, g: Program, s: Stmt, p: seq<Byte>, len: nat, at: nat, end: nat, st: St, t: TSt, F: set<nat>,
                rank: nat, used: nat, o: Out, taken: bool)
    requires EnvMatch(c, g) && s.IfElse? && WfStmts(s.els) && |EncStmts(s.els)| < BODY_CAP
    requires At(p, at, [0xA1] + Wrap(EncStmts(s.els)))
    requires at + 1 + |Wrap(EncStmts(s.els))| <= end <= len <= |p| && used <= o.st.used
    requires o.st.depth == t.depth && Flows(st, o, used, F) && (taken ==>
               o.flow.Next? && st.exprDepth == 0 && Run(g, s.els, o.st, rank).Some?)
    requires TOk(t) && Kept(t, o.st)
    ensures Valid(st)
    ensures var x := AfterIf(c, p, len, at, end, st, rank, taken);
            && x.ok && x.pos == at + 1 + |Wrap(EncStmts(s.els))|
            && Flows(x.st, if taken then Run(g, s.els, o.st, rank).value else o, used, F)
    decreases Fuel(t.depth, t.used), rank, s, 6
  {
    hide Exec, Data, Rep, Valid, EnvMatch, Grow, EncStmts, WfStmts, Run, PkgAt, Wrap;
    var F1 := Grow(F, used, o.st.used);
    DataValid(st, o.st, F1);
    var body := EncStmts(s.els);
    AtHead(p, at, 0xA1, Wrap(body));
    WrapDecodes(body, p, at + 1, len);
    if taken {
      var elseEnd := at + 1 + |Wrap(body)|;
      ExecSim(c, g, s.els, p, len, elseEnd - |body|, elseEnd, st, o.st, F1, rank);
      FlowsAfter(Exec(c, p, len, elseEnd - |body|, elseEnd, st, rank).st,
                 Run(g, s.els, o.st, rank).value, F, used, o.st.used);
    }
  }

  lemma IfElseShape(g: Program, s: Stmt, t: TSt, rank: nat)
    requires TOk(t) && s.IfElse? && WfStmt(s)
    ensures Wf(s.c) && Height(s.c) <= MAX_EXPR_DEPTH && WfStmts(s.thn) && |Enc(s.c) + EncStmts(s.thn)| < BODY_CAP
    ensures WfStmts(s.els) && |EncStmts(s.els)| < BODY_CAP
    ensures EncStmt(s) == ([0xA0] + Wrap(Enc(s.c) + EncStmts(s.thn))) + ([0xA1] + Wrap(EncStmts(s.els)))
    ensures RunOne(g, s, t, rank) == (var x := Sem(g, s.c, t, rank);
              if x.None? then None else Run(g, if AsInt(x.value.val) != 0 then s.thn else s.els, x.value.st, rank))
  {
    hide Enc, Wf, Height, Sem, EncStmts, WfStmts, Run, AsInt, Wrap;
  }

  lemma IfElseSim(c: Env, g: Program, s: Stmt, p: seq<Byte>, len: nat, pos: nat, end: nat, st: St, t: TSt, F: set<nat>,
                  rank: nat)
    requires Ready(c, g, st, t, F) && Running(st) && s.IfElse? && WfStmt(s) && At(p, pos, EncStmt(s))
    requires pos + |EncStmt(s)| <= end <= len <= |p| && (pos + |EncStmt(s)| < end ==> p[pos + |EncStmt(s)|] != 0xA1)
    requires st.exprDepth == 0 && RunOne(g, s, t, rank).Some?
    ensures var x := ExecOne(c, p, len, pos, end, st, rank);
            x.ok && x.pos == pos + |EncStmt(s)| && Flows(x.st, RunOne(g, s, t, rank).value, t.used, F)
    decreases Fuel(t.depth, t.used), rank, s, 8
  {
    hide Eval, Data, Rep, Valid, EnvMatch, Grow, Enc, Wf, Height, Sem, EncStmt, WfStmt, RunOne, EncStmts, WfStmts, Run,
      ExecOne, ExecIf, AsInt, Wrap, Exec, Flows, AfterIf;
    DataValid(st, t, F);
    IfElseShape(g, s, t, rank);
    var a, b := [0xA0] + Wrap(Enc(s.c) + EncStmts(s.thn)), [0xA1] + Wrap(EncStmts(s.els));
    AtSplit(p, pos, a, b);
    IfHead(c, g, s, p, len, pos, end, st, t, F, rank);
    var q, ifEnd := Sem(g, s.c, t, rank).value, pos + |a|;
    var cx := Eval(c, p, ifEnd, ifEnd - |Enc(s.c) + EncStmts(s.thn)|, st, rank);
    if AsInt(q.val) != 0 {
      var x := Exec(c, p, len, cx.pos, ifEnd, cx.st, rank);
      ElseSim(c, g, s, p, len, ifEnd, end, x.st, t, F, rank, t.used, Run(g, s.thn, q.st, rank).value, false);
    } else {
      ElseSim(c, g, s, p, len, ifEnd, end, cx.st, t, F, rank, t.used, Out(Next, q.st), true);
    }
  }

  lemma LoopShape(g: Program, s: Stmt, t: TSt, rank: nat, n: nat)
    requires TOk(t) && s.While? && n > 0 && RunWhile(g, s, t, rank, n).Some?
    ensures Sem(g, s.c, t, rank).Some?
    ensures var q := Sem(g, s.c, t, rank).value;
            if AsInt(q.val) == 0 then RunWhile(g, s, t, rank, n) == Some(Out(Next, q.st))
            else
              && Run(g, s.body, q.st, rank).Some?
              && var o := Run(g, s.body, q.st, rank).value;
                 RunWhile(g, s, t, rank, n) ==
                   if o.flow.Returned? then Some(o)
                   else if o.flow.Broke? then Some(Out(Next, o.st))
                   else RunWhile(g, s, o.st, rank, n - 1)
  {
    hide Sem, Run, AsInt;
  }

  /** A loop: predicate, body, flags, again, up to the same cut-off. */
  lemma LoopSim(c: Env, g: Program, s: Stmt, p: seq<Byte>, len: nat, body: nat, wEnd: nat, st: St, t: TSt, F: set<nat>,
                rank: nat, n: nat)
    requires Ready(c, g, st, t, F) && Running(st) && s.While? && Wf(s.c) && Height(s.c) <= MAX_EXPR_DEPTH
    requires WfStmts(s.body)
    requires At(p, body, Enc(s.c)) && At(p, body + |Enc(s.c)|, EncStmts(s.body))
    requires body + |Enc(s.c)| + |EncStmts(s.body)| == wEnd <= len <= |p|
    requires st.exprDepth == 0 && RunWhile(g, s, t, rank, n).Some?
    ensures var x := Loop(c, p, len, body, wEnd, st, rank, n);
            x.ok && Flows(x.st, RunWhile(g, s, t, rank, n).value, t.used, F)
    decreases Fuel(t.depth, t.used), rank, s, 6, n, 1
  {
    hide Eval, Exec, Data, Rep, Valid, EnvMatch, Grow, Enc, Wf, Height, Sem, EncStmts, WfStmts, Run, AsInt, AsInteger,
      RunWhile;
    DataValid(st, t, F);
    if n == 0 {
      GrowNone(F, t.used);
      LoopDone(g, s, t, rank);
    } else {
      LoopShape(g, s, t, rank, n);
      PredicateSim(c, g, s.c, p, wEnd, body, st, t, F, rank);
      var cx, q := Eval(c, p, wEnd, body, st, rank), Sem(g, s.c, t, rank).value;
      if AsInt(q.val) != 0 {
        LoopBody(c, g, s, p, len, body, wEnd, cx.st, t, F, rank, n, cx.pos, q);
      }
    }
  }

  lemma LoopDone(g: Program, s: Stmt, t: TSt, rank: nat)
    requires TOk(t) && s.While?
    ensures RunWhile(g, s, t, rank, 0) == Some(Out(Next, t))
  {
  }

  lemma LoopBody(c: Env, g: Program, s: Stmt, p: seq<Byte>, len: nat, body: nat, wEnd: nat, st: St, t: TSt, F: set<nat>,
                 rank: nat, n: nat,
                 pos: nat, q: EV)
    requires TOk(t) && Kept(t, q.st) && Ready(c, g, st, q.st, Grow(F, t.used, q.st.used)) && Running(st) && s.While?
    requires Wf(s.c) && Height(s.c) <= MAX_EXPR_DEPTH && WfStmts(s.body) && n > 0
    requires At(p, body, Enc(s.c)) && At(p, body + |Enc(s.c)|, EncStmts(s.body))
    requires body + |Enc(s.c)| + |EncStmts(s.body)| == wEnd <= len <= |p|
    requires pos == body + |Enc(s.c)| && st.exprDepth == 0 && RunWhile(g, s, t, rank, n).Some?
    requires Sem(g, s.c, t, rank) == Some(q) && AsInt(q.val) != 0
    ensures var x := Exec(c, p, len, pos, wEnd, st, rank);
            && x.ok
            && var y := if x.st.returned || x.st.brk then X(true, x.st.(brk := false))
                        else Loop(c, p, len, body, wEnd, x.st.(cont := false), rank, n - 1);
               y.ok && Flows(y.st, RunWhile(g, s, t, rank, n).value, t.used, F)
    decreases Fuel(t.depth, t.used), rank, s, 6, n, 0
  {
    hide Eval, Exec, Loop, Data, Rep, Valid, EnvMatch, Grow, Enc, Wf, Height, Sem, EncStmts, WfStmts, Run, AsInt,
      AsInteger, RunWhile;
    var F1 := Grow(F, t.used, q.st.used);
    DataValid(st, q.st, F1);
    LoopShape(g, s, t, rank, n);
    ExecSim(c, g, s.body, p, len, pos, wEnd, st, q.st, F1, rank);
    var x, o := Exec(c, p, len, pos, wEnd, st, rank), Run(g, s.body, q.st, rank).value;
    FlowsAfter(x.st, o, F, t.used, q.st.used);
    if !o.flow.Returned? {
      FlowsCleared(x.st, o, t.used, F);
      var F2 := Grow(F, t.used, o.st.used);
      var st2 := x.st.(brk := false, cont := false);
      DataValid(st2, o.st, F2);
      if !o.flow.Broke? {
        LoopSim(c, g, s, p, len, body, wEnd, st2, o.st, F2, rank, n - 1);
        FlowsAfter(Loop(c, p, len, body, wEnd, st2, rank, n - 1).st,
                   RunWhile(g, s, o.st, rank, n - 1).value, F, t.used, o.st.used);
      }
    }
  }

  lemma WhileShape(g: Program, s: Stmt, t: TSt, rank: nat)
    requires TOk(t) && s.While? && WfStmt(s)
    ensures Wf(s.c) && Height(s.c) <= MAX_EXPR_DEPTH && WfStmts(s.body) && |Enc(s.c) + EncStmts(s.body)| < BODY_CAP
    ensures EncStmt(s) == [0xA2] + Wrap(Enc(s.c) + EncStmts(s.body))
    ensures RunOne(g, s, t, rank) == RunWhile(g, s, t, rank, LOOP_CAP)
  {
    hide Enc, Wf, Height, Sem, EncStmts, WfStmts, Run, RunWhile, Wrap;
  }

  lemma WhileSim(c: Env, g: Program, s: Stmt, p: seq<Byte>, len: nat, pos: nat, end: nat, st: St, t: TSt, F: set<nat>,
                 rank: nat)
    requires Ready(c, g, st, t, F) && Running(st) && s.While? && WfStmt(s) && At(p, pos, EncStmt(s))
    requires pos + |EncStmt(s)| <= end <= len <= |p| && (pos + |EncStmt(s)| < end ==> p[pos + |EncStmt(s)|] != 0xA1)
    requires st.exprDepth == 0 && RunOne(g, s, t, rank).Some?
    ensures var x := ExecOne(c, p, len, pos, end, st, rank);
            x.ok && x.pos == pos + |EncStmt(s)| && Flows(x.st, RunOne(g, s, t, rank).value, t.used, F)
    decreases Fuel(t.depth, t.used), rank, s, 8
  {
    hide Eval, Data, Rep, Valid, EnvMatch, Grow, Enc, Wf, Height, Sem, EncStmt, WfStmt, RunOne, EncStmts, WfStmts, Run,
      RunWhile, Loop, Wrap, PkgAt, Flows;
    DataValid(st, t, F);
    WhileShape(g, s, t, rank);
    var body := Enc(s.c) + EncStmts(s.body);
    AtHead(p, pos, 0xA2, Wrap(body));
    WrapDecodes(body, p, pos + 1, len);
    var wEnd := pos + 1 + |Wrap(body)|;
    AtSplit(p, wEnd - |body|, Enc(s.c), EncStmts(s.body));
    LoopSim(c, g, s, p, len, wEnd - |body|, wEnd, st, t, F, rank, LOOP_CAP);
  }

  lemma OpSim(c: Env, g: Program, e: Expr, p: seq<Byte>, len: nat, pos: nat, st: St, t: TSt, F: set<nat>, rank: nat)
    requires Ready(c, g, st, t, F) && Wf(e) && Code(p, pos, len, Enc(e))
    requires st.exprDepth + Height(e) <= MAX_EXPR_DEPTH + 1 && Sem(g, e, t, rank).Some?
    ensures Yields(EvalOp(c, p, len, pos, st, rank), pos + |Enc(e)|, Sem(g, e, t, rank).value, t.used, F)
    decreases Fuel(t.depth, t.used), rank, e, 8
  {
    hide Sem, Enc, Wf, Height, EvalOp, Data, EnvMatch, Yields, Code;
    if e.Zero? || e.One? || e.AllOnes? { ConstSim(c, g, e, p, len, pos, st, t, F, rank); }
    else if e.Lit? { LitSim(c, g, e, p, len, pos, st, t, F, rank); }
    else if e.Text? { TextSim(c, g, e, p, len, pos, st, t, F, rank); }
    else if e.Local? || e.Arg? { VarSim(c, g, e, p, len, pos, st, t, F, rank); }
    else if e.BufferE? { BufferSim(c, g, e, p, len, pos, st, t, F, rank); }
    else if e.PackageE? { PackageSim(c, g, e, p, len, pos, st, t, F, rank); }
    else if e.VarPackageE? { VarPackageSim(c, g, e, p, len, pos, st, t, F, rank); }
    else if e.Bin? { BinSim(c, g, e, p, len, pos, st, t, F, rank); }
    else if e.DivideE? { DivideSim(c, g, e, p, len, pos, st, t, F, rank); }
    else if e.Un? { UnSim(c, g, e, p, len, pos, st, t, F, rank); }
    else if e.StepE? { StepSim(c, g, e, p, len, pos, st, t, F, rank); }
    else if e.LogicE? { LogicSim(c, g, e, p, len, pos, st, t, F, rank); }
    else if e.LogicNotE? { LogicNotSim(c, g, e, p, len, pos, st, t, F, rank); }
    else if e.LNotE? {
      if e.a.LogicE? && Fusable(e.a.lop) { LNotFusedSim(c, g, e, p, len, pos, st, t, F, rank); }
      else { LNotSim(c, g, e, p, len, pos, st, t, F, rank); }
    }
    else if e.CopyE? { CopySim(c, g, e, p, len, pos, st, t, F, rank); }
    else if e.OneE? { OneSim(c, g, e, p, len, pos, st, t, F, rank); }
    else if e.IndexE? { IndexSim(c, g, e, p, len, pos, st, t, F, rank); }
    else if e.WaitE? || e.AcquireE? { WaitSim(c, g, e, p, len, pos, st, t, F, rank); }
    else if e.ExistsE? { ExistsSim(c, g, e, p, len, pos, st, t, F, rank); }
    else { RefSim(c, g, e, p, len, pos, st, t, F, rank); }
  }

  lemma StmtSim(c: Env, g: Program, s: Stmt, p: seq<Byte>, len: nat, pos: nat, end: nat, st: St, t: TSt, F: set<nat>,
                rank: nat)
    requires Ready(c, g, st, t, F) && Running(st) && WfStmt(s) && At(p, pos, EncStmt(s))
    requires pos + |EncStmt(s)| <= end <= len <= |p| && (pos + |EncStmt(s)| < end ==> p[pos + |EncStmt(s)|] != 0xA1)
    requires st.exprDepth == 0 && RunOne(g, s, t, rank).Some?
    ensures var x := ExecOne(c, p, len, pos, end, st, rank);
            x.ok && x.pos == pos + |EncStmt(s)| && Flows(x.st, RunOne(g, s, t, rank).value, t.used, F)
    decreases Fuel(t.depth, t.used), rank, s, 9
  {
    hide EncStmt, WfStmt, RunOne, ExecOne, Data, EnvMatch, Flows;
    match s
    case Do(_) => DoSim(c, g, s, p, len, pos, end, st, t, F, rank);
    case If(_, _) => IfSim(c, g, s, p, len, pos, end, st, t, F, rank);
    case IfElse(_, _, _) => IfElseSim(c, g, s, p, len, pos, end, st, t, F, rank);
    case While(_, _) => WhileSim(c, g, s, p, len, pos, end, st, t, F, rank);
    case Return(_) => ReturnSim(c, g, s, p, len, pos, end, st, t, F, rank);
    case Notify(_, _) => NotifySim(c, g, s, p, len, pos, end, st, t, F, rank);
    case _ => FlagSim(c, g, s, p, len, pos, end, st, t, F, rank);
  }
}
