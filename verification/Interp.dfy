/** The AML method interpreter as mutually recursive functions over an explicit state.

    Every function is total. The measure is lexicographic: the call levels and arena slots left,
    the rank of the Name being dereferenced, the bytes left, a position in the call graph, and a
    counter (package elements, arguments or predicate evaluations). The elements of a package are
    evaluated with the slots of the package already gone, so the rank starts afresh there. */
module Interp {
  import opened Bits
  import opened PkgLength
  import opened Names
  import opened Regions
  import opened Alu
  import opened Tables

  const ARENA_CAP: nat := 96
  const BUF_CAP: nat := 256
  const MAX_CALL_DEPTH: nat := 12
  const MAX_EXPR_DEPTH: nat := 64
  const LOOP_CAP: nat := 100000

  /** A value. A package is a run of arena slots. */
  datatype Value = Uninit | Int(n: U64) | Str(bytes: seq<Byte>) | Buf(bytes: seq<Byte>) | Pkg(first: nat, count: nat)

  /** A package refers only to allocated slots; bytes fit their buffer. */
  predicate Inside(v: Value, used: nat)
  {
    (v.Pkg? ==> v.first + v.count <= used) && ((v.Str? || v.Buf?) ==> |v.bytes| <= BUF_CAP)
  }

  predicate AllInside(vs: seq<Value>, used: nat) { forall i :: 0 <= i < |vs| ==> Inside(vs[i], used) }

  /** The namespace, region and field tables; `rank` orders Name-to-Name references. */
  datatype Env = Env(fields: map<Path, FieldInfo>, regions: map<Path, RegionInfo>, entries: map<Path, Entry>,
                     tables: TableSet, rank: map<Path, nat>, top: nat)

  function RankOf(env: Env, abs: Path): (r: nat)
  {
    if abs in env.rank then env.rank[abs] else 0
  }

  /** One evaluation state: the shared arena (the allocated slots), region contents and argument
      array, and the state of the running method. `stuck` records that a Name was dereferenced
      from a Name of no higher rank, where the recursion need not end. */
  datatype St = St(nodes: seq<Value>, world: World, args: seq<Value>, argc: nat, locals: seq<Value>,
                   ret: Value, returned: bool, brk: bool, cont: bool,
                   exprDepth: nat, depth: nat, scope: Path, stuck: bool)

  predicate Valid(st: St)
  {
    && |st.nodes| <= ARENA_CAP && AllInside(st.nodes, |st.nodes|)
    && WorldOk(st.world)
    && |st.args| == 7 && st.argc <= 7 && AllInside(st.args, |st.nodes|)
    && |st.locals| == 8 && AllInside(st.locals, |st.nodes|)
    && Inside(st.ret, |st.nodes|)
    && st.exprDepth <= MAX_EXPR_DEPTH && st.depth <= MAX_CALL_DEPTH && |st.scope| < PATH_CAP
  }

  /** What one method's execution never changes: allocated slots it did not itself allocate,
      the nesting counters, the scope and the argument count. */
  predicate Frame(a: St, b: St)
  {
    && a.nodes <= b.nodes
    && b.exprDepth == a.exprDepth && b.depth == a.depth && b.scope == a.scope && b.argc == a.argc
    && (a.stuck ==> b.stuck)
  }

  /** What an expression never changes, on top of that: the control flags and the return value. */
  predicate Quiet(a: St, b: St)
  {
    Frame(a, b) && b.ret == a.ret && b.returned == a.returned && b.brk == a.brk && b.cont == a.cont
  }

  datatype R = R(ok: bool, pos: nat, val: Value, st: St)

  /** Contract of every expression evaluator started at `at`: the cursor never moves back, moves
      strictly forward on success, and stays within `len`. */
  predicate Advanced(st: St, len: nat, at: nat, r: R)
  {
    && Valid(r.st) && Quiet(st, r.st) && Inside(r.val, |r.st.nodes|)
    && at <= r.pos && (r.ok ==> at < r.pos) && (at <= len ==> r.pos <= len)
  }

  function Fail(pos: nat, st: St): (r: R) { R(false, pos, Uninit, st) }

  /** What a call or a package element uses up for good: a call level or an arena slot. */
  function Fuel(depth: nat, used: nat): (n: nat)
  {
    (if depth < MAX_CALL_DEPTH then 97 * (MAX_CALL_DEPTH - depth) else 0) + if used < ARENA_CAP then ARENA_CAP - used
        else 0
  }

  function Left(len: nat, pos: nat): (n: nat) { if pos < len then len - pos else 0 }

  /** Integer coercion: a buffer is its first eight bytes, little-endian. */
  function AsInteger(v: Value): (n: U64)
  {
    match v
    case Int(n) => n
    case Buf(bytes) =>
      var b := bytes[..Min(8, |bytes|)];
      LeFits(b);
      Le(b)
    case _ => 0
  }

  lemma LeFits(b: seq<Byte>)
    requires |b| <= 8
    ensures Le(b) < TWO64
  {
    LeBound(b);
    Pow2Values();
    Pow2Monotone(8 * |b|, 64);
  }

  lemma {:induction false} Pow2Monotone(a: nat, b: nat)
    requires a <= b
    ensures Pow2(a) <= Pow2(b)
    decreases b - a
  {
    if a < b { Pow2Monotone(a + 1, b); }
  }

  // ----- targets -----

  datatype Target = Discard | ToLocal(i: nat) | ToArg(i: nat) | ToField(f: FieldInfo)

  datatype TargetAt = TargetAt(target: Target, next: nat)

  /** Decode a store destination; a name that is not a field is accepted and dropped. */
  function TargetOf(env: Env, p: seq<Byte>, len: nat, pos: nat, scope: Path): (r: Option<TargetAt>)
    requires len <= |p|
    ensures r.Some? ==> pos < r.value.next <= len
    ensures r.Some? && r.value.target.ToLocal? ==> r.value.target.i < 8
    ensures r.Some? && r.value.target.ToArg? ==> r.value.target.i < 7
  {
    if pos >= len then None
    else if p[pos] == 0 then Some(TargetAt(Discard, pos + 1))
    else if 0x60 <= p[pos] <= 0x67 then Some(TargetAt(ToLocal(p[pos] - 0x60), pos + 1))
    else if 0x68 <= p[pos] <= 0x6E then Some(TargetAt(ToArg(p[pos] - 0x68), pos + 1))
    else match NameAt(p, pos, len)
      case None => None
      case Some(n) =>
        match Search(env.fields.Keys, scope, n.name, 0)
        case None => Some(TargetAt(Discard, n.next))
        case Some(abs) => Some(TargetAt(ToField(env.fields[abs]), n.next))
  }

  predicate TargetOk(t: Target)
  {
    (t.ToLocal? ==> t.i < 8) && (t.ToArg? ==> t.i < 7)
  }

  function Assign(env: Env, t: Target, v: Value, st: St): (r: St)
    requires Valid(st) && Inside(v, |st.nodes|) && TargetOk(t)
    ensures Valid(r) && Quiet(st, r) && r.nodes == st.nodes && r.stuck == st.stuck
  {
    match t
    case Discard => st
    case ToLocal(i) => st.(locals := st.locals[i := v])
    case ToArg(i) => st.(args := st.args[i := v])
    case ToField(f) => st.(world := FieldWrite(env.regions, f, AsInteger(v), st.world))
  }

  /** Decode a target at `pos` and store `v` there. */
  function Finish(env: Env, p: seq<Byte>, len: nat, pos: nat, v: Value, st: St): (r: R)
    requires len <= |p| && Valid(st) && Inside(v, |st.nodes|)
    ensures Advanced(st, len, pos, r) && r.st.stuck == st.stuck
  {
    match TargetOf(env, p, len, pos, st.scope)
    case None => Fail(pos, st)
    case Some(t) => R(true, t.next, v, Assign(env, t.target, v, st))
  }

  /** Decode two targets at `pos`, then store `m` to the first and `q` to the second. */
  function FinishTwo(env: Env, p: seq<Byte>, len: nat, pos: nat, m: U64, q: U64, st: St): (r: R)
    requires len <= |p| && Valid(st)
    ensures Advanced(st, len, pos, r) && r.st.stuck == st.stuck
  {
    match TargetOf(env, p, len, pos, st.scope)
    case None => Fail(pos, st)
    case Some(rem) =>
      match TargetOf(env, p, len, rem.next, st.scope)
      case None => Fail(rem.next, st)
      case Some(quo) =>
        R(true, quo.next, Int(q), Assign(env, quo.target, Int(q), Assign(env, rem.target, Int(m), st)))
  }

  // ----- operands without sub-terms -----

  predicate IsLeaf(op: Byte)
  {
    op == 0 || op == 1 || op == 0xFF || 0x0A <= op <= 0x0E || 0x60 <= op <= 0x6E
  }

  /** Width in bytes of an integer constant's payload. */
  function ConstWidth(op: Byte): (n: nat)
  {
    if op == 0x0A then 1 else if op == 0x0B then 2 else if op == 0x0C then 4 else if op == 0x0E then 8 else 0
  }

  /** Length of the string bytes at `pos`: up to a NUL, the end, or 255 bytes. */
  function StrRun(p: seq<Byte>, len: nat, pos: nat, i: nat): (n: nat)
    requires len <= |p|
    ensures pos + n <= len || n == 0
    ensures i < BUF_CAP ==> i + n < BUF_CAP
    decreases BUF_CAP - i
  {
    if pos < len && p[pos] != 0 && i + 1 < BUF_CAP then 1 + StrRun(p, len, pos + 1, i + 1) else 0
  }

  function EvalLeaf(p: seq<Byte>, len: nat, at: nat, st: St): (r: R)
    requires at < len <= |p| && Valid(st) && IsLeaf(p[at])
    ensures Advanced(st, len, at, r) && r.st == st
  {
    var op, pos := p[at], at + 1;
    if op == 0 then R(true, pos, Int(0), st)
    else if op == 1 then R(true, pos, Int(1), st)
    else if op == 0xFF then R(true, pos, Int(ONES), st)
    else if op == 0x0D then
      var n := StrRun(p, len, pos, 0);
      if pos + n >= len then Fail(pos + n, st) else R(true, pos + n + 1, Str(p[pos..pos + n]), st)
    else if op <= 0x0E then
      var w := ConstWidth(op);
      if pos + w > len then Fail(pos, st)
      else LeFits(p[pos..pos + w]); R(true, pos + w, Int(Le(p[pos..pos + w])), st)
    else if op >= 0x68 then R(true, pos, if op - 0x68 < st.argc then st.args[op - 0x68] else Uninit, st)
    else R(true, pos, st.locals[op - 0x60], st)
  }

  // ----- expressions -----

  /** EvalTermArg: one TermArg at `pos`, under the operand-nesting guard. */
  function Eval(env: Env, p: seq<Byte>, len: nat, pos: nat, st: St, rank: nat): (r: R)
    requires len <= |p| && Valid(st)
    ensures Advanced(st, len, pos, r)
    decreases Fuel(st.depth, |st.nodes|), rank, Left(len, pos), 9, 0
  {
    if st.exprDepth >= MAX_EXPR_DEPTH || pos >= len then Fail(pos, st)
    else
      var r := EvalOp(env, p, len, pos, st.(exprDepth := st.exprDepth + 1), rank);
      r.(st := r.st.(exprDepth := st.exprDepth))
  }

  function EvalOp(env: Env, p: seq<Byte>, len: nat, at: nat, st: St, rank: nat): (r: R)
    requires at < len <= |p| && Valid(st)
    ensures Advanced(st, len, at, r)
    decreases Fuel(st.depth, |st.nodes|), rank, Left(len, at), 8, 0
  {
    var op := p[at];
    if IsLeaf(op) then EvalLeaf(p, len, at, st)
    else if op == 0x11 then EvalBuffer(env, p, len, at, st, rank)
    else if op == 0x12 || op == 0x13 then EvalPackage(env, p, len, at, st, rank)
    else if BinOpOf(op).Some? then EvalBin(env, p, len, at, st, rank, BinOpOf(op).value)
    else if op == 0x78 then EvalDivide(env, p, len, at, st, rank)
    else if op == 0x80 then EvalUn(env, p, len, at, st, rank, NotOp)
    else if op == 0x81 then EvalUn(env, p, len, at, st, rank, FindSetLeft)
    else if op == 0x82 then EvalUn(env, p, len, at, st, rank, FindSetRight)
    else if op == 0x75 || op == 0x76 then EvalStep(env, p, len, at, st, rank, op == 0x75)
    else if LogicOf(op).Some? then EvalLogic(env, p, len, at, at + 1, st, rank, LogicOf(op).value, true)
    else if op == 0x92 then EvalLNot(env, p, len, at, st, rank)
    else if op == 0x70 || op == 0x96 || op == 0x97 || op == 0x98 || op == 0x9C then
      EvalCopy(env, p, len, at, st, rank)
    else if op == 0x87 || op == 0x99 || op == 0x83 || op == 0x8E then EvalOne(env, p, len, at, st, rank, op)
    else if op == 0x88 then EvalIndex(env, p, len, at, st, rank)
    else if op == 0x5B then EvalExt(env, p, len, at, st, rank)
    else if NameStart(op) then
      match NameAt(p, at, len)
      case None => Fail(at, st)
      case Some(n) => EvalName(env, p, len, at, n.next, n.name, st, rank)
    else Fail(at + 1, st)
  }

  /** Buffer(size) { bytes }: the bytes that are there, zero-padded or cut to the size. */
  function EvalBuffer(env: Env, p: seq<Byte>, len: nat, at: nat, st: St, rank: nat): (r: R)
    requires at < len <= |p| && Valid(st)
    ensures Advanced(st, len, at, r)
    decreases Fuel(st.depth, |st.nodes|), rank, Left(len, at), 7, 0
  {
    var pos := at + 1;
    match PkgAt(p, pos, len)
    case None => Fail(pos, st)
    case Some(d) =>
      if d.len > len - pos then Fail(pos, st)
      else
        var end := pos + d.len;
        var s := Eval(env, p, len, pos + d.consumed, st, rank);
        if !s.ok then s
        else R(true, end, Buf(BufferBytes(p, s.pos, end, Min(AsInteger(s.val), BUF_CAP))), s.st)
  }

  function BufferBytes(p: seq<Byte>, pos: nat, end: nat, n: nat): (b: seq<Byte>)
    requires end <= |p|
    ensures |b| == n
  {
    seq(n, i requires 0 <= i < n => if pos + i < end then p[pos + i] else 0)
  }

  /** Slots for `n` elements, as many as the arena still has. */
  function Reserve(st: St, n: nat): (r: St)
    requires Valid(st)
    ensures Valid(r) && Quiet(st, r) && r == st.(nodes := r.nodes)
    ensures |r.nodes| == |st.nodes| + Min(n, ARENA_CAP - |st.nodes|)
    ensures forall i :: |st.nodes| <= i < |r.nodes| ==> r.nodes[i] == Uninit
  {
    var nodes := st.nodes + seq(Min(n, ARENA_CAP - |st.nodes|), i => Uninit);
    assert AllInside(nodes, |nodes|);
    st.(nodes := nodes)
  }

  /** Package and VarPackage: reserve every slot first, then fill them in order. */
  function EvalPackage(env: Env, p: seq<Byte>, len: nat, at: nat, st: St, rank: nat): (r: R)
    requires at < len <= |p| && Valid(st)
    ensures Advanced(st, len, at, r)
    decreases Fuel(st.depth, |st.nodes|), rank, Left(len, at), 7, 0
  {
    var pos := at + 1;
    match PkgAt(p, pos, len)
    case None => Fail(pos, st)
    case Some(d) =>
      if d.len > len - pos then Fail(pos, st)
      else
        var end := pos + d.len;
        var c := ElementCount(env, p, len, pos + d.consumed, st, rank, p[at] == 0x12);
        if !c.ok then c
        else
          var b := Build(env, p, end, c.pos, c.st, rank, AsInteger(c.val));
          R(true, end, Pkg(b.first, b.count), b.st)
  }

  datatype Built = Built(first: nat, count: nat, st: St)

  function Build(env: Env, p: seq<Byte>, end: nat, pos: nat, st: St, rank: nat, n: nat): (b: Built)
    requires end <= |p| && Valid(st)
    ensures Valid(b.st) && Quiet(st, b.st)
    ensures b.first == |st.nodes| && b.count == Min(n, ARENA_CAP - |st.nodes|) && b.first + b.count <= |b.st.nodes|
    decreases Fuel(st.depth, |st.nodes|), rank, Left(end, pos), 11, 0
  {
    var st1 := Reserve(st, n);
    var first, count := |st.nodes|, |st1.nodes| - |st.nodes|;
    Built(first, count, if count == 0 then st1 else FillSlots(env, p, end, pos, st1, env.top, first, 0, count))
  }

  /** A Package's element count is a byte; a VarPackage's is a term. */
  function ElementCount(env: Env, p: seq<Byte>, len: nat, pos: nat, st: St, rank: nat, fixed: bool): (r: R)
    requires len <= |p| && Valid(st)
    ensures Advanced(st, len, pos, r)
    decreases Fuel(st.depth, |st.nodes|), rank, Left(len, pos), 10, 0
  {
    if fixed then
      if pos >= len then Fail(pos, st) else R(true, pos + 1, Int(p[pos]), st)
    else Eval(env, p, len, pos, st, rank)
  }

  function SetNode(st: St, k: nat, v: Value): (r: St)
    requires Valid(st) && k < |st.nodes| && Inside(v, |st.nodes|)
    ensures Valid(r) && r == st.(nodes := r.nodes) && |r.nodes| == |st.nodes| && r.nodes[k] == v
    ensures forall i :: 0 <= i < |st.nodes| && i != k ==> r.nodes[i] == st.nodes[i]
  {
    st.(nodes := st.nodes[k := v])
  }

  /** Fill slots `first + e ..` from the terms before `end`; a term that fails leaves Uninit. */
  function FillSlots(env: Env, p: seq<Byte>, end: nat, pos: nat, st: St, rank: nat,
                     first: nat, e: nat, count: nat): (r: St)
    requires end <= |p| && Valid(st) && e <= count && first + count <= |st.nodes|
    ensures Valid(r) && Quiet(st.(nodes := []), r) && |st.nodes| <= |r.nodes|
    ensures forall i :: 0 <= i < |st.nodes| && !(first + e <= i < first + count) ==> r.nodes[i] == st.nodes[i]
    decreases Fuel(st.depth, |st.nodes|), rank, Left(end, pos), 10, count - e
  {
    if e >= count || pos >= end then st
    else
      var r := FillOne(env, p, end, pos, st, rank, first + e);
      FillSlots(env, p, end, r.pos, r.st, rank, first, e + 1, count)
  }

  /** Fill slot `k` from the term at `pos`; the slots below the free ones are otherwise left alone. */
  function FillOne(env: Env, p: seq<Byte>, end: nat, pos: nat, st: St, rank: nat, k: nat): (r: R)
    requires end <= |p| && Valid(st) && k < |st.nodes|
    ensures Valid(r.st) && Quiet(st.(nodes := []), r.st) && |st.nodes| <= |r.st.nodes| && pos <= r.pos
    ensures forall i :: 0 <= i < |st.nodes| && i != k ==> r.st.nodes[i] == st.nodes[i]
    decreases Fuel(st.depth, |st.nodes|), rank, Left(end, pos), 10, 0
  {
    var r := Eval(env, p, end, pos, st, rank);
    r.(st := SetNode(r.st, k, if r.ok then r.val else Uninit))
  }

  datatype Two = Two(ok: bool, pos: nat, a: U64, b: U64, st: St)

  /** Two integer operands in order. */
  function EvalTwo(env: Env, p: seq<Byte>, len: nat, pos: nat, st: St, rank: nat): (r: Two)
    requires len <= |p| && Valid(st)
    ensures Valid(r.st) && Quiet(st, r.st) && pos <= r.pos && (r.ok ==> pos < r.pos) && (pos <= len ==> r.pos <= len)
    decreases Fuel(st.depth, |st.nodes|), rank, Left(len, pos), 10, 0
  {
    var x := Eval(env, p, len, pos, st, rank);
    if !x.ok then Two(false, x.pos, 0, 0, x.st)
    else
      var y := Eval(env, p, len, x.pos, x.st, rank);
      Two(y.ok, y.pos, AsInteger(x.val), AsInteger(y.val), y.st)
  }

  function EvalBin(env: Env, p: seq<Byte>, len: nat, at: nat, st: St, rank: nat, o: BinOp): (r: R)
    requires at < len <= |p| && Valid(st)
    ensures Advanced(st, len, at, r)
    decreases Fuel(st.depth, |st.nodes|), rank, Left(len, at), 7, 0
  {
    var t := EvalTwo(env, p, len, at + 1, st, rank);
    if !t.ok then Fail(t.pos, t.st) else Finish(env, p, len, t.pos, Int(Apply(o, t.a, t.b)), t.st)
  }

  /** Divide: the remainder is stored first, then the quotient; dividing by zero gives zeros. */
  function EvalDivide(env: Env, p: seq<Byte>, len: nat, at: nat, st: St, rank: nat): (r: R)
    requires at < len <= |p| && Valid(st)
    ensures Advanced(st, len, at, r)
    decreases Fuel(st.depth, |st.nodes|), rank, Left(len, at), 7, 0
  {
    var t := EvalTwo(env, p, len, at + 1, st, rank);
    if !t.ok then Fail(t.pos, t.st)
    else
      FinishTwo(env, p, len, t.pos, Apply(ModOp, t.a, t.b), Quotient(t.a, t.b), t.st)
  }

  function EvalUn(env: Env, p: seq<Byte>, len: nat, at: nat, st: St, rank: nat, o: UnOp): (r: R)
    requires at < len <= |p| && Valid(st)
    ensures Advanced(st, len, at, r)
    decreases Fuel(st.depth, |st.nodes|), rank, Left(len, at), 7, 0
  {
    var x := Eval(env, p, len, at + 1, st, rank);
    if !x.ok then x else Finish(env, p, len, x.pos, Int(ApplyUn(o, AsInteger(x.val))), x.st)
  }

  /** Increment and Decrement: the operand is read as a term, then decoded again as a target. */
  function EvalStep(env: Env, p: seq<Byte>, len: nat, at: nat, st: St, rank: nat, up: bool): (r: R)
    requires at < len <= |p| && Valid(st)
    ensures Advanced(st, len, at, r)
    decreases Fuel(st.depth, |st.nodes|), rank, Left(len, at), 7, 0
  {
    var x := Eval(env, p, len, at + 1, st, rank);
    if !x.ok then x
    else Finish(env, p, len, at + 1, Int((AsInteger(x.val) + (if up then 1 else -1)) % TWO64), x.st)
  }

  /** A logical operator over operands at `pos`; `sense` is false for the fused negated forms. */
  function EvalLogic(env: Env, p: seq<Byte>, len: nat, at: nat, pos: nat, st: St, rank: nat, o: Logic,
                     sense: bool): (r: R)
    requires at < len <= |p| && at < pos && Valid(st)
    requires pos <= len
    ensures Advanced(st, len, at, r)
    decreases Fuel(st.depth, |st.nodes|), rank, Left(len, at), 6, 0
  {
    var t := EvalTwo(env, p, len, pos, st, rank);
    if !t.ok then Fail(t.pos, t.st) else R(true, t.pos, Int(Truth(Holds(o, t.a, t.b) == sense)), t.st)
  }

  /** LNot, which doubles as the prefix of LNotEqual, LLessEqual and LGreaterEqual. */
  function EvalLNot(env: Env, p: seq<Byte>, len: nat, at: nat, st: St, rank: nat): (r: R)
    requires at < len <= |p| && Valid(st)
    ensures Advanced(st, len, at, r)
    decreases Fuel(st.depth, |st.nodes|), rank, Left(len, at), 7, 0
  {
    var pos := at + 1;
    if pos < len && 0x93 <= p[pos] <= 0x95 then
      EvalLogic(env, p, len, at, pos + 1, st, rank, LogicOf(p[pos]).value, false)
    else
      var x := Eval(env, p, len, pos, st, rank);
      if !x.ok then x else R(true, x.pos, Int(Truth(AsInteger(x.val) == 0)), x.st)
  }

  /** Store and the To* coercions: the value of the source, also stored to the target. */
  function EvalCopy(env: Env, p: seq<Byte>, len: nat, at: nat, st: St, rank: nat): (r: R)
    requires at < len <= |p| && Valid(st)
    ensures Advanced(st, len, at, r)
    decreases Fuel(st.depth, |st.nodes|), rank, Left(len, at), 7, 0
  {
    var x := Eval(env, p, len, at + 1, st, rank);
    if !x.ok then x else Finish(env, p, len, x.pos, x.val, x.st)
  }

  function SizeOf(v: Value): (n: U64)
    requires Inside(v, ARENA_CAP)
  {
    match v
    case Pkg(_, count) => count
    case Buf(b) => |b|
    case Str(b) => |b|
    case _ => 8
  }

  function TypeCode(v: Value): (n: U64)
  {
    match v
    case Uninit => 0
    case Int(_) => 1
    case Str(_) => 2
    case Buf(_) => 3
    case Pkg(_, _) => 4
  }

  /** SizeOf, ToInteger, DerefOf and ObjectType of an already evaluated operand. */
  function OneOperand(op: Byte, v: Value): (r: Value)
    requires Inside(v, ARENA_CAP)
    ensures !r.Int? ==> r == v
  {
    if op == 0x87 then Int(SizeOf(v))
    else if op == 0x99 then Int(AsInteger(v))
    else if op == 0x8E then Int(TypeCode(v))
    else v
  }

  function EvalOne(env: Env, p: seq<Byte>, len: nat, at: nat, st: St, rank: nat, op: Byte): (r: R)
    requires at < len <= |p| && Valid(st)
    ensures Advanced(st, len, at, r)
    decreases Fuel(st.depth, |st.nodes|), rank, Left(len, at), 7, 0
  {
    var x := Eval(env, p, len, at + 1, st, rank);
    if !x.ok then x else R(true, x.pos, OneOperand(op, x.val), x.st)
  }

  /** Element `i` of a package, byte `i` of a buffer or string; Uninit when there is none. */
  function Element(st: St, v: Value, i: nat): (r: Value)
    requires Valid(st) && Inside(v, |st.nodes|)
    ensures Inside(r, |st.nodes|)
  {
    if v.Pkg? && i < v.count then st.nodes[v.first + i]
    else if (v.Str? || v.Buf?) && i < |v.bytes| then Int(v.bytes[i])
    else Uninit
  }

  function EvalIndex(env: Env, p: seq<Byte>, len: nat, at: nat, st: St, rank: nat): (r: R)
    requires at < len <= |p| && Valid(st)
    ensures Advanced(st, len, at, r)
    decreases Fuel(st.depth, |st.nodes|), rank, Left(len, at), 7, 0
  {
    var x := Eval(env, p, len, at + 1, st, rank);
    if !x.ok then x
    else
      var i := Eval(env, p, len, x.pos, x.st, rank);
      if !i.ok then i else Finish(env, p, len, i.pos, Element(i.st, x.val, AsInteger(i.val)), i.st)
  }

  /** The two-byte opcodes: CondRefOf, Acquire, Release, Stall and Sleep. */
  function EvalExt(env: Env, p: seq<Byte>, len: nat, at: nat, st: St, rank: nat): (r: R)
    requires at < len <= |p| && Valid(st)
    ensures Advanced(st, len, at, r)
    decreases Fuel(st.depth, |st.nodes|), rank, Left(len, at), 7, 0
  {
    var pos := at + 2;
    if at + 1 >= len then Fail(at + 1, st)
    else if p[at + 1] == 0x12 then
      var n := if pos < len && NameStart(p[pos]) then NameAt(p, pos, len) else None;
      var found := n.Some? && Search(env.fields.Keys + env.entries.Keys, st.scope, n.value.name, 0).Some?;
      var q := if n.Some? then n.value.next else pos;
      match TargetOf(env, p, len, q, st.scope)
      case None => Fail(q, st)
      case Some(t) => R(true, t.next, Int(Truth(found)), st)
    else if p[at + 1] == 0x23 then
      var x := Eval(env, p, len, pos, st, rank);
      R(true, if x.pos + 2 <= len then x.pos + 2 else x.pos, Int(0), x.st)
    else if p[at + 1] == 0x27 || p[at + 1] == 0x21 || p[at + 1] == 0x22 then
      var x := Eval(env, p, len, pos, st, rank);
      R(true, x.pos, Int(0), x.st)
    else Fail(pos, st)
  }

  /** A name operand: a field is read, a method invoked, a Name's value evaluated in a fresh
      state; anything else, found or not, is Uninit. */
  function EvalName(env: Env, p: seq<Byte>, len: nat, at: nat, pos: nat, name: NameRef, st: St, rank: nat): (r: R)
    requires at < pos <= len <= |p| && Valid(st)
    ensures Advanced(st, len, at, r)
    decreases Fuel(st.depth, |st.nodes|), rank, Left(len, at), 7, 0
  {
    match Search(env.fields.Keys + env.entries.Keys, st.scope, name, 0)
    case None => R(true, pos, Uninit, st)
    case Some(abs) =>
      if abs in env.fields then
        var v := FieldRead(env.regions, env.fields[abs], st.world);
        R(true, pos, Int(if v.Some? then v.value else ONES), st)
      else if env.entries[abs].kind == MethodKind then Invoke(env, p, len, at, pos, abs, st, rank)
      else
        match NameValue(env.tables, env.entries[abs])
        case None => R(true, pos, Uninit, st)
        case Some(data) =>
          if RankOf(env, abs) >= rank then Fail(pos, st.(stuck := true))
          else
            var sub := NameState(st, abs);
            var x := Eval(env, data, |data|, 0, sub, RankOf(env, abs));
            R(x.ok, pos, x.val, Shared(st, x.st).(args := x.st.args))
  }

  /** The state a Name's value is evaluated in: same arena, arguments and call depth. */
  function NameState(st: St, abs: Path): (r: St)
    requires Valid(st) && |abs| < PATH_CAP
    ensures Valid(r) && r.depth == st.depth && r.nodes == st.nodes
  {
    st.(locals := seq(8, i => Uninit), ret := Uninit, returned := false, brk := false, cont := false,
        exprDepth := 0, scope := abs)
  }

  /** The state a method body runs in: same arena, its own arguments, one call deeper. */
  function CallState(st: St, abs: Path, args: seq<Value>, argc: nat): (r: St)
    requires Valid(st) && |abs| < PATH_CAP && st.depth < MAX_CALL_DEPTH
    requires |args| <= 7 && argc <= 7 && AllInside(args, |st.nodes|)
    ensures Valid(r) && r.depth == st.depth + 1 && r.nodes == st.nodes
  {
    NameState(st, abs).(args := args + seq(7 - |args|, i => Uninit), argc := argc, depth := st.depth + 1)
  }

  /** The caller's state after a callee: only the shared parts have changed. */
  function Shared(st: St, sub: St): (r: St)
    requires Valid(st) && Valid(sub) && st.nodes <= sub.nodes && (st.stuck ==> sub.stuck)
    ensures Valid(r) && Quiet(st, r)
  {
    assert AllInside(st.args, |sub.nodes|) && AllInside(st.locals, |sub.nodes|);
    st.(nodes := sub.nodes, world := sub.world, stuck := sub.stuck)
  }

  datatype Args = Args(ok: bool, pos: nat, vals: seq<Value>, st: St)

  /** `n` more call arguments at `pos`, in order. */
  function EvalArgs(env: Env, p: seq<Byte>, len: nat, pos: nat, st: St, rank: nat, n: nat): (r: Args)
    requires pos <= len <= |p| && Valid(st)
    ensures Valid(r.st) && Quiet(st, r.st) && pos <= r.pos <= len
    ensures r.ok ==> |r.vals| == n && AllInside(r.vals, |r.st.nodes|)
    decreases Fuel(st.depth, |st.nodes|), rank, Left(len, pos), 10, n
  {
    if n == 0 then Args(true, pos, [], st)
    else
      var x := Eval(env, p, len, pos, st, rank);
      if !x.ok then Args(false, x.pos, [], x.st)
      else
        var rest := EvalArgs(env, p, len, x.pos, x.st, rank, n - 1);
        Args(rest.ok, rest.pos, [x.val] + rest.vals, rest.st)
  }

  /** Call the method at `abs` with arguments taken from the caller's bytes at `pos`. */
  function Invoke(env: Env, p: seq<Byte>, len: nat, at: nat, pos: nat, abs: Path, st: St, rank: nat): (r: R)
    requires at < pos <= len <= |p| && Valid(st) && abs in env.entries && |abs| < PATH_CAP
    ensures Advanced(st, len, at, r)
    decreases Fuel(st.depth, |st.nodes|), rank, Left(len, at), 6, 0
  {
    var m := MethodBody(env.tables, env.entries[abs]);
    if st.depth >= MAX_CALL_DEPTH || m.None? then Fail(pos, st)
    else
      var a := EvalArgs(env, p, len, pos, st, rank, m.value.argc);
      if !a.ok then Fail(a.pos, a.st)
      else
        Back(a.pos, a.st, RunBody(env, abs, m.value, a.vals, a.st))
  }

  /** The caller goes on at `pos` with what the callee returned. */
  function Back(pos: nat, st: St, x: X): (r: R)
    requires Valid(st) && Valid(x.st) && st.nodes <= x.st.nodes && (st.stuck ==> x.st.stuck)
    ensures Valid(r.st) && Quiet(st, r.st) && Inside(r.val, |r.st.nodes|) && r.pos == pos
  {
    R(x.ok, pos, if x.ok && x.st.returned then x.st.ret else Uninit, Shared(st, x.st))
  }

  /** A method body from its first byte, in a fresh state one call deeper. */
  function RunBody(env: Env, abs: Path, m: Body, args: seq<Value>, st: St): (x: X)
    requires Valid(st) && |abs| < PATH_CAP && st.depth < MAX_CALL_DEPTH
    requires |args| <= 7 && m.argc <= 7 && AllInside(args, |st.nodes|)
    ensures Valid(x.st) && st.nodes <= x.st.nodes && (st.stuck ==> x.st.stuck)
    decreases Fuel(st.depth, |st.nodes|), 0, 0, 0, 0
  {
    Exec(env, m.code, |m.code|, 0, |m.code|, CallState(st, abs, args, m.argc), env.top)
  }

  // ----- statements -----

  datatype X = X(ok: bool, st: St)

  /** ExecTermList: run statements from `pos` up to `end`. */
  function Exec(env: Env, p: seq<Byte>, len: nat, pos: nat, end: nat, st: St, rank: nat): (x: X)
    requires end <= len <= |p| && Valid(st)
    ensures Valid(x.st) && Frame(st, x.st)
    decreases Fuel(st.depth, |st.nodes|), rank, Left(len, pos), 11, 0
  {
    if pos >= end || st.returned || st.brk || st.cont then X(true, st)
    else
      var s := ExecOne(env, p, len, pos, end, st, rank);
      if !s.ok then X(false, s.st)
      else Exec(env, p, len, s.pos, end, s.st, rank)
  }

  datatype S = S(ok: bool, pos: nat, st: St)

  predicate Moved(st: St, len: nat, at: nat, s: S)
  {
    Valid(s.st) && Frame(st, s.st) && (s.ok ==> at < s.pos <= len)
  }

  /** One statement. Return, Break and Continue only set their flag; the list then stops. */
  function ExecOne(env: Env, p: seq<Byte>, len: nat, at: nat, end: nat, st: St, rank: nat): (s: S)
    requires at < end <= len <= |p| && Valid(st)
    ensures Moved(st, len, at, s)
    decreases Fuel(st.depth, |st.nodes|), rank, Left(len, at), 10, 0
  {
    var op := p[at];
    if op == 0xA4 then
      var x := Eval(env, p, len, at + 1, st, rank);
      if !x.ok then S(false, x.pos, x.st) else S(true, x.pos, x.st.(ret := x.val, returned := true))
    else if op == 0xA3 || op == 0xCC then S(true, at + 1, st)
    else if op == 0xA5 then S(true, at + 1, st.(brk := true))
    else if op == 0x9F then S(true, at + 1, st.(cont := true))
    else if op == 0xA0 then ExecIf(env, p, len, at, end, st, rank)
    else if op == 0xA1 then
      match PkgAt(p, at + 1, len)
      case None => S(false, at + 1, st)
      case Some(d) => if d.len > len - (at + 1) then S(false, at + 1, st) else S(true, at + 1 + d.len, st)
    else if op == 0xA2 then ExecWhile(env, p, len, at, st, rank)
    else if op == 0x86 then
      var x := Eval(env, p, len, at + 1, st, rank);
      var y := Eval(env, p, len, x.pos, x.st, rank);
      S(true, y.pos, y.st)
    else
      var x := Eval(env, p, len, at, st, rank);
      S(x.ok, x.pos, x.st)
  }

  /** If with an optional Else right behind it; at most one of the two lists runs. */
  function ExecIf(env: Env, p: seq<Byte>, len: nat, at: nat, end: nat, st: St, rank: nat): (s: S)
    requires at < end <= len <= |p| && Valid(st)
    ensures Moved(st, len, at, s)
    decreases Fuel(st.depth, |st.nodes|), rank, Left(len, at), 9, 0
  {
    var pos := at + 1;
    match PkgAt(p, pos, len)
    case None => S(false, pos, st)
    case Some(d) =>
      if d.len > len - pos then S(false, pos, st)
      else
        var ifEnd := pos + d.len;
        var c := Eval(env, p, ifEnd, pos + d.consumed, st, rank);
        if !c.ok then S(false, c.pos, c.st)
        else IfRest(env, p, len, c.pos, ifEnd, end, c.st, rank, AsInteger(c.val) != 0)
  }

  /** The list at `at`, if taken, and what follows it. */
  function IfRest(env: Env, p: seq<Byte>, len: nat, at: nat, ifEnd: nat, end: nat, st: St, rank: nat,
                  taken: bool): (s: S)
    requires at <= ifEnd <= len && end <= len <= |p| && Valid(st)
    ensures Valid(s.st) && Frame(st, s.st) && (s.ok ==> ifEnd <= s.pos <= len)
    decreases Fuel(st.depth, |st.nodes|), rank, Left(len, at), 12, 0
  {
    var x := if taken then Exec(env, p, len, at, ifEnd, st, rank) else X(true, st);
    if !x.ok then S(false, at, x.st) else AfterIf(env, p, len, ifEnd, end, x.st, rank, !taken)
  }

  function AfterIf(env: Env, p: seq<Byte>, len: nat, at: nat, end: nat, st: St, rank: nat, taken: bool): (s: S)
    requires at <= len && end <= len <= |p| && Valid(st)
    ensures Valid(s.st) && Frame(st, s.st) && (s.ok ==> at <= s.pos <= len)
    decreases Fuel(st.depth, |st.nodes|), rank, Left(len, at), 10, 0
  {
    if at < end && p[at] == 0xA1 then ExecElse(env, p, len, at, st, rank, taken) else S(true, at, st)
  }

  function ExecElse(env: Env, p: seq<Byte>, len: nat, at: nat, st: St, rank: nat, taken: bool): (s: S)
    requires at < len <= |p| && Valid(st)
    ensures Moved(st, len, at, s)
    decreases Fuel(st.depth, |st.nodes|), rank, Left(len, at), 9, 0
  {
    var pos := at + 1;
    match PkgAt(p, pos, len)
    case None => S(false, pos, st)
    case Some(d) =>
      if d.len > len - pos then S(false, pos, st)
      else
        var elseEnd := pos + d.len;
        var x := if taken then Exec(env, p, len, pos + d.consumed, elseEnd, st, rank) else X(true, st);
        S(x.ok, elseEnd, x.st)
  }

  function ExecWhile(env: Env, p: seq<Byte>, len: nat, at: nat, st: St, rank: nat): (s: S)
    requires at < len <= |p| && Valid(st)
    ensures Moved(st, len, at, s)
    decreases Fuel(st.depth, |st.nodes|), rank, Left(len, at), 9, 0
  {
    var pos := at + 1;
    match PkgAt(p, pos, len)
    case None => S(false, pos, st)
    case Some(d) =>
      if d.len > len - pos then S(false, pos, st)
      else
        var wEnd := pos + d.len;
        var x := Loop(env, p, len, pos + d.consumed, wEnd, st, rank, LOOP_CAP);
        S(x.ok, wEnd, x.st)
  }

  /** A While loop with `n` predicate evaluations left before the runaway guard ends it. */
  function Loop(env: Env, p: seq<Byte>, len: nat, body: nat, wEnd: nat, st: St, rank: nat, n: nat): (x: X)
    requires wEnd <= len <= |p| && Valid(st)
    ensures Valid(x.st) && Frame(st, x.st)
    decreases Fuel(st.depth, |st.nodes|), rank, Left(len, body), 12, n
  {
    if n == 0 then X(true, st)
    else
      var c := Eval(env, p, wEnd, body, st, rank);
      if !c.ok then X(false, c.st)
      else if AsInteger(c.val) == 0 then X(true, c.st)
      else
        var x := Exec(env, p, len, c.pos, wEnd, c.st, rank);
        if !x.ok then x
        else if x.st.returned || x.st.brk then X(true, x.st.(brk := false))
        else Loop(env, p, len, body, wEnd, x.st.(cont := false), rank, n - 1)
  }
}
