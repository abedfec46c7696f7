/** Abstract syntax of the AML terms the interpreter runs, their byte encoding, and a big-step
    semantics over trees: packages are trees rather than arena slots, names are segment lists
    rather than text, fields are flat bit slices rather than units, control flow is an outcome
    rather than flags, and nothing has a cursor. */
module Ast {
  import opened Bits
  import opened PkgLength
  import opened Names
  import opened Regions
  import opened Alu
  import opened Interp

  datatype Dest = Nowhere | LocalD(i: nat) | ArgD(i: nat) | NameD(name: NameRef)

  datatype Expr =
    | Zero | One | AllOnes
    | Lit(width: nat, v: nat)
    | Text(bytes: seq<Byte>)
    | Local(i: nat)
    | Arg(i: nat)
    | BufferE(size: Expr, init: seq<Byte>)
    | PackageE(count: Byte, elems: seq<Expr>)
    | VarPackageE(length: Expr, elems: seq<Expr>)
    | Bin(op: BinOp, a: Expr, b: Expr, dest: Dest)
    | DivideE(a: Expr, b: Expr, rem: Dest, quo: Dest)
    | Un(uop: UnOp, a: Expr, dest: Dest)
    | StepE(up: bool, dest: Dest)
    | LogicE(lop: Logic, a: Expr, b: Expr)
    | LogicNotE(lop: Logic, a: Expr, b: Expr)
    | LNotE(a: Expr)
    | CopyE(code: Byte, a: Expr, dest: Dest)
    | OneE(code: Byte, a: Expr)
    | IndexE(a: Expr, b: Expr, dest: Dest)
    | WaitE(code: Byte, a: Expr)
    | AcquireE(a: Expr, timeout: nat)
    | ExistsE(name: NameRef, dest: Dest)
    | Ref(name: NameRef, args: seq<Expr>)

  datatype Stmt =
    | Do(e: Expr)
    | If(c: Expr, thn: seq<Stmt>)
    | IfElse(c: Expr, thn: seq<Stmt>, els: seq<Stmt>)
    | While(c: Expr, body: seq<Stmt>)
    | Break | Continue | Noop | BreakPoint
    | Notify(a: Expr, b: Expr)
    | Return(e: Expr)

  // ----- encoding -----

  const BODY_CAP: nat := 0x0FFF_FFFC

  function Pack(body: seq<Byte>): (r: seq<Byte>) { if |body| < BODY_CAP then Wrap(body) else [] }

  function EncName(n: NameRef): (r: seq<Byte>)
    ensures |r| > 0
  {
    if IsName(n) then EncodeName(n) else [0]
  }

  function EncDest(d: Dest): (r: seq<Byte>)
    ensures |r| > 0
  {
    match d
    case Nowhere => [0]
    case LocalD(i) => if i < 8 then [0x60 + i] else [0]
    case ArgD(i) => if i < 7 then [0x68 + i] else [0]
    case NameD(n) => EncName(n)
  }

  function LitOp(width: nat): (b: Byte)
  {
    if width == 1 then 0x0A else if width == 2 then 0x0B else if width == 4 then 0x0C else 0x0E
  }

  function Enc(e: Expr): (r: seq<Byte>)
    ensures |r| > 0
    decreases e, 1
  {
    match e
    case Zero => [0]
    case One => [1]
    case AllOnes => [0xFF]
    case Lit(width, v) => [LitOp(width)] + ToLe(v, width)
    case Text(bytes) => [0x0D] + (bytes + [0])
    case Local(i) => if i < 8 then [0x60 + i] else [0]
    case Arg(i) => if i < 7 then [0x68 + i] else [0]
    case BufferE(size, init) => [0x11] + Pack(Enc(size) + init)
    case PackageE(count, elems) => [0x12] + Pack([count] + EncAll(elems))
    case VarPackageE(length, elems) => [0x13] + Pack(Enc(length) + EncAll(elems))
    case Bin(op, a, b, dest) => [Opcode(op)] + (Enc(a) + (Enc(b) + EncDest(dest)))
    case DivideE(a, b, rem, quo) => [0x78] + (Enc(a) + (Enc(b) + (EncDest(rem) + EncDest(quo))))
    case Un(uop, a, dest) => [UnOpcode(uop)] + (Enc(a) + EncDest(dest))
    case StepE(up, dest) => [if up then 0x75 else 0x76] + EncDest(dest)
    case LogicE(lop, a, b) => [LogicOpcode(lop)] + (Enc(a) + Enc(b))
    case LogicNotE(lop, a, b) => [0x92] + ([LogicOpcode(lop)] + (Enc(a) + Enc(b)))
    case LNotE(a) => [0x92] + Enc(a)
    case CopyE(code, a, dest) => [code] + (Enc(a) + EncDest(dest))
    case OneE(code, a) => [code] + Enc(a)
    case IndexE(a, b, dest) => [0x88] + (Enc(a) + (Enc(b) + EncDest(dest)))
    case WaitE(code, a) => [0x5B] + ([code] + Enc(a))
    case AcquireE(a, timeout) => [0x5B] + ([0x23] + (Enc(a) + ToLe(timeout, 2)))
    case ExistsE(name, dest) => [0x5B] + ([0x12] + (EncName(name) + EncDest(dest)))
    case Ref(name, args) => EncName(name) + EncAll(args)
  }

  function EncAll(es: seq<Expr>): (r: seq<Byte>)
    decreases es, 0
  {
    if es == [] then [] else Enc(es[0]) + EncAll(es[1..])
  }

  function EncStmt(s: Stmt): (r: seq<Byte>)
    ensures |r| > 0
    decreases s, 1
  {
    match s
    case Do(e) => Enc(e)
    case If(c, thn) => [0xA0] + Pack(Enc(c) + EncStmts(thn))
    case IfElse(c, thn, els) => ([0xA0] + Pack(Enc(c) + EncStmts(thn))) + ([0xA1] + Pack(EncStmts(els)))
    case While(c, body) => [0xA2] + Pack(Enc(c) + EncStmts(body))
    case Break => [0xA5]
    case Continue => [0x9F]
    case Noop => [0xA3]
    case BreakPoint => [0xCC]
    case Notify(a, b) => [0x86] + (Enc(a) + Enc(b))
    case Return(e) => [0xA4] + Enc(e)
  }

  function EncStmts(ss: seq<Stmt>): (r: seq<Byte>)
    decreases ss, 0
  {
    if ss == [] then [] else EncStmt(ss[0]) + EncStmts(ss[1..])
  }

  // ----- well-formed terms: every index, literal, name and package has an encoding -----

  predicate WfName(n: NameRef) { IsName(n) && n.segs != [] }

  predicate WfDest(d: Dest)
  {
    match d
    case Nowhere => true
    case LocalD(i) => i < 8
    case ArgD(i) => i < 7
    case NameD(n) => WfName(n)
  }

  predicate WidthOk(w: nat) { w == 1 || w == 2 || w == 4 || w == 8 }
  predicate CopyCode(b: Byte) { b == 0x70 || b == 0x96 || b == 0x97 || b == 0x98 || b == 0x9C }
  predicate OneCode(b: Byte) { b == 0x87 || b == 0x99 || b == 0x83 || b == 0x8E }
  predicate WaitCode(b: Byte) { b == 0x21 || b == 0x22 || b == 0x27 }
  predicate Fusable(o: Logic) { o == LEqual || o == LGreater || o == LLess }

  predicate Wf(e: Expr)
    decreases e, 1
  {
    match e
    case Zero => true
    case One => true
    case AllOnes => true
    case Lit(width, v) => WidthOk(width) && v < Pow2(8 * width)
    case Text(bytes) => |bytes| < BUF_CAP && forall i :: 0 <= i < |bytes| ==> bytes[i] != 0
    case Local(i) => i < 8
    case Arg(i) => i < 7
    case BufferE(size, init) => Wf(size) && |Enc(size) + init| < BODY_CAP
    case PackageE(count, elems) => WfAll(elems) && |[count] + EncAll(elems)| < BODY_CAP
    case VarPackageE(length, elems) => Wf(length) && WfAll(elems) && |Enc(length) + EncAll(elems)| < BODY_CAP
    case Bin(op, a, b, dest) => Wf(a) && Wf(b) && WfDest(dest)
    case DivideE(a, b, rem, quo) => Wf(a) && Wf(b) && WfDest(rem) && WfDest(quo)
    case Un(uop, a, dest) => Wf(a) && WfDest(dest)
    case StepE(up, dest) => WfDest(dest) && dest != Nowhere
    case LogicE(lop, a, b) => Wf(a) && Wf(b)
    case LogicNotE(lop, a, b) => Wf(a) && Wf(b) && Fusable(lop)
    case LNotE(a) => Wf(a)
    case CopyE(code, a, dest) => CopyCode(code) && Wf(a) && WfDest(dest)
    case OneE(code, a) => OneCode(code) && Wf(a)
    case IndexE(a, b, dest) => Wf(a) && Wf(b) && WfDest(dest)
    case WaitE(code, a) => WaitCode(code) && Wf(a)
    case AcquireE(a, timeout) => Wf(a) && timeout < 0x1_0000
    case ExistsE(name, dest) => WfName(name) && WfDest(dest)
    case Ref(name, args) => WfName(name) && WfAll(args)
  }

  predicate WfAll(es: seq<Expr>)
    decreases es, 0
  {
    es == [] || (Wf(es[0]) && WfAll(es[1..]))
  }

  predicate WfStmt(s: Stmt)
    decreases s, 1
  {
    match s
    case Do(e) => Wf(e) && Height(e) <= MAX_EXPR_DEPTH
    case If(c, thn) =>
      Wf(c) && Height(c) <= MAX_EXPR_DEPTH && WfStmts(thn) && |Enc(c) + EncStmts(thn)| < BODY_CAP
    case IfElse(c, thn, els) =>
      && Wf(c) && Height(c) <= MAX_EXPR_DEPTH && WfStmts(thn) && WfStmts(els)
      && |Enc(c) + EncStmts(thn)| < BODY_CAP && |EncStmts(els)| < BODY_CAP
    case While(c, body) =>
      Wf(c) && Height(c) <= MAX_EXPR_DEPTH && WfStmts(body) && |Enc(c) + EncStmts(body)| < BODY_CAP
    case Return(e) => Wf(e) && Height(e) <= MAX_EXPR_DEPTH
    case Notify(a, b) => Wf(a) && Height(a) <= MAX_EXPR_DEPTH && Wf(b) && Height(b) <= MAX_EXPR_DEPTH
    case _ => true
  }

  predicate WfStmts(ss: seq<Stmt>)
    decreases ss, 0
  {
    ss == [] || (WfStmt(ss[0]) && WfStmts(ss[1..]))
  }

  function Max(a: nat, b: nat): (m: nat) { if a < b then b else a }

  /** Operand nesting. */
  function Height(e: Expr): (n: nat)
    ensures n > 0
    decreases e, 1
  {
    match e
    case BufferE(size, _) => 1 + Height(size)
    case PackageE(_, elems) => 1 + HeightAll(elems)
    case VarPackageE(length, elems) => 1 + Max(Height(length), HeightAll(elems))
    case Bin(_, a, b, _) => 1 + Max(Height(a), Height(b))
    case DivideE(a, b, _, _) => 1 + Max(Height(a), Height(b))
    case Un(_, a, _) => 1 + Height(a)
    case StepE(_, _) => 2
    case LogicE(_, a, b) => 1 + Max(Height(a), Height(b))
    case LogicNotE(_, a, b) => 1 + Max(Height(a), Height(b))
    case LNotE(a) => 1 + Height(a)
    case CopyE(_, a, _) => 1 + Height(a)
    case OneE(_, a) => 1 + Height(a)
    case WaitE(_, a) => 1 + Height(a)
    case AcquireE(a, _) => 1 + Height(a)
    case IndexE(a, b, _) => 1 + Max(Height(a), Height(b))
    case Ref(_, args) => 1 + HeightAll(args)
    case _ => 1
  }

  function HeightAll(es: seq<Expr>): (n: nat)
    decreases es, 0
  {
    if es == [] then 0 else Max(Height(es[0]), HeightAll(es[1..]))
  }

  // ----- semantics -----

  datatype Tree = TUninit | TInt(n: U64) | TStr(bytes: seq<Byte>) | TBuf(bytes: seq<Byte>) | TPkg(elems: seq<Tree>)

  /** What a path is bound to. A foreign object is any at all, compiled from these trees or not; it can be
      found, and a program that uses its value has no meaning. */
  datatype Obj = MethodObj(argc: nat, body: seq<Stmt>) | NameObj(data: Expr, rank: nat) | OtherObj | ForeignObj

  datatype Program = Program(fields: map<Segs, FieldInfo>, regions: map<Path, RegionInfo>, objs: map<Segs, Obj>,
      top: nat)

  /** What a running method can see. `used` counts the package elements ever created. */
  datatype TSt = TSt(locals: seq<Tree>, args: seq<Tree>, argc: nat, used: nat, world: World, scope: Segs, depth: nat)

  predicate TOk(t: TSt)
  {
    && |t.locals| == 8 && |t.args| == 7 && t.argc <= 7
    && t.used <= ARENA_CAP && WorldOk(t.world) && t.depth <= MAX_CALL_DEPTH
  }

  datatype EV = EV(val: Tree, st: TSt)
  datatype EVs = EVs(vals: seq<Tree>, st: TSt)

  predicate Kept(t: TSt, u: TSt)
  {
    TOk(u) && u.depth == t.depth && u.scope == t.scope && u.argc == t.argc && t.used <= u.used
  }

  function AsInt(v: Tree): (n: U64)
  {
    match v
    case TInt(n) => n
    case TBuf(bytes) => LeFits(bytes[..Min(8, |bytes|)]); Le(bytes[..Min(8, |bytes|)])
    case _ => 0
  }

  function Blank(n: nat): (s: seq<Tree>)
    ensures |s| == n && forall i :: 0 <= i < n ==> s[i] == TUninit
  {
    seq(n, i => TUninit)
  }

  function Padded(init: seq<Byte>, n: nat): (b: seq<Byte>)
    ensures |b| == n
  {
    seq(n, i requires 0 <= i < n => if i < |init| then init[i] else 0)
  }

  /** A field's value: its slice of the flat region. A field that does not lie in reachable units is
      left to the access engine, and an unreadable one is all ones. */
  ghost function GetField(g: Program, f: FieldInfo, w: World): (r: Tree)
    requires WorldOk(w)
  {
    if Usable(g.regions, f, w) then
      SliceFits(Store(w, g.regions[f.region].space), FieldStart(g.regions, f), f.bitWidth);
      TInt(Slice(Store(w, g.regions[f.region].space), FieldStart(g.regions, f), f.bitWidth))
    else
      match FieldRead(g.regions, f, w)
      case None => TInt(ONES)
      case Some(v) => TInt(v)
  }

  lemma SliceFits(s: seq<Byte>, start: nat, width: nat)
    requires width <= 64
    ensures Slice(s, start, width) < TWO64
  {
    LowBound(Shr(Le(s), start), width);
    Pow2Monotone(width, 64);
    Pow2Values();
  }

  /** The flat number of a store with the bits `start .. start + width` replaced by those of `v`. */
  function Splice(s: seq<Byte>, start: nat, width: nat, v: nat): (r: seq<Byte>)
    ensures |r| == |s|
  {
    ToLe(Or(And(Le(s), Inv(Shl(Mask(width), start), 8 * |s|)), Shl(Low(v, width), start)), |s|)
  }

  ghost function SetField(g: Program, f: FieldInfo, v: nat, w: World): (r: World)
    requires WorldOk(w)
    ensures WorldOk(r)
  {
    if Usable(g.regions, f, w) then
      var space := g.regions[f.region].space;
      WithStore(w, space, Splice(Store(w, space), FieldStart(g.regions, f), f.bitWidth, v))
    else FieldWrite(g.regions, f, v, w)
  }

  ghost function StoreTo(g: Program, d: Dest, v: Tree, t: TSt): (r: Option<TSt>)
    requires TOk(t)
    ensures r.Some? ==> Kept(t, r.value) && r.value.used == t.used
  {
    match d
    case Nowhere => Some(t)
    case LocalD(i) => if i < 8 then Some(t.(locals := t.locals[i := v])) else None
    case ArgD(i) => if i < 7 then Some(t.(args := t.args[i := v])) else None
    case NameD(n) =>
      match Lookup(g.fields.Keys, t.scope, n)
      case None => Some(t)
      case Some(s) =>
        if s !in g.fields then Some(t) else Some(t.(world := SetField(g, g.fields[s], AsInt(v), t.world)))
  }

  ghost function PutVal(g: Program, d: Dest, v: Tree, t: TSt): (r: Option<EV>)
    requires TOk(t)
    ensures r.Some? ==> Kept(t, r.value.st)
  {
    match StoreTo(g, d, v, t)
    case None => None
    case Some(u) => Some(EV(v, u))
  }

  function TSize(v: Tree): (n: nat)
  {
    match v
    case TPkg(es) => |es|
    case TBuf(b) => |b|
    case TStr(b) => |b|
    case _ => 8
  }

  function TType(v: Tree): (n: nat)
    ensures n <= 4
  {
    match v
    case TUninit => 0
    case TInt(_) => 1
    case TStr(_) => 2
    case TBuf(_) => 3
    case TPkg(_) => 4
  }

  function OneVal(code: Byte, v: Tree): (r: Tree)
  {
    if code == 0x87 then TInt(TSize(v) % TWO64)
    else if code == 0x99 then TInt(AsInt(v))
    else if code == 0x8E then TInt(TType(v))
    else v
  }

  function Nth(v: Tree, i: nat): (r: Tree)
  {
    if v.TPkg? && i < |v.elems| then v.elems[i]
    else if (v.TStr? || v.TBuf?) && i < |v.bytes| then TInt(v.bytes[i])
    else TUninit
  }

  datatype Pair = Pair(a: Tree, b: Tree, st: TSt)

  /** The value of a term; None when a name is used with the wrong number of arguments, a call is
      too deep, a Name-to-Name reference does not go down, or a foreign object is used. */
  ghost function Sem(g: Program, e: Expr, t: TSt, rank: nat): (r: Option<EV>)
    requires TOk(t)
    ensures r.Some? ==> Kept(t, r.value.st)
    decreases Fuel(t.depth, t.used), rank, e, 5
  {
    match e
    case Zero => Some(EV(TInt(0), t))
    case One => Some(EV(TInt(1), t))
    case AllOnes => Some(EV(TInt(ONES), t))
    case Lit(_, v) => Some(EV(TInt(v % TWO64), t))
    case Text(bytes) => Some(EV(TStr(bytes), t))
    case Local(i) => if i < 8 then Some(EV(t.locals[i], t)) else None
    case Arg(i) => Some(EV(if i < t.argc then t.args[i] else TUninit, t))
    case BufferE(size, init) =>
      (match Sem(g, size, t, rank)
       case None => None
       case Some(n) => Some(EV(TBuf(Padded(init, Min(AsInt(n.val), BUF_CAP))), n.st)))
    case PackageE(count, elems) => PackageSem(g, elems, t, rank, count)
    case VarPackageE(length, elems) =>
      (match Sem(g, length, t, rank)
       case None => None
       case Some(n) => PackageSem(g, elems, n.st, rank, AsInt(n.val)))
    case StepE(up, dest) =>
      (match StepOperand(g, e, t, rank)
       case None => None
       case Some(x) => PutVal(g, dest, TInt((AsInt(x.val) + (if up then 1 else -1)) % TWO64), x.st))
    case ExistsE(name, _) =>
      Some(EV(TInt(Truth(Lookup(g.fields.Keys + g.objs.Keys, t.scope, name).Some?)), t))
    case Ref(name, args) => RefSem(g, e, t, rank)
    case Un(_, _, _) => OneSem(g, e, t, rank)
    case LNotE(_) => OneSem(g, e, t, rank)
    case CopyE(_, _, _) => OneSem(g, e, t, rank)
    case OneE(_, _) => OneSem(g, e, t, rank)
    case WaitE(_, _) => OneSem(g, e, t, rank)
    case AcquireE(_, _) => OneSem(g, e, t, rank)
    case Bin(_, _, _, _) => TwoSem(g, e, t, rank)
    case DivideE(_, _, _, _) => TwoSem(g, e, t, rank)
    case LogicE(_, _, _) => TwoSem(g, e, t, rank)
    case LogicNotE(_, _, _) => TwoSem(g, e, t, rank)
    case IndexE(_, _, _) => TwoSem(g, e, t, rank)
  }

  /** An increment's operand, read as a term. */
  ghost function StepOperand(g: Program, e: Expr, t: TSt, rank: nat): (r: Option<EV>)
    requires TOk(t) && e.StepE?
    ensures r.Some? ==> Kept(t, r.value.st)
    decreases Fuel(t.depth, t.used), rank, e, 4
  {
    match e.dest
    case Nowhere => None
    case LocalD(i) => if i < 8 then Some(EV(t.locals[i], t)) else None
    case ArgD(i) => Some(EV(if i < t.argc then t.args[i] else TUninit, t))
    case NameD(n) => Named(g, n, t, rank, e)
  }

  predicate HasOne(e: Expr) { e.Un? || e.LNotE? || e.CopyE? || e.OneE? || e.WaitE? || e.AcquireE? }

  /** A term with one operand. */
  ghost function OneSem(g: Program, e: Expr, t: TSt, rank: nat): (r: Option<EV>)
    requires TOk(t) && HasOne(e)
    ensures r.Some? ==> Kept(t, r.value.st)
    decreases Fuel(t.depth, t.used), rank, e, 4
  {
    match Sem(g, e.a, t, rank)
    case None => None
    case Some(x) =>
      match e
      case Un(uop, _, dest) => PutVal(g, dest, TInt(ApplyUn(uop, AsInt(x.val))), x.st)
      case LNotE(_) => Some(EV(TInt(Truth(AsInt(x.val) == 0)), x.st))
      case CopyE(_, _, dest) => PutVal(g, dest, x.val, x.st)
      case OneE(code, _) => Some(EV(OneVal(code, x.val), x.st))
      case WaitE(_, _) => Some(EV(TInt(0), x.st))
      case AcquireE(_, _) => Some(EV(TInt(0), x.st))
  }

  predicate HasTwo(e: Expr) { e.Bin? || e.DivideE? || e.LogicE? || e.LogicNotE? || e.IndexE? }

  /** A term with two operands: both are evaluated, then combined. */
  ghost function TwoSem(g: Program, e: Expr, t: TSt, rank: nat): (r: Option<EV>)
    requires TOk(t) && HasTwo(e)
    ensures r.Some? ==> Kept(t, r.value.st)
    decreases Fuel(t.depth, t.used), rank, e, 4, 1
  {
    match SemTwo(g, e, t, rank)
    case None => None
    case Some(q) =>
      match e
      case Bin(op, _, _, dest) => PutVal(g, dest, TInt(Apply(op, AsInt(q.a), AsInt(q.b))), q.st)
      case DivideE(_, _, rem, quo) =>
        (match StoreTo(g, rem, TInt(Apply(ModOp, AsInt(q.a), AsInt(q.b))), q.st)
         case None => None
         case Some(u) => PutVal(g, quo, TInt(Quotient(AsInt(q.a), AsInt(q.b))), u))
      case LogicE(lop, _, _) => Some(EV(TInt(Truth(Holds(lop, AsInt(q.a), AsInt(q.b)))), q.st))
      case LogicNotE(lop, _, _) => Some(EV(TInt(Truth(!Holds(lop, AsInt(q.a), AsInt(q.b)))), q.st))
      case IndexE(_, _, dest) => PutVal(g, dest, Nth(q.a, AsInt(q.b)), q.st)
  }

  /** Both operands of a two-operand term, left first. */
  ghost function SemTwo(g: Program, e: Expr, t: TSt, rank: nat): (r: Option<Pair>)
    requires TOk(t) && HasTwo(e)
    ensures r.Some? ==> Kept(t, r.value.st)
    decreases Fuel(t.depth, t.used), rank, e, 4, 0
  {
    match Sem(g, e.a, t, rank)
    case None => None
    case Some(x) =>
      match Sem(g, e.b, x.st, rank)
      case None => None
      case Some(y) => Some(Pair(x.val, y.val, y.st))
  }

  /** A package of `n` elements, or as many as are left; missing initialisers are Uninit. */
  ghost function PackageSem(g: Program, elems: seq<Expr>, t: TSt, rank: nat, n: nat): (r: Option<EV>)
    requires TOk(t)
    ensures r.Some? ==> Kept(t, r.value.st)
    decreases Fuel(t.depth, t.used), rank, elems, 3
  {
    var count := Min(n, ARENA_CAP - t.used);
    if count == 0 then Some(EV(TPkg([]), t))
    else match SemAll(g, elems, t.(used := t.used + count), g.top, count)
      case None => None
      case Some(vs) => Some(EV(TPkg(vs.vals + Blank(count - |vs.vals|)), vs.st))
  }

  /** The first `k` of a list of terms, in order. */
  ghost function SemAll(g: Program, es: seq<Expr>, t: TSt, rank: nat, k: nat): (r: Option<EVs>)
    requires TOk(t)
    ensures r.Some? ==> Kept(t, r.value.st) && |r.value.vals| == Min(k, |es|)
    decreases Fuel(t.depth, t.used), rank, es, 2
  {
    if k == 0 || es == [] then Some(EVs([], t))
    else
      match Sem(g, es[0], t, rank)
      case None => None
      case Some(x) =>
        match SemAll(g, es[1..], x.st, rank, k - 1)
        case None => None
        case Some(vs) => Some(EVs([x.val] + vs.vals, vs.st))
  }

  /** A name operand: by what it is bound to, or a call with argument terms. */
  ghost function RefSem(g: Program, e: Expr, t: TSt, rank: nat): (r: Option<EV>)
    requires TOk(t) && e.Ref?
    ensures r.Some? ==> Kept(t, r.value.st)
    decreases Fuel(t.depth, t.used), rank, e, 4
  {
    if e.args == [] then Named(g, e.name, t, rank, e)
    else
      match Lookup(g.fields.Keys + g.objs.Keys, t.scope, e.name)
      case None => None
      case Some(s) =>
        if s in g.fields || s !in g.objs || !g.objs[s].MethodObj? then None
        else CallSem(g, s, g.objs[s].argc, g.objs[s].body, e.args, t, rank)
  }

  /** A name without argument terms, inside the term `host`. */
  ghost function Named(g: Program, name: NameRef, t: TSt, rank: nat, host: Expr): (r: Option<EV>)
    requires TOk(t)
    ensures r.Some? ==> Kept(t, r.value.st)
    decreases Fuel(t.depth, t.used), rank, host, 3
  {
    match Lookup(g.fields.Keys + g.objs.Keys, t.scope, name)
    case None => Some(EV(TUninit, t))
    case Some(s) =>
      if s in g.fields then Some(EV(GetField(g, g.fields[s], t.world), t))
      else if s !in g.objs then None
      else match g.objs[s]
        case OtherObj => Some(EV(TUninit, t))
        case ForeignObj => None
        case NameObj(data, r) =>
          if r >= rank then None
          else
            (match Sem(g, data, t.(locals := Blank(8), scope := s), r)
             case None => None
             case Some(x) => Some(EV(x.val, t.(args := x.st.args, used := x.st.used, world := x.st.world))))
        case MethodObj(argc, body) =>
          if argc != 0 || t.depth >= MAX_CALL_DEPTH then None
          else AfterCall(t, Run(g, body, CallTSt(t, s, [], 0), g.top))
  }

  /** The caller goes on with what the body returned. */
  function AfterCall(t: TSt, o: Option<Out>): (r: Option<EV>)
    requires TOk(t) && (o.Some? ==> TOk(o.value.st) && t.used <= o.value.st.used)
    ensures r.Some? ==> Kept(t, r.value.st)
  {
    match o
    case None => None
    case Some(x) => Some(EV(if x.flow.Returned? then x.flow.v else TUninit, t.(used := x.st.used, world := x.st.world)))
  }

  /** A call: arguments, then the body in a fresh state one level deeper. */
  ghost function CallSem(g: Program, s: Segs, argc: nat, body: seq<Stmt>, args: seq<Expr>, t: TSt,
                         rank: nat): (r: Option<EV>)
    requires TOk(t)
    ensures r.Some? ==> Kept(t, r.value.st)
    decreases Fuel(t.depth, t.used), rank, args, 3
  {
    if |args| != argc || argc > 7 || t.depth >= MAX_CALL_DEPTH then None
    else match SemAll(g, args, t, rank, argc)
      case None => None
      case Some(vs) => AfterCall(vs.st, Run(g, body, CallTSt(vs.st, s, vs.vals, argc), g.top))
  }

  function CallTSt(t: TSt, s: Segs, args: seq<Tree>, argc: nat): (r: TSt)
    requires TOk(t) && t.depth < MAX_CALL_DEPTH && |args| == argc <= 7
    ensures TOk(r) && r.depth == t.depth + 1 && r.used == t.used
  {
    TSt(Blank(8), args + Blank(7 - argc), argc, t.used, t.world, s, t.depth + 1)
  }

  datatype Flow = Next | Broke | Continued | Returned(v: Tree)
  datatype Out = Out(flow: Flow, st: TSt)

  /** A statement list: it stops at the first statement that does not fall through. */
  ghost function Run(g: Program, ss: seq<Stmt>, t: TSt, rank: nat): (r: Option<Out>)
    requires TOk(t)
    ensures r.Some? ==> Kept(t, r.value.st)
    decreases Fuel(t.depth, t.used), rank, ss, 6
  {
    if ss == [] then Some(Out(Next, t))
    else match RunOne(g, ss[0], t, rank)
      case None => None
      case Some(o) => if o.flow.Next? then Run(g, ss[1..], o.st, rank) else Some(o)
  }

  ghost function RunOne(g: Program, s: Stmt, t: TSt, rank: nat): (r: Option<Out>)
    requires TOk(t)
    ensures r.Some? ==> Kept(t, r.value.st)
    decreases Fuel(t.depth, t.used), rank, s, 8
  {
    match s
    case Do(e) =>
      (match Sem(g, e, t, rank)
       case None => None
       case Some(x) => Some(Out(Next, x.st)))
    case If(c, thn) =>
      (match Sem(g, c, t, rank)
       case None => None
       case Some(x) => if AsInt(x.val) != 0 then Run(g, thn, x.st, rank) else Some(Out(Next, x.st)))
    case IfElse(c, thn, els) =>
      (match Sem(g, c, t, rank)
       case None => None
       case Some(x) => Run(g, if AsInt(x.val) != 0 then thn else els, x.st, rank))
    case While(_, _) => RunWhile(g, s, t, rank, LOOP_CAP)
    case Break => Some(Out(Broke, t))
    case Continue => Some(Out(Continued, t))
    case Noop => Some(Out(Next, t))
    case BreakPoint => Some(Out(Next, t))
    case Notify(a, b) =>
      (match Sem(g, a, t, rank)
       case None => None
       case Some(x) =>
         match Sem(g, b, x.st, rank)
         case None => None
         case Some(y) => Some(Out(Next, y.st)))
    case Return(e) =>
      (match Sem(g, e, t, rank)
       case None => None
       case Some(x) => Some(Out(Returned(x.val), x.st)))
  }

  /** A loop with `n` predicate evaluations left. Break and Continue go no further than this loop. */
  ghost function RunWhile(g: Program, s: Stmt, t: TSt, rank: nat, n: nat): (r: Option<Out>)
    requires TOk(t) && s.While?
    ensures r.Some? ==> Kept(t, r.value.st) && (r.value.flow.Next? || r.value.flow.Returned?)
    decreases Fuel(t.depth, t.used), rank, s, 7, n
  {
    if n == 0 then Some(Out(Next, t))
    else match Sem(g, s.c, t, rank)
      case None => None
      case Some(x) =>
        if AsInt(x.val) == 0 then Some(Out(Next, x.st))
        else match Run(g, s.body, x.st, rank)
          case None => None
          case Some(o) =>
            match o.flow
            case Returned(_) => Some(o)
            case Broke => Some(Out(Next, o.st))
            case _ => RunWhile(g, s, o.st, rank, n - 1)
  }
}
