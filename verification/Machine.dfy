/** The interpreter as it runs: a moving cursor, in-place locals, flags and counters, one shared
    arena, one shared argument array per call. Each method is proved against the function of the
    same job in `Interp`, so everything proved about those functions holds of this code. */
module Machine {
  import opened Bits
  import opened PkgLength
  import opened Names
  import opened Regions
  import opened Alu
  import opened Tables
  import opened Interp

  /** The per-evaluation slots for package elements. `stuck` is not part of the driver: it marks
      the one place where its recursion is unbounded. */
  class Arena {
    const nodes: array<Value>
    var used: nat
    var stuck: bool

    ghost predicate Ok()
      reads this, nodes
    {
      nodes.Length == ARENA_CAP && used <= ARENA_CAP && forall i :: used <= i < ARENA_CAP ==> nodes[i] == Uninit
    }

    constructor ()
      ensures Ok() && used == 0 && !stuck && fresh(nodes)
    {
      nodes := new Value[ARENA_CAP](i => Uninit);
      used, stuck := 0, false;
    }

    method Alloc() returns (i: int)
      requires Ok()
      modifies this`used
      ensures Ok()
      ensures if old(used) < ARENA_CAP then i == old(used) && used == old(used) + 1 else i == -1 && used == old(used)
    {
      if used < ARENA_CAP {
        i := used;
        used := used + 1;
      } else {
        i := -1;
      }
    }
  }

  /** One running method or Name value. */
  class EvalState {
    const arena: Arena
    const bus: Bus
    const args: array<Value>
    const argc: nat
    const scope: Path
    const depth: nat
    const locals: array<Value>
    var ret: Value
    var returned: bool
    var brk: bool
    var cont: bool
    var exprDepth: nat

    ghost function Repr(): (r: set<object>) { {this, locals, arena, arena.nodes, args, bus} }

    /** The state these objects stand for. */
    ghost function View(): (st: St)
      reads this, locals, arena, arena.nodes, args, bus
      requires arena.used <= arena.nodes.Length
    {
      St(arena.nodes[..arena.used], bus.world, args[..], argc, locals[..],
         ret, returned, brk, cont, exprDepth, depth, scope, arena.stuck)
    }

    ghost predicate Ok()
      reads this, locals, arena, arena.nodes, args, bus
    {
      arena.Ok() && arena.nodes != args && arena.nodes != locals && args != locals && Valid(View())
    }

    /** A fresh state over a given arena, world and argument array. */
    constructor (arena: Arena, bus: Bus, args: array<Value>, argc: nat, scope: Path, depth: nat)
      requires arena.Ok() && arena.nodes != args && WorldOk(bus.world)
      requires AllInside(arena.nodes[..arena.used], arena.used)
      requires args.Length == 7 && AllInside(args[..], arena.used) && argc <= 7 && |scope| < PATH_CAP
      requires depth <= MAX_CALL_DEPTH
      ensures this.arena == arena && this.bus == bus && this.args == args && this.argc == argc && this.scope == scope
      ensures this.depth == depth
      ensures fresh(locals) && Ok()
      ensures View() == St(arena.nodes[..arena.used], bus.world, args[..], argc, seq(8, i => Uninit),
                           Uninit, false, false, false, 0, depth, scope, arena.stuck)
    {
      this.arena, this.bus, this.args, this.argc, this.scope, this.depth := arena, bus, args, argc, scope, depth;
      locals := new Value[8](i => Uninit);
      ret, returned, brk, cont, exprDepth := Uninit, false, false, false, 0;
      new;
      assert locals[..] == seq(8, i => Uninit);
    }

    // ----- targets -----

    method ReadTarget(env: Env, p: seq<Byte>, len: nat, pos: nat) returns (ok: bool, next: nat, t: Target)
      requires Ok() && len <= |p|
      ensures ok == TargetOf(env, p, len, pos, scope).Some?
      ensures ok ==> TargetOf(env, p, len, pos, scope) == Some(TargetAt(t, next))
      ensures !ok ==> next == pos
    {
      ok, next, t := false, pos, Discard;
      if pos >= len { return; }
      var op := p[pos];
      if op == 0x00 { return true, pos + 1, Discard; }
      if 0x60 <= op <= 0x67 { return true, pos + 1, ToLocal(op - 0x60); }
      if 0x68 <= op <= 0x6E { return true, pos + 1, ToArg(op - 0x68); }
      var isName, nr, after := ReadNameRef(p, pos, len);
      if !isName { return; }
      var found, abs := SearchScopes(env.fields.Keys, scope, nr);
      if found { t := ToField(env.fields[abs]); }
      return true, after, t;
    }

    method StoreToTarget(env: Env, t: Target, v: Value)
      requires Ok() && Inside(v, arena.used) && TargetOk(t)
      modifies Repr()
      ensures Ok() && View() == Assign(env, t, v, old(View()))
    {
      match t
      case Discard =>
      case ToLocal(i) => locals[i] := v;
      case ToArg(i) => args[i] := v;
      case ToField(f) => bus.WriteField(env.regions, f, AsInteger(v));
    }

    method StoreResult(env: Env, p: seq<Byte>, len: nat, pos: nat, v: Value) returns (ok: bool, next: nat, out: Value)
      requires Ok() && len <= |p| && Inside(v, arena.used)
      modifies Repr()
      ensures Ok() && Matches(ok, next, out, View(), Finish(env, p, len, pos, v, old(View())))
    {
      hide Valid, Assign, TargetOf;
      var t;
      ok, next, t := ReadTarget(env, p, len, pos);
      out := v;
      if ok { StoreToTarget(env, t, v); }
    }
  
    // ----- expressions -----

    /** EvalTermArg: bump the nesting counter, decode one term, restore the counter. */
    method EvalTermArg(env: Env, p: seq<Byte>, len: nat, pos: nat, rank: nat) returns (ok: bool, next: nat, out: Value)
      requires Ok() && len <= |p|
      modifies Repr()
      ensures Ok() && Matches(ok, next, out, View(), Eval(env, p, len, pos, old(View()), rank))
      decreases Fuel(depth, arena.used), rank, Left(len, pos), 9, 0
    {
      hide EvalOp;
      ok, next, out := false, pos, Uninit;
      if exprDepth + 1 > MAX_EXPR_DEPTH { return; }
      if pos >= len { return; }
      exprDepth := exprDepth + 1;
      ok, next, out := EvalOpcode(env, p, len, pos, rank);
      exprDepth := exprDepth - 1;
    }

    method EvalOpcode(env: Env, p: seq<Byte>, len: nat, at: nat, rank: nat) returns (ok: bool, next: nat, out: Value)
      requires Ok() && at < len <= |p|
      modifies Repr()
      ensures Ok() && Matches(ok, next, out, View(), EvalOp(env, p, len, at, old(View()), rank))
      decreases Fuel(depth, arena.used), rank, Left(len, at), 8, 0
    {
      hide EvalLeaf, EvalBuffer, EvalPackage, EvalBin, EvalDivide, EvalUn, EvalStep, EvalLogic, EvalLNot, EvalCopy,
        EvalOne, EvalIndex, EvalExt, EvalName, NameAt, Valid;
      var op := p[at];
      if IsLeaf(op) { ok, next, out := EvalOperand(p, len, at); }
      else if op == 0x11 { ok, next, out := EvalBufferOp(env, p, len, at, rank); }
      else if op == 0x12 || op == 0x13 { ok, next, out := EvalPackageOp(env, p, len, at, rank); }
      else if BinOpOf(op).Some? { ok, next, out := EvalBinOp(env, p, len, at, rank, BinOpOf(op).value); }
      else if op == 0x78 { ok, next, out := EvalDivideOp(env, p, len, at, rank); }
      else if op == 0x80 { ok, next, out := EvalUnOp(env, p, len, at, rank, NotOp); }
      else if op == 0x81 { ok, next, out := EvalUnOp(env, p, len, at, rank, FindSetLeft); }
      else if op == 0x82 { ok, next, out := EvalUnOp(env, p, len, at, rank, FindSetRight); }
      else { ok, next, out := EvalOther(env, p, len, at, rank); }
    }

    /** The second half of the opcode switch. */
    method EvalOther(env: Env, p: seq<Byte>, len: nat, at: nat, rank: nat) returns (ok: bool, next: nat, out: Value)
      requires Ok() && at < len <= |p| && !IsLeaf(p[at]) && p[at] !in {0x11, 0x12, 0x13, 0x78, 0x80, 0x81, 0x82}
      requires BinOpOf(p[at]).None?
      modifies Repr()
      ensures Ok() && Matches(ok, next, out, View(), EvalOp(env, p, len, at, old(View()), rank))
      decreases Fuel(depth, arena.used), rank, Left(len, at), 7, 1
    {
      hide EvalLeaf, EvalBuffer, EvalPackage, EvalBin, EvalDivide, EvalUn, EvalStep, EvalLogic, EvalLNot, EvalCopy,
        EvalOne, EvalIndex, EvalExt, EvalName, NameAt, Valid;
      var op := p[at];
      if op == 0x75 || op == 0x76 { ok, next, out := EvalStepOp(env, p, len, at, rank, op == 0x75); }
      else if LogicOf(op).Some? {
        ok, next, out := EvalLogicOp(env, p, len, at, rank, at + 1, LogicOf(op).value, true);
      }
      else if op == 0x92 { ok, next, out := EvalLNotOp(env, p, len, at, rank); }
      else if op == 0x70 || op == 0x96 || op == 0x97 || op == 0x98 || op == 0x9C {
        ok, next, out := EvalCopyOp(env, p, len, at, rank);
      }
      else if op == 0x87 || op == 0x99 || op == 0x83 || op == 0x8E {
        ok, next, out := EvalOneOp(env, p, len, at, rank, op);
      }
      else if op == 0x88 { ok, next, out := EvalIndexOp(env, p, len, at, rank); }
      else if op == 0x5B { ok, next, out := EvalExtOp(env, p, len, at, rank); }
      else if NameStart(op) {
        var isName, nr, after := ReadNameRef(p, at, len);
        if !isName { return false, at, Uninit; }
        ok, next, out := ResolveNameValue(env, p, len, at, rank, after, nr);
      }
      else { return false, at + 1, Uninit; }
    }

    /** Constants, strings, Args and Locals. */
    method EvalOperand(p: seq<Byte>, len: nat, at: nat) returns (ok: bool, next: nat, out: Value)
      requires Ok() && at < len <= |p| && IsLeaf(p[at])
      ensures Matches(ok, next, out, View(), EvalLeaf(p, len, at, View()))
    {
      hide StrRun, Le;
      var op, pos := p[at], at + 1;
      if op == 0x00 { return true, pos, Int(0); }
      if op == 0x01 { return true, pos, Int(1); }
      if op == 0xFF { return true, pos, Int(ONES); }
      if op == 0x0D {
        var n := ScanString(p, len, pos);
        if pos + n >= len { return false, pos + n, Uninit; }
        return true, pos + n + 1, Str(p[pos..pos + n]);
      }
      if op <= 0x0E {
        var w := ConstWidth(op);
        if pos + w > len { return false, pos, Uninit; }
        var v := ReadLittleEndian(p, pos, w);
        return true, pos + w, Int(v);
      }
      if op >= 0x68 {
        var i := op - 0x68;
        return true, pos, if i < argc then args[i] else Uninit;
      }
      return true, pos, locals[op - 0x60];
    }

    method EvalBufferOp(env: Env, p: seq<Byte>, len: nat, at: nat, rank: nat) returns (ok: bool, next: nat, out: Value)
      requires Ok() && at < len <= |p|
      modifies Repr()
      ensures Ok() && Matches(ok, next, out, View(), EvalBuffer(env, p, len, at, old(View()), rank))
      decreases Fuel(depth, arena.used), rank, Left(len, at), 7, 0
    {
      hide Eval, Valid, PkgAt, AsInteger, BufferBytes;
      var pos := at + 1;
      var sized, plen, pc := ReadPkgLength(p, pos, len);
      if !sized || plen > len - pos { return false, pos, Uninit; }
      var end := pos + plen;
      ok, next, out := EvalTermArg(env, p, len, pos + pc, rank);
      if !ok { return; }
      var n := Min(AsInteger(out), BUF_CAP);
      var bytes := CopyBytes(p, next, end, n);
      return true, end, Buf(bytes);
    }

    method EvalPackageOp(env: Env, p: seq<Byte>, len: nat, at: nat, rank: nat) returns (ok: bool, next: nat, out: Value)
      requires Ok() && at < len <= |p|
      modifies Repr()
      ensures Ok() && Matches(ok, next, out, View(), EvalPackage(env, p, len, at, old(View()), rank))
      decreases Fuel(depth, arena.used), rank, Left(len, at), 7, 0
    {
      hide Eval, Valid, PkgAt, AsInteger, Build;
      var pos := at + 1;
      var sized, plen, pc := ReadPkgLength(p, pos, len);
      if !sized || plen > len - pos { return false, pos, Uninit; }
      var end := pos + plen;
      if p[at] == 0x12 {
        if pos + pc >= len { return false, pos + pc, Uninit; }
        ok, next, out := true, pos + pc + 1, Int(p[pos + pc]);
      } else {
        ok, next, out := EvalTermArg(env, p, len, pos + pc, rank);
        if !ok { return; }
      }
      var first, count := BuildPackage(env, p, end, next, rank, AsInteger(out));
      return true, end, Pkg(first, count);
    }

    /** Reserve every element slot first, then evaluate the elements into them. */
    method BuildPackage(env: Env, p: seq<Byte>, end: nat, pos: nat, rank: nat, n: nat) returns (first: nat, count: nat)
      requires Ok() && end <= |p|
      modifies Repr()
      ensures Ok() && var b := Build(env, p, end, pos, old(View()), rank, n);
                      first == b.first && count == b.count && View() == b.st
      decreases Fuel(depth, arena.used), rank, Left(end, pos), 11, 0
    {
      hide FillSlots, Reserve, Valid;
      first := arena.used;
      count := ReserveSlots(n);
      if count > 0 { FillPackage(env, p, end, pos, first, count); }
    }

    /** The fill loop. */
    method FillPackage(env: Env, p: seq<Byte>, end: nat, pos: nat, first: nat, count: nat)
      requires Ok() && end <= |p| && first + count <= arena.used
      modifies Repr()
      ensures Ok() && View() == FillSlots(env, p, end, pos, old(View()), env.top, first, 0, count)
      decreases Fuel(depth, arena.used), env.top, Left(end, pos), 10, 1
    {
      hide Eval, Valid, FillSlots, FillOne;
      ghost var st1, rank := View(), env.top;
      var e, cur := 0, pos;
      while e < count && cur < end
        invariant e <= count && first + count <= arena.used && old(arena.used) <= arena.used && pos <= cur && Ok()
        invariant FillSlots(env, p, end, pos, st1, rank, first, 0, count) ==
                  FillSlots(env, p, end, cur, View(), rank, first, e, count)
      {
        FillOnce(env, p, end, cur, View(), rank, first, e, count);
        cur := FillSlot(env, p, end, cur, first + e);
        e := e + 1;
      }
      FillEnd(env, p, end, cur, View(), rank, first, e, count);
    }

    /** One element into its slot; a term that fails leaves Uninit. */
    method FillSlot(env: Env, p: seq<Byte>, end: nat, pos: nat, k: nat) returns (next: nat)
      requires Ok() && end <= |p| && k < arena.used
      modifies Repr()
      ensures Ok() && old(arena.used) <= arena.used
      ensures var r := FillOne(env, p, end, pos, old(View()), env.top, k); View() == r.st && next == r.pos
      decreases Fuel(depth, arena.used), env.top, Left(end, pos), 10, 0
    {
      hide Eval, Valid;
      var ok, out;
      ok, next, out := EvalTermArg(env, p, end, pos, env.top);
      if !ok { out := Uninit; }
      PutNode(k, out);
    }

    method ReserveSlots(n: nat) returns (count: nat)
      requires Ok()
      modifies arena
      ensures Ok() && View() == Reserve(old(View()), n) && count == Min(n, ARENA_CAP - old(arena.used))
      ensures arena.used == old(arena.used) + count
    {
      count := 0;
      ghost var was := View();
      while count < n
        invariant count <= n && arena.Ok() && arena.used == old(arena.used) + count
        invariant arena.stuck == old(arena.stuck)
        invariant arena.nodes[..] == old(arena.nodes[..])
      {
        var slot := arena.Alloc();
        if slot < 0 { break; }
        count := count + 1;
      }
      assert arena.nodes[..arena.used] == was.nodes + seq(count, i => Uninit);
    }

    method PutNode(k: nat, v: Value)
      requires Ok() && k < arena.used && Inside(v, arena.used)
      modifies arena.nodes
      ensures Ok() && View() == SetNode(old(View()), k, v)
    {
      arena.nodes[k] := v;
      assert arena.nodes[..arena.used] == old(arena.nodes[..arena.used])[k := v];
    }

    /** Two integer operands in order. */
    method EvalTwoArgs(env: Env, p: seq<Byte>, len: nat, pos: nat, rank: nat)
      returns (ok: bool, next: nat, a: U64, b: U64)
      requires Ok() && len <= |p|
      modifies Repr()
      ensures Ok() && var t := EvalTwo(env, p, len, pos, old(View()), rank);
                      ok == t.ok && next == t.pos && View() == t.st && (ok ==> a == t.a && b == t.b)
      decreases Fuel(depth, arena.used), rank, Left(len, pos), 10, 0
    {
      hide Eval, Valid, AsInteger;
      var v;
      a, b := 0, 0;
      ok, next, v := EvalTermArg(env, p, len, pos, rank);
      if !ok { return; }
      a := AsInteger(v);
      ok, next, v := EvalTermArg(env, p, len, next, rank);
      b := AsInteger(v);
    }

    method EvalBinOp(env: Env, p: seq<Byte>, len: nat, at: nat, rank: nat, o: BinOp)
      returns (ok: bool, next: nat, out: Value)
      requires Ok() && at < len <= |p|
      modifies Repr()
      ensures Ok() && Matches(ok, next, out, View(), EvalBin(env, p, len, at, old(View()), rank, o))
      decreases Fuel(depth, arena.used), rank, Left(len, at), 7, 0
    {
      hide EvalTwo, Finish, Valid, Apply;
      var a, b;
      out := Uninit;
      ok, next, a, b := EvalTwoArgs(env, p, len, at + 1, rank);
      if !ok { return; }
      ok, next, out := StoreResult(env, p, len, next, Int(Apply(o, a, b)));
    }

    method EvalDivideOp(env: Env, p: seq<Byte>, len: nat, at: nat, rank: nat) returns (ok: bool, next: nat, out: Value)
      requires Ok() && at < len <= |p|
      modifies Repr()
      ensures Ok() && Matches(ok, next, out, View(), EvalDivide(env, p, len, at, old(View()), rank))
      decreases Fuel(depth, arena.used), rank, Left(len, at), 7, 0
    {
      hide EvalTwo, TargetOf, Assign, Valid, Apply, Quotient;
      var a, b, rem, quo;
      out := Uninit;
      ok, next, a, b := EvalTwoArgs(env, p, len, at + 1, rank);
      if !ok { return; }
      ok, next, rem := ReadTarget(env, p, len, next);
      if !ok { return; }
      ok, next, quo := ReadTarget(env, p, len, next);
      if !ok { return; }
      StoreToTarget(env, rem, Int(Apply(ModOp, a, b)));
      StoreToTarget(env, quo, Int(Quotient(a, b)));
      out := Int(Quotient(a, b));
    }

    method EvalUnOp(env: Env, p: seq<Byte>, len: nat, at: nat, rank: nat, o: UnOp)
      returns (ok: bool, next: nat, out: Value)
      requires Ok() && at < len <= |p|
      modifies Repr()
      ensures Ok() && Matches(ok, next, out, View(), EvalUn(env, p, len, at, old(View()), rank, o))
      decreases Fuel(depth, arena.used), rank, Left(len, at), 7, 0
    {
      hide Eval, Finish, Valid, AsInteger, ApplyUn;
      ok, next, out := EvalTermArg(env, p, len, at + 1, rank);
      if !ok { return; }
      var n;
      if o == FindSetLeft { n := FindLeftLoop(AsInteger(out)); }
      else if o == FindSetRight { n := FindRightLoop(AsInteger(out)); }
      else { n := ApplyUn(NotOp, AsInteger(out)); }
      ok, next, out := StoreResult(env, p, len, next, Int(n));
    }

    method EvalStepOp(env: Env, p: seq<Byte>, len: nat, at: nat, rank: nat, up: bool)
      returns (ok: bool, next: nat, out: Value)
      requires Ok() && at < len <= |p|
      modifies Repr()
      ensures Ok() && Matches(ok, next, out, View(), EvalStep(env, p, len, at, old(View()), rank, up))
      decreases Fuel(depth, arena.used), rank, Left(len, at), 7, 0
    {
      hide Eval, Finish, Valid, AsInteger;
      ok, next, out := EvalTermArg(env, p, len, at + 1, rank);
      if !ok { return; }
      ok, next, out := StoreResult(env, p, len, at + 1, Int((AsInteger(out) + (if up then 1 else -1)) % TWO64));
    }

    method EvalLogicOp(env: Env, p: seq<Byte>, len: nat, at: nat, rank: nat, pos: nat, o: Logic,
                       sense: bool) returns (ok: bool, next: nat, out: Value)
      requires Ok() && at < pos <= len <= |p|
      modifies Repr()
      ensures Ok() && Matches(ok, next, out, View(), EvalLogic(env, p, len, at, pos, old(View()), rank, o, sense))
      decreases Fuel(depth, arena.used), rank, Left(len, at), 6, 0
    {
      hide EvalTwo, Valid, Holds, Truth;
      var a, b;
      out := Uninit;
      ok, next, a, b := EvalTwoArgs(env, p, len, pos, rank);
      if !ok { return; }
      out := Int(Truth(Holds(o, a, b) == sense));
    }

    method EvalLNotOp(env: Env, p: seq<Byte>, len: nat, at: nat, rank: nat) returns (ok: bool, next: nat, out: Value)
      requires Ok() && at < len <= |p|
      modifies Repr()
      ensures Ok() && Matches(ok, next, out, View(), EvalLNot(env, p, len, at, old(View()), rank))
      decreases Fuel(depth, arena.used), rank, Left(len, at), 7, 0
    {
      hide Eval, EvalLogic, Valid, AsInteger, Truth;
      var pos := at + 1;
      if pos < len && 0x93 <= p[pos] <= 0x95 {
        ok, next, out := EvalLogicOp(env, p, len, at, rank, pos + 1, LogicOf(p[pos]).value, false);
        return;
      }
      ok, next, out := EvalTermArg(env, p, len, pos, rank);
      if !ok { return; }
      out := Int(Truth(AsInteger(out) == 0));
    }

    method EvalCopyOp(env: Env, p: seq<Byte>, len: nat, at: nat, rank: nat) returns (ok: bool, next: nat, out: Value)
      requires Ok() && at < len <= |p|
      modifies Repr()
      ensures Ok() && Matches(ok, next, out, View(), EvalCopy(env, p, len, at, old(View()), rank))
      decreases Fuel(depth, arena.used), rank, Left(len, at), 7, 0
    {
      hide Eval, Finish, Valid;
      ok, next, out := EvalTermArg(env, p, len, at + 1, rank);
      if !ok { return; }
      ok, next, out := StoreResult(env, p, len, next, out);
    }

    method EvalOneOp(env: Env, p: seq<Byte>, len: nat, at: nat, rank: nat, op: Byte)
      returns (ok: bool, next: nat, out: Value)
      requires Ok() && at < len <= |p|
      modifies Repr()
      ensures Ok() && Matches(ok, next, out, View(), EvalOne(env, p, len, at, old(View()), rank, op))
      decreases Fuel(depth, arena.used), rank, Left(len, at), 7, 0
    {
      hide Eval, OneOperand;
      ok, next, out := EvalTermArg(env, p, len, at + 1, rank);
      if !ok { return; }
      out := OneOperand(op, out);
    }

    method EvalIndexOp(env: Env, p: seq<Byte>, len: nat, at: nat, rank: nat) returns (ok: bool, next: nat, out: Value)
      requires Ok() && at < len <= |p|
      modifies Repr()
      ensures Ok() && Matches(ok, next, out, View(), EvalIndex(env, p, len, at, old(View()), rank))
      decreases Fuel(depth, arena.used), rank, Left(len, at), 7, 0
    {
      hide Eval, Finish, Valid, AsInteger, Element;
      var src, i;
      ok, next, src := EvalTermArg(env, p, len, at + 1, rank);
      if !ok { return ok, next, Uninit; }
      ok, next, i := EvalTermArg(env, p, len, next, rank);
      if !ok { return ok, next, Uninit; }
      ok, next, out := FetchAndStore(env, p, len, next, src, AsInteger(i));
    }

    /** Element `i` of a value, read through the arena, then stored to the target. */
    method FetchAndStore(env: Env, p: seq<Byte>, len: nat, pos: nat, v: Value, i: nat)
      returns (ok: bool, next: nat, out: Value)
      requires Ok() && len <= |p| && Inside(v, arena.used)
      modifies Repr()
      ensures Ok() && Matches(ok, next, out, View(), Finish(env, p, len, pos, Element(old(View()), v, i), old(View())))
    {
      hide Finish;
      if v.Pkg? && i < v.count { out := arena.nodes[v.first + i]; }
      else if (v.Str? || v.Buf?) && i < |v.bytes| { out := Int(v.bytes[i]); }
      else { out := Uninit; }
      ok, next, out := StoreResult(env, p, len, pos, out);
    }

    method EvalExtOp(env: Env, p: seq<Byte>, len: nat, at: nat, rank: nat) returns (ok: bool, next: nat, out: Value)
      requires Ok() && at < len <= |p|
      modifies Repr()
      ensures Ok() && Matches(ok, next, out, View(), EvalExt(env, p, len, at, old(View()), rank))
      decreases Fuel(depth, arena.used), rank, Left(len, at), 7, 0
    {
      hide Eval, Valid, TargetOf, NameAt, Search;
      if at + 1 >= len { return false, at + 1, Uninit; }
      var ext, pos := p[at + 1], at + 2;
      if ext == 0x12 {
        ok, next, out := CondRefOf(env, p, len, at, rank);
        return;
      }
      if ext == 0x23 {
        ok, next, out := EvalTermArg(env, p, len, pos, rank);
        if next + 2 <= len { next := next + 2; }
        return true, next, Int(0);
      }
      if ext == 0x27 || ext == 0x21 || ext == 0x22 {
        ok, next, out := EvalTermArg(env, p, len, pos, rank);
        return true, next, Int(0);
      }
      return false, pos, Uninit;
    }

    /** Does the name resolve to anything? The target is decoded but not written. */
    method CondRefOf(env: Env, p: seq<Byte>, len: nat, at: nat, rank: nat) returns (ok: bool, next: nat, out: Value)
      requires Ok() && at + 1 < len <= |p| && p[at + 1] == 0x12
      ensures Matches(ok, next, out, View(), EvalExt(env, p, len, at, View(), rank))
    {
      hide Eval, Valid, TargetOf, NameAt, Search;
      var found, q := false, at + 2;
      if q < len && NameStart(p[q]) {
        var isName, nr, after := ReadNameRef(p, q, len);
        if isName {
          q := after;
          var abs;
          found, abs := SearchScopes(env.fields.Keys + env.entries.Keys, scope, nr);
        }
      }
      var t;
      ok, next, t := ReadTarget(env, p, len, q);
      out := Int(Truth(found));
    }

    // ----- names and calls -----

    method ResolveNameValue(env: Env, p: seq<Byte>, len: nat, at: nat, rank: nat, pos: nat,
                            nr: NameRef) returns (ok: bool, next: nat, out: Value)
      requires Ok() && at < pos <= len <= |p| && AllSegs(nr.segs)
      modifies Repr()
      ensures Ok() && Matches(ok, next, out, View(), EvalName(env, p, len, at, pos, nr, old(View()), rank))
      decreases Fuel(depth, arena.used), rank, Left(len, at), 7, 0
    {
      hide Eval, Invoke, Search, NameValue, FieldRead, Shared, NameState;
      var found, abs := SearchScopes(env.fields.Keys + env.entries.Keys, scope, nr);
      if !found { return true, pos, Uninit; }
      if abs in env.fields {
        var readable, v := bus.ReadField(env.regions, env.fields[abs]);
        return true, pos, Int(if readable then v else ONES);
      }
      if env.entries[abs].kind == MethodKind {
        ok, next, out := InvokeMethod(env, p, len, at, rank, pos, abs);
        return;
      }
      var present, data := AmlNameValue(env.tables, env.entries[abs]);
      if !present { return true, pos, Uninit; }
      if RankOf(env, abs) >= rank {
        arena.stuck := true;
        return false, pos, Uninit;
      }
      ok, out := EvalNameData(env, abs, data, RankOf(env, abs));
      next := pos;
    }

    /** Evaluate a Name's data in a fresh state that shares the arena, the arguments and the call depth. */
    method EvalNameData(env: Env, abs: Path, data: seq<Byte>, rank: nat) returns (ok: bool, out: Value)
      requires Ok() && |abs| < PATH_CAP
      modifies Repr()
      ensures Ok() && var x := Eval(env, data, |data|, 0, NameState(old(View()), abs), rank);
                      ok == x.ok && (ok ==> out == x.val) && View() == Shared(old(View()), x.st).(args := x.st.args)
      decreases Fuel(depth, arena.used), rank, |data|, 13, 0
    {
      hide Eval;
      var sub := new EvalState(arena, bus, args, argc, abs, depth);
      assert sub.View() == NameState(old(View()), abs);
      var next;
      ok, next, out := sub.EvalTermArg(env, data, |data|, 0, rank);
    }

    method InvokeMethod(env: Env, p: seq<Byte>, len: nat, at: nat, rank: nat, pos: nat, abs: Path)
      returns (ok: bool, next: nat, out: Value)
      requires Ok() && at < pos <= len <= |p| && abs in env.entries && |abs| < PATH_CAP
      modifies Repr()
      ensures Ok() && Matches(ok, next, out, View(), Invoke(env, p, len, at, pos, abs, old(View()), rank))
      decreases Fuel(depth, arena.used), rank, Left(len, at), 6, 0
    {
      hide EvalArgs, RunBody, MethodBody, Shared, Valid;
      if depth >= MAX_CALL_DEPTH { return false, pos, Uninit; }
      var sliced, code, argc := AmlMethodBody(env.tables, env.entries[abs]);
      if !sliced { return false, pos, Uninit; }
      var vals;
      ok, next, vals := EvalCallArgs(env, p, len, pos, rank, argc);
      if !ok { return false, next, Uninit; }
      ok, out := RunMethod(env, abs, Body(code, argc), vals);
    }

    method EvalCallArgs(env: Env, p: seq<Byte>, len: nat, pos: nat, rank: nat, n: nat)
      returns (ok: bool, next: nat, vals: seq<Value>)
      requires Ok() && pos <= len <= |p|
      modifies Repr()
      ensures Ok() && var a := EvalArgs(env, p, len, pos, old(View()), rank, n);
                      ok == a.ok && next == a.pos && View() == a.st && (ok ==> vals == a.vals)
      decreases Fuel(depth, arena.used), rank, Left(len, pos), 10, n
    {
      hide Eval, EvalArgs, Valid;
      ok, next, vals := true, pos, [];
      ghost var st0 := View();
      while |vals| < n
        invariant |vals| <= n && pos <= next <= len && old(arena.used) <= arena.used && Ok() && ok
        invariant AfterArgs(vals, EvalArgs(env, p, len, next, View(), rank, n - |vals|)) ==
                  AfterArgs([], EvalArgs(env, p, len, pos, st0, rank, n))
        decreases n - |vals|
      {
        ghost var before, from := View(), next;
        var v;
        ok, next, v := EvalTermArg(env, p, len, next, rank);
        ArgsOnce(env, p, len, from, before, rank, n - |vals|, vals);
        if !ok { return; }
        vals := vals + [v];
      }
      ArgsEnd(env, p, len, next, View(), rank);
      ghost var all := EvalArgs(env, p, len, pos, st0, rank, n).vals;
      assert vals + [] == vals && [] + all == all;
    }

    /** Run a method body in a fresh state one call deeper, over its own argument array. */
    method RunMethod(env: Env, abs: Path, m: Body, vals: seq<Value>) returns (ok: bool, out: Value)
      requires Ok() && |abs| < PATH_CAP && depth < MAX_CALL_DEPTH && |vals| <= 7 && m.argc <= 7
      requires AllInside(vals, arena.used)
      modifies Repr()
      ensures Ok() && var x := RunBody(env, abs, m, vals, old(View()));
                      && ok == x.ok && (ok ==> out == if x.st.returned then x.st.ret else Uninit)
                      && View() == Shared(old(View()), x.st)
      decreases Fuel(depth, arena.used), 0, 0, 0, 0
    {
      hide Exec;
      var sub := Callee(abs, m.argc, vals);
      ok := sub.ExecTermList(env, m.code, |m.code|, 0, |m.code|, env.top);
      out := if sub.returned then sub.ret else Uninit;
    }

    /** A fresh state one call deeper, over the same arena and bus, with its own arguments. */
    method Callee(abs: Path, argc: nat, vals: seq<Value>) returns (sub: EvalState)
      requires Ok() && |abs| < PATH_CAP && depth < MAX_CALL_DEPTH && |vals| <= 7 && argc <= 7
      requires AllInside(vals, arena.used)
      ensures fresh(sub) && fresh(sub.locals) && fresh(sub.args) && sub.arena == arena && sub.bus == bus
      ensures sub.Ok() && sub.View() == CallState(View(), abs, vals, argc)
    {
      var args := ArgumentArray(vals);
      sub := new EvalState(arena, bus, args, argc, abs, depth + 1);
      assert sub.View() == CallState(View(), abs, vals, argc);
    }

    // ----- statements -----

    /** ExecTermList: run statements from `begin` up to `end`. */
    method ExecTermList(env: Env, p: seq<Byte>, len: nat, begin: nat, end: nat, rank: nat) returns (ok: bool)
      requires Ok() && end <= len <= |p|
      modifies Repr()
      ensures Ok() && X(ok, View()) == Exec(env, p, len, begin, end, old(View()), rank)
      decreases Fuel(depth, arena.used), rank, Left(len, begin), 11, 0
    {
      hide ExecOne, Valid;
      var pos := begin;
      while pos < end && !returned && !brk && !cont
        invariant (begin <= pos <= len || pos == begin) && old(arena.used) <= arena.used
        invariant Ok() && Exec(env, p, len, begin, end, old(View()), rank) == Exec(env, p, len, pos, end, View(), rank)
        decreases len - pos
      {
        var good, next := ExecStatement(env, p, len, pos, rank, end);
        if !good { return false; }
        pos := next;
      }
      ok := true;
    }

    /** One statement; the flags it sets stop the enclosing list. */
    method ExecStatement(env: Env, p: seq<Byte>, len: nat, at: nat, rank: nat, end: nat) returns (ok: bool, next: nat)
      requires Ok() && at < end <= len <= |p|
      modifies Repr()
      ensures Ok() && Follows(ok, next, View(), ExecOne(env, p, len, at, end, old(View()), rank))
      decreases Fuel(depth, arena.used), rank, Left(len, at), 10, 0
    {
      hide Eval, ExecIf, ExecWhile, PkgAt;
      var op := p[at];
      var v;
      if op == 0xA4 {
        ok, next, v := EvalTermArg(env, p, len, at + 1, rank);
        if !ok { return; }
        ret, returned := v, true;
        return;
      }
      if op == 0xA3 || op == 0xCC { return true, at + 1; }
      if op == 0xA5 {
        brk := true;
        return true, at + 1;
      }
      if op == 0x9F {
        cont := true;
        return true, at + 1;
      }
      if op == 0xA0 {
        ok, next := ExecIfOp(env, p, len, at, rank, end);
        return;
      }
      if op == 0xA1 {
        var sized, elen, ec := ReadPkgLength(p, at + 1, len);
        if !sized || elen > len - (at + 1) { return false, at + 1; }
        return true, at + 1 + elen;
      }
      if op == 0xA2 {
        ok, next := ExecWhileOp(env, p, len, at, rank);
        return;
      }
      if op == 0x86 {
        ok, next, v := EvalTermArg(env, p, len, at + 1, rank);
        ok, next, v := EvalTermArg(env, p, len, next, rank);
        return true, next;
      }
      ok, next, v := EvalTermArg(env, p, len, at, rank);
    }

    method ExecIfOp(env: Env, p: seq<Byte>, len: nat, at: nat, rank: nat, end: nat) returns (ok: bool, next: nat)
      requires Ok() && at < end <= len <= |p|
      modifies Repr()
      ensures Ok() && Follows(ok, next, View(), ExecIf(env, p, len, at, end, old(View()), rank))
      decreases Fuel(depth, arena.used), rank, Left(len, at), 9, 0
    {
      hide Eval, Exec, AfterIf, PkgAt, AsInteger, Valid;
      var pos := at + 1;
      var sized, plen, pc := ReadPkgLength(p, pos, len);
      if !sized || plen > len - pos { return false, pos; }
      var ifEnd := pos + plen;
      var pred;
      ok, next, pred := EvalTermArg(env, p, ifEnd, pos + pc, rank);
      if !ok { return; }
      var taken := AsInteger(pred) != 0;
      if taken {
        ok := ExecTermList(env, p, len, next, ifEnd, rank);
        if !ok { return; }
      }
      ok, next := ExecElsePart(env, p, len, ifEnd, rank, end, !taken);
    }

    method ExecElsePart(env: Env, p: seq<Byte>, len: nat, at: nat, rank: nat, end: nat, taken: bool)
      returns (ok: bool, next: nat)
      requires Ok() && at <= len && end <= len <= |p|
      modifies Repr()
      ensures Ok() && Follows(ok, next, View(), AfterIf(env, p, len, at, end, old(View()), rank, taken))
      decreases Fuel(depth, arena.used), rank, Left(len, at), 10, 0
    {
      hide Exec, PkgAt, Valid;
      if at < end && p[at] == 0xA1 {
        var pos := at + 1;
        var sized, elen, ec := ReadPkgLength(p, pos, len);
        if !sized || elen > len - pos { return false, pos; }
        var elseEnd := pos + elen;
        ok := true;
        if taken { ok := ExecTermList(env, p, len, pos + ec, elseEnd, rank); }
        return ok, elseEnd;
      }
      return true, at;
    }

    method ExecWhileOp(env: Env, p: seq<Byte>, len: nat, at: nat, rank: nat) returns (ok: bool, next: nat)
      requires Ok() && at < len <= |p|
      modifies Repr()
      ensures Ok() && Follows(ok, next, View(), ExecWhile(env, p, len, at, old(View()), rank))
      decreases Fuel(depth, arena.used), rank, Left(len, at), 9, 0
    {
      hide Loop, PkgAt, Valid;
      var pos := at + 1;
      var sized, wlen, wc := ReadPkgLength(p, pos, len);
      if !sized || wlen > len - pos { return false, pos; }
      var wEnd := pos + wlen;
      ok := RunLoop(env, p, len, pos + wc, wEnd, rank);
      next := wEnd;
    }

    /** The loop itself: a predicate count guards against a runaway. */
    method RunLoop(env: Env, p: seq<Byte>, len: nat, body: nat, wEnd: nat, rank: nat) returns (ok: bool)
      requires Ok() && wEnd <= len <= |p|
      modifies Repr()
      ensures Ok() && X(ok, View()) == Loop(env, p, len, body, wEnd, old(View()), rank, LOOP_CAP)
      decreases Fuel(depth, arena.used), rank, Left(len, body), 12, 0
    {
      hide Eval, Exec, Loop, AsInteger;
      var guard := 0;
      while true
        invariant guard <= LOOP_CAP && old(arena.used) <= arena.used && Ok()
        invariant Loop(env, p, len, body, wEnd, old(View()), rank, LOOP_CAP) ==
                  Loop(env, p, len, body, wEnd, View(), rank, LOOP_CAP - guard)
        decreases LOOP_CAP - guard
      {
        LoopOnce(env, p, len, body, wEnd, View(), rank, LOOP_CAP - guard);
        guard := guard + 1;
        if guard > LOOP_CAP { return true; }
        var pp, pred;
        ok, pp, pred := EvalTermArg(env, p, wEnd, body, rank);
        if !ok { return; }
        if AsInteger(pred) == 0 { return true; }
        ok := ExecTermList(env, p, len, pp, wEnd, rank);
        if !ok { return; }
        if returned || brk {
          brk := false;
          return true;
        }
        cont := false;
      }
    }
  }

  /** A callee's argument array: the arguments given, then Uninit up to seven. */
  method ArgumentArray(vals: seq<Value>) returns (callee: array<Value>)
    requires |vals| <= 7
    ensures fresh(callee) && callee.Length == 7 && callee[..] == vals + seq(7 - |vals|, i => Uninit)
  {
    callee := new Value[7](i => Uninit);
    for i := 0 to |vals|
      invariant callee[..] == vals[..i] + seq(7 - i, j => Uninit)
    {
      callee[i] := vals[i];
    }
  }

  // ----- byte loops -----

  /** `n` little-endian bytes, or-ed in one at a time. */
  method ReadLittleEndian(p: seq<Byte>, pos: nat, n: nat) returns (v: U64)
    requires n <= 8 && pos + n <= |p|
    ensures v == Le(p[pos..pos + n])
  {
    v := 0;
    for i := 0 to n
      invariant v == Le(p[pos..pos + i])
    {
      OrByte(p, pos, i);
      LeFits(p[pos..pos + (i + 1)]);
      v := Or(v, Shl(p[pos + i], i * 8));
    }
  }

  lemma OrByte(p: seq<Byte>, pos: nat, i: nat)
    requires pos + i < |p|
    ensures Or(Le(p[pos..pos + i]), Shl(p[pos + i], i * 8)) == Le(p[pos..pos + (i + 1)])
  {
    hide Le, Or, Shl;
    var s := p[pos..pos + i];
    LeBound(s);
    OrIsAdd(Le(s), p[pos + i], i * 8);
    LeAppend(s, p[pos + i]);
    assert p[pos..pos + (i + 1)] == s + [p[pos + i]];
  }

  method ScanString(p: seq<Byte>, len: nat, pos: nat) returns (n: nat)
    requires len <= |p|
    ensures n == StrRun(p, len, pos, 0)
  {
    hide StrRun;
    n := 0;
    while pos + n < len && p[pos + n] != 0 && n + 1 < BUF_CAP
      invariant n < BUF_CAP
      invariant StrRun(p, len, pos, 0) == n + StrRun(p, len, pos + n, n)
    {
      StrRunStep(p, len, pos + n, n);
      n := n + 1;
    }
    StrRunStep(p, len, pos + n, n);
  }

  lemma StrRunStep(p: seq<Byte>, len: nat, pos: nat, i: nat)
    requires len <= |p|
    ensures StrRun(p, len, pos, i) ==
            if pos < len && p[pos] != 0 && i + 1 < BUF_CAP then 1 + StrRun(p, len, pos + 1, i + 1) else 0
  {
  }

  method CopyBytes(p: seq<Byte>, start: nat, end: nat, n: nat) returns (b: seq<Byte>)
    requires end <= |p|
    ensures b == BufferBytes(p, start, end, n)
  {
    var buf := new Byte[n](i => 0);
    var pos, i := start, 0;
    while pos < end && i < n
      invariant i <= n && pos == start + i
      invariant forall j :: 0 <= j < n ==> buf[j] == if j < i then BufferBytes(p, start, end, n)[j] else 0
    {
      buf[i] := p[pos];
      pos, i := pos + 1, i + 1;
    }
    return buf[..];
  }

  // ----- one step of each functional loop -----

  lemma FillOnce(env: Env, p: seq<Byte>, end: nat, pos: nat, st: St, rank: nat, first: nat, e: nat, count: nat)
    requires end <= |p| && Valid(st) && e < count && first + count <= |st.nodes| && pos < end
    ensures var r := FillOne(env, p, end, pos, st, rank, first + e);
            FillSlots(env, p, end, pos, st, rank, first, e, count) ==
            FillSlots(env, p, end, r.pos, r.st, rank, first, e + 1, count)
  {
    hide FillOne, Valid;
  }

  lemma FillEnd(env: Env, p: seq<Byte>, end: nat, pos: nat, st: St, rank: nat, first: nat, e: nat, count: nat)
    requires end <= |p| && Valid(st) && e <= count && first + count <= |st.nodes| && (e == count || pos >= end)
    ensures FillSlots(env, p, end, pos, st, rank, first, e, count) == st
  {
    hide Valid;
  }

  lemma LoopOnce(env: Env, p: seq<Byte>, len: nat, body: nat, wEnd: nat, st: St, rank: nat, n: nat)
    requires wEnd <= len <= |p| && Valid(st)
    ensures n == 0 ==> Loop(env, p, len, body, wEnd, st, rank, n) == X(true, st)
    ensures n > 0 ==>
              var c := Eval(env, p, wEnd, body, st, rank);
              Loop(env, p, len, body, wEnd, st, rank, n) ==
                if !c.ok then X(false, c.st)
                else if AsInteger(c.val) == 0 then X(true, c.st)
                else
                  var x := Exec(env, p, len, c.pos, wEnd, c.st, rank);
                  if !x.ok then x
                  else if x.st.returned || x.st.brk then X(true, x.st.(brk := false))
                  else Loop(env, p, len, body, wEnd, x.st.(cont := false), rank, n - 1)
  {
    hide Eval, Exec, AsInteger;
  }

  /** The arguments already evaluated, in front of the rest. */
  function AfterArgs(vals: seq<Value>, a: Args): (r: Args)
  {
    a.(vals := if a.ok then vals + a.vals else [])
  }

  lemma ArgsOnce(env: Env, p: seq<Byte>, len: nat, pos: nat, st: St, rank: nat, n: nat, vals: seq<Value>)
    requires pos <= len <= |p| && Valid(st) && n > 0
    ensures var x := Eval(env, p, len, pos, st, rank);
            AfterArgs(vals, EvalArgs(env, p, len, pos, st, rank, n)) ==
            if x.ok then AfterArgs(vals + [x.val], EvalArgs(env, p, len, x.pos, x.st, rank, n - 1))
                else Args(false, x.pos, [], x.st)
  {
    hide Eval, Valid;
    var x := Eval(env, p, len, pos, st, rank);
    if x.ok {
      var rest := EvalArgs(env, p, len, x.pos, x.st, rank, n - 1);
      assert vals + ([x.val] + rest.vals) == (vals + [x.val]) + rest.vals;
    }
  }

  lemma ArgsEnd(env: Env, p: seq<Byte>, len: nat, pos: nat, st: St, rank: nat)
    requires pos <= len <= |p| && Valid(st)
    ensures EvalArgs(env, p, len, pos, st, rank, 0) == Args(true, pos, [], st)
  {
    hide Valid;
  }

  /** The outcome of a method agrees with a functional result; the value counts only on success. */
  predicate Matches(ok: bool, pos: nat, out: Value, st: St, r: R)
  {
    ok == r.ok && pos == r.pos && st == r.st && (ok ==> out == r.val)
  }

  predicate Follows(ok: bool, pos: nat, st: St, s: S)
  {
    ok == s.ok && st == s.st && (ok ==> pos == s.pos)
  }
}
