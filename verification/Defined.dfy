/** Which programs have a meaning: those that call every method with its own number of arguments,
    through a call graph of bounded depth, whose Names refer down their ranks, and whose objects are
    known. Nothing is asked of loops, branches, arithmetic, packages, fields, names bound to nothing
    or objects not used, so a program without names always has one, in every namespace, and the
    correctness of the interpreter needs no other condition. */
module Defined {
  import opened Bits
  import opened Names
  import opened Regions
  import opened Alu
  import opened Interp
  import opened Ast
  import opened Represent
  import opened Api

  /** The objects a program uses, each with a bound on the calls that can nest below it. */
  type Levels = map<Segs, nat>

  /** A name with `n` argument terms, used from `scope` with `room` calls left, below `rank`. */
  predicate TameName(g: Program, lev: Levels, scope: Segs, name: NameRef, n: nat, room: nat, rank: nat)
  {
    match Lookup(g.fields.Keys + g.objs.Keys, scope, name)
    case None => n == 0
    case Some(s) =>
      if s in g.fields || s !in g.objs then n == 0
      else match g.objs[s]
        case OtherObj => n == 0
        case ForeignObj => false
        case NameObj(_, k) => n == 0 && k < rank && s in lev && lev[s] <= room
        case MethodObj(argc, _) => n == argc <= 7 && s in lev && lev[s] < room
  }

  /** Every name in a term is tame; the elements of a package are read at the top rank. */
  predicate Tame(g: Program, lev: Levels, scope: Segs, e: Expr, room: nat, rank: nat)
    decreases e, 1
  {
    match e
    case BufferE(size, _) => Tame(g, lev, scope, size, room, rank)
    case PackageE(_, elems) => TameAll(g, lev, scope, elems, room, g.top)
    case VarPackageE(length, elems) =>
      Tame(g, lev, scope, length, room, rank) && TameAll(g, lev, scope, elems, room, g.top)
    case Bin(_, a, b, _) => Tame(g, lev, scope, a, room, rank) && Tame(g, lev, scope, b, room, rank)
    case DivideE(a, b, _, _) => Tame(g, lev, scope, a, room, rank) && Tame(g, lev, scope, b, room, rank)
    case Un(_, a, _) => Tame(g, lev, scope, a, room, rank)
    case StepE(_, dest) => dest.NameD? ==> TameName(g, lev, scope, dest.name, 0, room, rank)
    case LogicE(_, a, b) => Tame(g, lev, scope, a, room, rank) && Tame(g, lev, scope, b, room, rank)
    case LogicNotE(_, a, b) => Tame(g, lev, scope, a, room, rank) && Tame(g, lev, scope, b, room, rank)
    case LNotE(a) => Tame(g, lev, scope, a, room, rank)
    case CopyE(_, a, _) => Tame(g, lev, scope, a, room, rank)
    case OneE(_, a) => Tame(g, lev, scope, a, room, rank)
    case WaitE(_, a) => Tame(g, lev, scope, a, room, rank)
    case AcquireE(a, _) => Tame(g, lev, scope, a, room, rank)
    case IndexE(a, b, _) => Tame(g, lev, scope, a, room, rank) && Tame(g, lev, scope, b, room, rank)
    case Ref(name, args) =>
      TameName(g, lev, scope, name, |args|, room, rank) && TameAll(g, lev, scope, args, room, rank)
    case _ => true
  }

  predicate TameAll(g: Program, lev: Levels, scope: Segs, es: seq<Expr>, room: nat, rank: nat)
    decreases es, 0
  {
    es == [] || (Tame(g, lev, scope, es[0], room, rank) && TameAll(g, lev, scope, es[1..], room, rank))
  }

  predicate TameStmt(g: Program, lev: Levels, scope: Segs, s: Stmt, room: nat, rank: nat)
    decreases s, 1
  {
    match s
    case Do(e) => Tame(g, lev, scope, e, room, rank)
    case If(c, thn) => Tame(g, lev, scope, c, room, rank) && TameStmts(g, lev, scope, thn, room, rank)
    case IfElse(c, thn, els) =>
      && Tame(g, lev, scope, c, room, rank)
      && TameStmts(g, lev, scope, thn, room, rank) && TameStmts(g, lev, scope, els, room, rank)
    case While(c, body) => Tame(g, lev, scope, c, room, rank) && TameStmts(g, lev, scope, body, room, rank)
    case Return(e) => Tame(g, lev, scope, e, room, rank)
    case Notify(a, b) => Tame(g, lev, scope, a, room, rank) && Tame(g, lev, scope, b, room, rank)
    case _ => true
  }

  predicate TameStmts(g: Program, lev: Levels, scope: Segs, ss: seq<Stmt>, room: nat, rank: nat)
    decreases ss, 0
  {
    ss == [] || (TameStmt(g, lev, scope, ss[0], room, rank) && TameStmts(g, lev, scope, ss[1..], room, rank))
  }

  /** Every object used is well-formed and tame at its own level. */
  predicate TameProgram(g: Program, lev: Levels)
  {
    forall s :: s in lev && s in g.objs ==> TameObj(g, lev, s, g.objs[s])
  }

  predicate TameObj(g: Program, lev: Levels, s: Segs, o: Obj)
    requires s in lev
  {
    match o
    case MethodObj(_, body) => WfStmts(body) && TameStmts(g, lev, s, body, lev[s], g.top)
    case NameObj(data, rank) => Wf(data) && Tame(g, lev, s, data, lev[s], rank)
    case OtherObj => true
    case ForeignObj => true
  }

  lemma {:induction false} BoundFrom(keys: set<Segs>, scope: Segs, segs: Segs, k: nat)
    requires k <= |scope|
    ensures var r := LookupFrom(keys, scope, segs, k); r.Some? ==> r.value in keys
    decreases k
  {
    if k > 0 { BoundFrom(keys, scope, segs, k - 1); }
  }

  lemma Bound(keys: set<Segs>, scope: Segs, name: NameRef)
    ensures var r := Lookup(keys, scope, name); r.Some? ==> r.value in keys
  {
    hide LookupFrom;
    BoundFrom(keys, scope, name.segs, |scope|);
  }

  // ----- tame terms have a value -----

  ghost predicate Room(g: Program, lev: Levels, t: TSt, room: nat)
  {
    TOk(t) && TameProgram(g, lev) && t.depth + room <= MAX_CALL_DEPTH
  }

  /** Every tame term has a value. */
  lemma SemDefined(g: Program, lev: Levels, e: Expr, t: TSt, rank: nat, room: nat)
    requires Room(g, lev, t, room) && Wf(e) && Tame(g, lev, t.scope, e, room, rank)
    ensures Sem(g, e, t, rank).Some?
    decreases Fuel(t.depth, t.used), rank, e, 5
  {
    hide TameProgram, TameName, Enc, EncAll, AsInt, Lookup, WfName, Named, PackageSem, SemAll, TameAll, WfAll, TOk,
      SetField;
    if HasTwo(e) {
      TwoTermDefined(g, lev, e, t, rank, room);
      return;
    }
    match e
    case BufferE(size, _) => SemDefined(g, lev, size, t, rank, room);
    case PackageE(count, elems) => PackageDefined(g, lev, elems, t, rank, room, count);
    case VarPackageE(length, elems) =>
      SemDefined(g, lev, length, t, rank, room);
      var n := Sem(g, length, t, rank).value;
      PackageDefined(g, lev, elems, n.st, rank, room, AsInt(n.val));
    case Un(_, a, _) => SemDefined(g, lev, a, t, rank, room);
    case LNotE(a) => SemDefined(g, lev, a, t, rank, room);
    case CopyE(_, a, _) => SemDefined(g, lev, a, t, rank, room);
    case OneE(_, a) => SemDefined(g, lev, a, t, rank, room);
    case WaitE(_, a) => SemDefined(g, lev, a, t, rank, room);
    case AcquireE(a, _) => SemDefined(g, lev, a, t, rank, room);
    case StepE(_, dest) => if dest.NameD? { NamedDefined(g, lev, dest.name, t, rank, room, e); }
    case Ref(name, args) => RefDefined(g, lev, e, t, rank, room);
    case _ =>
  }

  lemma TwoTermDefined(g: Program, lev: Levels, e: Expr, t: TSt, rank: nat, room: nat)
    requires Room(g, lev, t, room) && HasTwo(e) && Wf(e) && Tame(g, lev, t.scope, e, room, rank)
    ensures Sem(g, e, t, rank).Some?
    decreases Fuel(t.depth, t.used), rank, e, 4, 1
  {
    hide TameProgram, Tame, AsInt, Lookup, WfName, SemTwo, TOk, SetField;
    TwoDefined(g, lev, e, t, rank, room);
  }

  lemma TwoDefined(g: Program, lev: Levels, e: Expr, t: TSt, rank: nat, room: nat)
    requires Room(g, lev, t, room) && HasTwo(e) && Wf(e) && Tame(g, lev, t.scope, e, room, rank)
    ensures SemTwo(g, e, t, rank).Some?
    decreases Fuel(t.depth, t.used), rank, e, 4, 0
  {
    hide TameProgram, Sem, WfDest;
    SemDefined(g, lev, e.a, t, rank, room);
    SemDefined(g, lev, e.b, Sem(g, e.a, t, rank).value.st, rank, room);
  }

  lemma PackageDefined(g: Program, lev: Levels, elems: seq<Expr>, t: TSt, rank: nat, room: nat, n: nat)
    requires Room(g, lev, t, room) && WfAll(elems) && TameAll(g, lev, t.scope, elems, room, g.top)
    ensures PackageSem(g, elems, t, rank, n).Some?
    decreases Fuel(t.depth, t.used), rank, elems, 3
  {
    hide TameProgram, SemAll, WfAll, TameAll;
    var count := Min(n, ARENA_CAP - t.used);
    if count > 0 { AllDefined(g, lev, elems, t.(used := t.used + count), g.top, room, count); }
  }

  lemma AllDefined(g: Program, lev: Levels, es: seq<Expr>, t: TSt, rank: nat, room: nat, k: nat)
    requires Room(g, lev, t, room) && WfAll(es) && TameAll(g, lev, t.scope, es, room, rank)
    ensures SemAll(g, es, t, rank, k).Some?
    decreases Fuel(t.depth, t.used), rank, es, 2
  {
    hide TameProgram, Sem, Wf, Tame;
    if k > 0 && es != [] {
      SemDefined(g, lev, es[0], t, rank, room);
      AllDefined(g, lev, es[1..], Sem(g, es[0], t, rank).value.st, rank, room, k - 1);
    }
  }

  lemma RefDefined(g: Program, lev: Levels, e: Expr, t: TSt, rank: nat, room: nat)
    requires Room(g, lev, t, room) && e.Ref? && Wf(e) && Tame(g, lev, t.scope, e, room, rank)
    ensures RefSem(g, e, t, rank).Some?
    decreases Fuel(t.depth, t.used), rank, e, 4
  {
    hide TameProgram, Named, CallSem, WfAll, TameAll, WfName, Lookup;
    if e.args == [] {
      NamedDefined(g, lev, e.name, t, rank, room, e);
    } else {
      var s := Lookup(g.fields.Keys + g.objs.Keys, t.scope, e.name).value;
      CallDefined(g, lev, s, e.args, t, rank, room);
    }
  }

  lemma NamedDefined(g: Program, lev: Levels, name: NameRef, t: TSt, rank: nat, room: nat, host: Expr)
    requires Room(g, lev, t, room) && TameName(g, lev, t.scope, name, 0, room, rank)
    ensures Named(g, name, t, rank, host).Some?
    decreases Fuel(t.depth, t.used), rank, host, 3
  {
    hide Sem, Run, Wf, WfStmts, Tame, TameStmts, GetField;
    var s := Lookup(g.fields.Keys + g.objs.Keys, t.scope, name);
    if s.Some? {
      Bound(g.fields.Keys + g.objs.Keys, t.scope, name);
      if s.value !in g.fields {
        match g.objs[s.value]
        case OtherObj =>
        case ForeignObj =>
        case NameObj(data, k) =>
          assert TameObj(g, lev, s.value, g.objs[s.value]);
          SemDefined(g, lev, data, t.(locals := Blank(8), scope := s.value), k, lev[s.value]);
        case MethodObj(argc, body) =>
          assert TameObj(g, lev, s.value, g.objs[s.value]);
          RunDefined(g, lev, body, CallTSt(t, s.value, [], 0), g.top, lev[s.value]);
      }
    }
  }

  lemma CallDefined(g: Program, lev: Levels, s: Segs, args: seq<Expr>, t: TSt, rank: nat, room: nat)
    requires Room(g, lev, t, room) && WfAll(args) && TameAll(g, lev, t.scope, args, room, rank)
    requires s in g.objs && g.objs[s].MethodObj? && |args| == g.objs[s].argc <= 7 && s in lev && lev[s] < room
    ensures CallSem(g, s, g.objs[s].argc, g.objs[s].body, args, t, rank).Some?
    decreases Fuel(t.depth, t.used), rank, args, 3
  {
    hide Run, SemAll, WfStmts, TameStmts, WfAll, TameAll;
    assert TameObj(g, lev, s, g.objs[s]);
    AllDefined(g, lev, args, t, rank, room, |args|);
    var vs := SemAll(g, args, t, rank, |args|).value;
    RunDefined(g, lev, g.objs[s].body, CallTSt(vs.st, s, vs.vals, |args|), g.top, lev[s]);
  }

  // ----- tame statements have an outcome -----

  /** Every tame statement list has an outcome. */
  lemma RunDefined(g: Program, lev: Levels, ss: seq<Stmt>, t: TSt, rank: nat, room: nat)
    requires Room(g, lev, t, room) && WfStmts(ss) && TameStmts(g, lev, t.scope, ss, room, rank)
    ensures Run(g, ss, t, rank).Some?
    decreases Fuel(t.depth, t.used), rank, ss, 6
  {
    hide TameProgram, RunOne, WfStmt, TameStmt;
    if ss != [] {
      OneDefined(g, lev, ss[0], t, rank, room);
      var o := RunOne(g, ss[0], t, rank).value;
      if o.flow.Next? { RunDefined(g, lev, ss[1..], o.st, rank, room); }
    }
  }

  lemma OneDefined(g: Program, lev: Levels, s: Stmt, t: TSt, rank: nat, room: nat)
    requires Room(g, lev, t, room) && WfStmt(s) && TameStmt(g, lev, t.scope, s, room, rank)
    ensures RunOne(g, s, t, rank).Some?
    decreases Fuel(t.depth, t.used), rank, s, 8
  {
    hide TameProgram, Sem, Run, RunWhile, Wf, Tame, WfStmts, TameStmts, Height, Enc, EncStmts;
    match s
    case Do(e) => SemDefined(g, lev, e, t, rank, room);
    case Return(e) => SemDefined(g, lev, e, t, rank, room);
    case Notify(a, b) =>
      SemDefined(g, lev, a, t, rank, room);
      SemDefined(g, lev, b, Sem(g, a, t, rank).value.st, rank, room);
    case If(c, thn) =>
      SemDefined(g, lev, c, t, rank, room);
      var x := Sem(g, c, t, rank).value;
      if AsInt(x.val) != 0 { RunDefined(g, lev, thn, x.st, rank, room); }
    case IfElse(c, thn, els) =>
      SemDefined(g, lev, c, t, rank, room);
      var x := Sem(g, c, t, rank).value;
      RunDefined(g, lev, if AsInt(x.val) != 0 then thn else els, x.st, rank, room);
    case While(_, _) => WhileDefined(g, lev, s, t, rank, room, LOOP_CAP);
    case _ =>
  }

  lemma WhileDefined(g: Program, lev: Levels, s: Stmt, t: TSt, rank: nat, room: nat, n: nat)
    requires Room(g, lev, t, room) && s.While? && WfStmt(s) && TameStmt(g, lev, t.scope, s, room, rank)
    ensures RunWhile(g, s, t, rank, n).Some?
    decreases Fuel(t.depth, t.used), rank, s, 7, n
  {
    hide TameProgram, Sem, Run, Wf, Tame, WfStmts, TameStmts, Height, Enc, EncStmts;
    if n > 0 {
      SemDefined(g, lev, s.c, t, rank, room);
      var x := Sem(g, s.c, t, rank).value;
      if AsInt(x.val) != 0 {
        RunDefined(g, lev, s.body, x.st, rank, room);
        var o := Run(g, s.body, x.st, rank).value;
        if o.flow.Next? || o.flow.Continued? { WhileDefined(g, lev, s, o.st, rank, room, n - 1); }
      }
    }
  }

  // ----- terms without names -----

  /** Constants, Locals and Args under any operators; results may go to any destination. */
  predicate Nameless(e: Expr)
    decreases e, 1
  {
    match e
    case BufferE(size, _) => Nameless(size)
    case PackageE(_, elems) => NamelessAll(elems)
    case VarPackageE(length, elems) => Nameless(length) && NamelessAll(elems)
    case Bin(_, a, b, _) => Nameless(a) && Nameless(b)
    case DivideE(a, b, _, _) => Nameless(a) && Nameless(b)
    case Un(_, a, _) => Nameless(a)
    case StepE(_, dest) => !dest.NameD?
    case LogicE(_, a, b) => Nameless(a) && Nameless(b)
    case LogicNotE(_, a, b) => Nameless(a) && Nameless(b)
    case LNotE(a) => Nameless(a)
    case CopyE(_, a, _) => Nameless(a)
    case OneE(_, a) => Nameless(a)
    case WaitE(_, a) => Nameless(a)
    case AcquireE(a, _) => Nameless(a)
    case IndexE(a, b, _) => Nameless(a) && Nameless(b)
    case Ref(_, _) => false
    case _ => true
  }

  predicate NamelessAll(es: seq<Expr>)
    decreases es, 0
  {
    es == [] || (Nameless(es[0]) && NamelessAll(es[1..]))
  }

  predicate NamelessStmt(s: Stmt)
    decreases s, 1
  {
    match s
    case Do(e) => Nameless(e)
    case If(c, thn) => Nameless(c) && NamelessStmts(thn)
    case IfElse(c, thn, els) => Nameless(c) && NamelessStmts(thn) && NamelessStmts(els)
    case While(c, body) => Nameless(c) && NamelessStmts(body)
    case Return(e) => Nameless(e)
    case Notify(a, b) => Nameless(a) && Nameless(b)
    case _ => true
  }

  predicate NamelessStmts(ss: seq<Stmt>)
    decreases ss, 0
  {
    ss == [] || (NamelessStmt(ss[0]) && NamelessStmts(ss[1..]))
  }

  /** A term without names is tame wherever it stands, whatever the namespace holds. */
  lemma {:induction false} NamelessTame(g: Program, scope: Segs, e: Expr, room: nat, rank: nat)
    requires Nameless(e)
    ensures Tame(g, map[], scope, e, room, rank)
    decreases e, 1
  {
    hide TameName, TameAll, NamelessAll;
    match e
    case BufferE(size, _) => NamelessTame(g, scope, size, room, rank);
    case PackageE(_, elems) => NamelessAllTame(g, scope, elems, room, g.top);
    case VarPackageE(length, elems) =>
      NamelessTame(g, scope, length, room, rank);
      NamelessAllTame(g, scope, elems, room, g.top);
    case Bin(_, a, b, _) => NamelessTame(g, scope, a, room, rank); NamelessTame(g, scope, b, room, rank);
    case DivideE(a, b, _, _) => NamelessTame(g, scope, a, room, rank); NamelessTame(g, scope, b, room, rank);
    case LogicE(_, a, b) => NamelessTame(g, scope, a, room, rank); NamelessTame(g, scope, b, room, rank);
    case LogicNotE(_, a, b) => NamelessTame(g, scope, a, room, rank); NamelessTame(g, scope, b, room, rank);
    case IndexE(a, b, _) => NamelessTame(g, scope, a, room, rank); NamelessTame(g, scope, b, room, rank);
    case Un(_, a, _) => NamelessTame(g, scope, a, room, rank);
    case LNotE(a) => NamelessTame(g, scope, a, room, rank);
    case CopyE(_, a, _) => NamelessTame(g, scope, a, room, rank);
    case OneE(_, a) => NamelessTame(g, scope, a, room, rank);
    case WaitE(_, a) => NamelessTame(g, scope, a, room, rank);
    case AcquireE(a, _) => NamelessTame(g, scope, a, room, rank);
    case _ =>
  }

  lemma {:induction false} NamelessAllTame(g: Program, scope: Segs, es: seq<Expr>, room: nat, rank: nat)
    requires NamelessAll(es)
    ensures TameAll(g, map[], scope, es, room, rank)
    decreases es, 0
  {
    hide Tame, Nameless;
    if es != [] {
      NamelessTame(g, scope, es[0], room, rank);
      NamelessAllTame(g, scope, es[1..], room, rank);
    }
  }

  lemma {:induction false} NamelessStmtTame(g: Program, scope: Segs, s: Stmt, room: nat, rank: nat)
    requires NamelessStmt(s)
    ensures TameStmt(g, map[], scope, s, room, rank)
    decreases s, 1
  {
    hide Tame, Nameless, TameStmts, NamelessStmts;
    match s
    case Do(e) => NamelessTame(g, scope, e, room, rank);
    case Return(e) => NamelessTame(g, scope, e, room, rank);
    case Notify(a, b) =>
      NamelessTame(g, scope, a, room, rank);
      NamelessTame(g, scope, b, room, rank);
    case If(c, thn) =>
      NamelessTame(g, scope, c, room, rank);
      NamelessStmtsTame(g, scope, thn, room, rank);
    case IfElse(c, thn, els) =>
      NamelessTame(g, scope, c, room, rank);
      NamelessStmtsTame(g, scope, thn, room, rank);
      NamelessStmtsTame(g, scope, els, room, rank);
    case While(c, body) =>
      NamelessTame(g, scope, c, room, rank);
      NamelessStmtsTame(g, scope, body, room, rank);
    case _ =>
  }

  lemma {:induction false} NamelessStmtsTame(g: Program, scope: Segs, ss: seq<Stmt>, room: nat, rank: nat)
    requires NamelessStmts(ss)
    ensures TameStmts(g, map[], scope, ss, room, rank)
    decreases ss, 0
  {
    hide TameStmt, NamelessStmt;
    if ss != [] {
      NamelessStmtTame(g, scope, ss[0], room, rank);
      NamelessStmtsTame(g, scope, ss[1..], room, rank);
    }
  }

  // ----- what is known of a namespace -----

  /** The segments a path prints, of which there is one list at most. */
  ghost predicate Printed(k: Path, s: Segs) { AllSegs(s) && |s| <= 12 && Print(s) == k }

  ghost function Unprint(k: Path): (s: Segs)
    requires exists s :: Printed(k, s)
    ensures Printed(k, s)
  {
    var s :| Printed(k, s);
    s
  }

  ghost function SegKeys(keys: set<Path>): (r: set<Segs>)
  {
    set k | k in keys && exists s :: Printed(k, s) :: Unprint(k)
  }

  lemma SegKeysSame(keys: set<Path>)
    ensures SameKeys(keys, SegKeys(keys))
    ensures forall s :: s in SegKeys(keys) ==> AllSegs(s) && |s| <= 12 && Print(s) in keys
  {
    hide Print;
    forall s: Segs | AllSegs(s) && |s| <= 12 ensures Print(s) in keys <==> s in SegKeys(keys) {
      if Print(s) in keys {
        assert Printed(Print(s), s);
        PrintInjective(s, Unprint(Print(s)));
        assert Unprint(Print(s)) in SegKeys(keys);
      }
    }
  }

  /** The namespace with `objs` known and every other object foreign. */
  ghost function Knowing(c: Env, objs: map<Segs, Obj>): (g: Program)
    ensures g.top == c.top
  {
    Program(map s | s in SegKeys(c.fields.Keys) && Print(s) in c.fields :: c.fields[Print(s)], c.regions,
            map s | s in SegKeys(c.entries.Keys) :: if s in objs then objs[s] else ForeignObj, c.top)
  }

  lemma KnowingFields(c: Env, objs: map<Segs, Obj>)
    ensures FieldsMatch(c, Knowing(c, objs))
  {
    hide Print, SegKeys, SameKeys;
    SegKeysSame(c.fields.Keys);
    assert Knowing(c, objs).fields.Keys == SegKeys(c.fields.Keys);
  }

  /** Any objects may be left unknown: whatever the rest of the namespace holds, it matches as soon as
      the known objects do. */
  lemma KnowingMatches(c: Env, objs: map<Segs, Obj>)
    requires forall s :: s in objs ==> ObjMatch(c, Print(s), objs[s])
    ensures EnvMatch(c, Knowing(c, objs))
  {
    hide Print, SegKeys, SameKeys, ObjMatch, FieldsMatch;
    KnowingFields(c, objs);
    SegKeysSame(c.entries.Keys);
    var g := Knowing(c, objs);
    assert g.objs.Keys == SegKeys(c.entries.Keys);
    forall s | s in g.objs ensures ObjMatch(c, Print(s), g.objs[s]) {
      if s !in objs { ForeignMatches(c, Print(s)); }
    }
  }

  lemma ForeignMatches(c: Env, abs: Path)
    requires abs in c.entries
    ensures ObjMatch(c, abs, ForeignObj)
  {
  }

  // ----- correctness without a definedness hypothesis -----

  /** Running the bytes of a tame program gives its meaning, which it has. */
  lemma TameCorrect(c: Env, g: Program, lev: Levels, body: seq<Stmt>, args: seq<Value>, argc: nat, w: World)
    requires EnvMatch(c, g) && WfStmts(body) && |args| == 7 && AllPlain(args) && argc <= 7 && WorldOk(w)
    requires TameProgram(g, lev) && TameStmts(g, lev, [], body, MAX_CALL_DEPTH, g.top)
    ensures Run(g, body, TStart([], args, argc, w), g.top).Some?
    ensures var r := EvaluateRaw(c, EncStmts(body), args, argc, w);
            var o := Run(g, body, TStart([], args, argc, w), g.top).value;
            r.Some? && Stands(r.value, ReturnedTree(o)) && r.value.st.world == o.st.world && !r.value.st.stuck
  {
    hide Run, EnvMatch, WfStmts, TameStmts, TameProgram, EvaluateRaw, Stands;
    RunDefined(g, lev, body, TStart([], args, argc, w), g.top, MAX_CALL_DEPTH);
    RawCorrect(c, g, body, args, argc, w);
  }

  /** Every If, While, Store, package and arithmetic program over constants, Locals and Args means
      what the interpreter makes of its bytes, in every namespace. */
  lemma NamelessCorrect(c: Env, body: seq<Stmt>, args: seq<Value>, argc: nat, w: World)
    requires WfStmts(body) && NamelessStmts(body) && |args| == 7 && AllPlain(args) && argc <= 7 && WorldOk(w)
    ensures Run(Knowing(c, map[]), body, TStart([], args, argc, w), c.top).Some?
    ensures var r := EvaluateRaw(c, EncStmts(body), args, argc, w);
            var o := Run(Knowing(c, map[]), body, TStart([], args, argc, w), c.top).value;
            r.Some? && Stands(r.value, ReturnedTree(o)) && r.value.st.world == o.st.world && !r.value.st.stuck
  {
    hide Run, WfStmts, TameStmts, NamelessStmts, EvaluateRaw, Stands, Knowing, EnvMatch;
    var g := Knowing(c, map[]);
    KnowingMatches(c, map[]);
    NamelessStmtsTame(g, [], body, MAX_CALL_DEPTH, g.top);
    TameCorrect(c, g, map[], body, args, argc, w);
  }

  /** Evaluating a tame method by path gives the value its body returns. */
  lemma MethodCorrect(c: Env, g: Program, lev: Levels, s: Segs, args: seq<Value>, w: World)
    requires EnvMatch(c, g) && AllPlain(args) && WorldOk(w) && AllSegs(s) && |s| <= 12
    requires TameProgram(g, lev) && s in lev && lev[s] <= MAX_CALL_DEPTH
    requires s in g.objs && g.objs[s].MethodObj? && g.objs[s].argc <= 7
    ensures |Print(s)| < PATH_CAP && Print(s) in c.entries && Meaning(g, s, args, w).Some?
    ensures var r := EvaluateObject(c, Print(s), args, w);
            var q := Meaning(g, s, args, w).value;
            r.Some? && Stands(r.value, q.val) && r.value.st.world == q.st.world && !r.value.st.stuck
  {
    hide Run, EnvMatch, WfStmts, TameStmts, EvaluateObject, Stands, Print;
    var argc, body := g.objs[s].argc, g.objs[s].body;
    assert TameObj(g, lev, s, g.objs[s]);
    RunDefined(g, lev, body, TStart(s, CallArgs(args, argc), argc, w), g.top, lev[s]);
    ObjectCorrect(c, g, s, args, w);
  }

  // ----- counting -----

  function Below(n: U64, swapped: bool): (e: Expr)
  {
    if swapped then LogicE(LGreater, Lit(8, n), Local(0)) else LogicE(LLess, Local(0), Lit(8, n))
  }

  function Counting(n: U64, swapped: bool): (s: Stmt) { While(Below(n, swapped), [Do(StepE(true, LocalD(0)))]) }

  /** Store(Zero, Local0) While(LLess(Local0, n)) { Increment(Local0) } Return(Local0), or with
      LGreater(n, Local0). */
  function CountTo(n: U64, swapped: bool): (ss: seq<Stmt>)
  {
    [Do(CopyE(0x70, Zero, LocalD(0))), Counting(n, swapped), Return(Local(0))]
  }

  function At0(t: TSt, i: U64): (u: TSt)
    requires TOk(t)
    ensures TOk(u) && u.locals[0] == TInt(i)
  {
    t.(locals := t.locals[0 := TInt(i)])
  }

  lemma BelowMeans(g: Program, n: U64, swapped: bool, t: TSt, i: U64, rank: nat)
    requires TOk(t) && t.locals[0] == TInt(i)
    ensures Sem(g, Below(n, swapped), t, rank) == Some(EV(TInt(if i < n then ONES else 0), t))
  {
    var e := Below(n, swapped);
    assert Sem(g, e, t, rank) == TwoSem(g, e, t, rank);
    assert Sem(g, Lit(8, n), t, rank) == Some(EV(TInt(n), t)) && Sem(g, Local(0), t, rank) == Some(EV(TInt(i), t));
    assert SemTwo(g, e, t, rank) == Some(if swapped then Pair(TInt(n), TInt(i), t) else Pair(TInt(i), TInt(n), t));
  }

  lemma IncrementMeans(g: Program, t: TSt, i: U64, rank: nat)
    requires TOk(t) && t.locals[0] == TInt(i) && i < ONES
    ensures RunOne(g, Do(StepE(true, LocalD(0))), t, rank) == Some(Out(Next, At0(t, i + 1)))
    ensures Run(g, [Do(StepE(true, LocalD(0)))], t, rank) == Some(Out(Next, At0(t, i + 1)))
  {
    var e := StepE(true, LocalD(0));
    assert StepOperand(g, e, t, rank) == Some(EV(TInt(i), t));
    assert Sem(g, e, t, rank) == Some(EV(TInt(i + 1), At0(t, i + 1)));
    assert RunOne(g, Do(e), t, rank) == Some(Out(Next, At0(t, i + 1)));
    assert [Do(e)][1..] == [];
  }

  lemma {:induction false} LoopCounts(g: Program, n: U64, swapped: bool, t: TSt, i: U64, rank: nat, k: nat)
    requires TOk(t) && t.locals[0] == TInt(i) && i <= n
    ensures RunWhile(g, Counting(n, swapped), t, rank, k) == Some(Out(Next, At0(t, Min(n, i + k))))
    decreases k
  {
    hide Sem, Run;
    assert At0(t, i) == t;
    if k > 0 {
      BelowMeans(g, n, swapped, t, i, rank);
      if i < n {
        IncrementMeans(g, t, i, rank);
        LoopCounts(g, n, swapped, At0(t, i + 1), i + 1, rank, k - 1);
        assert At0(At0(t, i + 1), Min(n, i + k)) == At0(t, Min(n, i + k));
      }
    }
  }

  lemma CountRuns(g: Program, n: U64, swapped: bool, t: TSt, rank: nat)
    requires TOk(t)
    ensures var m := Min(n, 100_000);
            Run(g, CountTo(n, swapped), t, rank) == Some(Out(Returned(TInt(m)), At0(t, m)))
  {
    hide Sem, RunWhile;
    var m, ss := Min(n, 100_000), CountTo(n, swapped);
    StoreZero(g, t, rank);
    var u := At0(t, 0);
    LoopCounts(g, n, swapped, u, 0, rank, 100_000);
    assert At0(u, m) == At0(t, m);
    ReadLocal(g, At0(t, m), m, rank);
    RunThree(g, ss, t, u, At0(t, m), TInt(m), rank);
  }

  lemma StoreZero(g: Program, t: TSt, rank: nat)
    requires TOk(t)
    ensures RunOne(g, Do(CopyE(0x70, Zero, LocalD(0))), t, rank) == Some(Out(Next, At0(t, 0)))
  {
    var e := CopyE(0x70, Zero, LocalD(0));
    assert Sem(g, Zero, t, rank) == Some(EV(TInt(0), t));
    assert Sem(g, e, t, rank) == OneSem(g, e, t, rank);
  }

  lemma ReadLocal(g: Program, t: TSt, m: U64, rank: nat)
    requires TOk(t) && t.locals[0] == TInt(m)
    ensures RunOne(g, Return(Local(0)), t, rank) == Some(Out(Returned(TInt(m)), t))
  {
  }

  lemma RunThree(g: Program, ss: seq<Stmt>, t: TSt, u: TSt, v: TSt, x: Tree, rank: nat)
    requires TOk(t) && TOk(u) && TOk(v) && |ss| == 3 && RunOne(g, ss[0], t, rank) == Some(Out(Next, u))
    requires RunOne(g, ss[1], u, rank) == Some(Out(Next, v)) && RunOne(g, ss[2], v, rank) == Some(Out(Returned(x), v))
    ensures Run(g, ss, t, rank) == Some(Out(Returned(x), v))
  {
    hide RunOne;
    var two, one := ss[1..], ss[1..][1..];
    assert two[0] == ss[1] && one[0] == ss[2];
    assert Run(g, one, v, rank) == Some(Out(Returned(x), v));
    assert Run(g, two, u, rank) == Run(g, one, v, rank);
  }

  lemma BelowWf(n: U64, swapped: bool)
    ensures var e := Below(n, swapped); Wf(e) && Height(e) <= 2 && |Enc(e)| == 11 && Nameless(e)
  {
    hide Pow2, ToLe;
    Pow2Values();
    var lit := Lit(8, n);
    assert Wf(lit) && Height(lit) <= 1 && |Enc(lit)| == 9 && Nameless(lit);
    assert Wf(Local(0)) && Height(Local(0)) <= 1 && |Enc(Local(0))| == 1 && Nameless(Local(0));
  }

  lemma OneWf(s: Stmt)
    requires WfStmt(s) && NamelessStmt(s)
    ensures WfStmts([s]) && NamelessStmts([s]) && EncStmts([s]) == EncStmt(s)
  {
    hide WfStmt, NamelessStmt, EncStmt;
    assert [s][1..] == [] && WfStmts([]) && NamelessStmts([]) && EncStmts([]) == [];
  }

  lemma IncrementWf()
    ensures var s := Do(StepE(true, LocalD(0))); WfStmt(s) && NamelessStmt(s) && |EncStmt(s)| == 2
  {
    var e := StepE(true, LocalD(0));
    assert Wf(e) && Height(e) <= 2;
    assert Enc(e) == [0x75] + [0x60] && Nameless(e);
  }

  lemma CountingWf(n: U64, swapped: bool)
    ensures WfStmt(Counting(n, swapped)) && NamelessStmt(Counting(n, swapped))
  {
    hide Wf, Height, Enc, Nameless, WfStmts, NamelessStmts, EncStmts, Below;
    BelowWf(n, swapped);
    IncrementWf();
    OneWf(Do(StepE(true, LocalD(0))));
  }

  lemma EndsWf()
    ensures var s := Do(CopyE(0x70, Zero, LocalD(0))); WfStmt(s) && NamelessStmt(s)
    ensures WfStmt(Return(Local(0))) && NamelessStmt(Return(Local(0)))
  {
    var e := CopyE(0x70, Zero, LocalD(0));
    assert Wf(Zero) && Height(Zero) <= 1 && Nameless(Zero);
    assert Wf(e) && Height(e) <= 2 && Nameless(e);
    assert Wf(Local(0)) && Height(Local(0)) <= 1 && Nameless(Local(0));
  }

  lemma CountWf(n: U64, swapped: bool)
    ensures WfStmts(CountTo(n, swapped)) && NamelessStmts(CountTo(n, swapped))
  {
    hide WfStmt, NamelessStmt, Counting;
    var ss := CountTo(n, swapped);
    EndsWf();
    CountingWf(n, swapped);
    OneWf(ss[2]);
    var two := ss[1..];
    assert two[1..] == [ss[2]] && two[0] == ss[1];
    assert WfStmts(two) && NamelessStmts(two);
  }

  /** The bytes of a loop that counts from zero while below `n` return `n`, in every namespace, or 100000
      if the loop is cut off first. */
  lemma CountedLoop(c: Env, n: U64, swapped: bool, args: seq<Value>, argc: nat, w: World)
    requires |args| == 7 && AllPlain(args) && argc <= 7 && WorldOk(w)
    ensures var r := EvaluateRaw(c, EncStmts(CountTo(n, swapped)), args, argc, w);
            r.Some? && r.value.val == Int(Min(n, 100_000)) && r.value.st.world == w
  {
    hide Run, EvaluateRaw, EncStmts, WfStmts, NamelessStmts, CountTo;
    CountWf(n, swapped);
    CountRuns(Knowing(c, map[]), n, swapped, TStart([], args, argc, w), c.top);
    NamelessCorrect(c, CountTo(n, swapped), args, argc, w);
  }
}
