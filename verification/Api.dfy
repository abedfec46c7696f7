/** The evaluator's public entry points, and what they return for compiled programs. */
module Api {
  import opened Bits
  import opened PkgLength
  import opened Names
  import opened Regions
  import opened Alu
  import opened Tables
  import opened Interp
  import opened Ast
  import opened Represent
  import opened Simulate

  /** An argument from outside refers to no arena. */
  predicate Plain(v: Value) { Inside(v, 0) && !v.Pkg? }
  predicate AllPlain(vs: seq<Value>) { forall i :: 0 <= i < |vs| ==> Plain(vs[i]) }

  /** The state an evaluation starts in: an empty arena, and an argument array of seven. */
  function Start(path: Path, args: seq<Value>, argc: nat, w: World): (st: St)
    requires |args| == 7 && AllPlain(args) && argc <= 7 && WorldOk(w) && |path| < PATH_CAP
    ensures Valid(st)
  {
    St([], w, args, argc, seq(8, i => Uninit), Uninit, false, false, false, 0, 0, path, false)
  }

  /** The argument array of a method call from outside: the first `argc` arguments given, then Uninit. */
  function CallArgs(args: seq<Value>, argc: nat): (r: seq<Value>)
    requires AllPlain(args) && argc <= 7
    ensures |r| == 7 && AllPlain(r)
  {
    seq(7, i requires 0 <= i < 7 => if i < argc && i < |args| then args[i] else Uninit)
  }

  datatype Answer = Answer(val: Value, st: St)

  predicate AnswerOk(a: Answer) { Valid(a.st) && Inside(a.val, |a.st.nodes|) }

  function ReturnValue(x: X): (r: Option<Answer>)
    requires Valid(x.st)
    ensures r.Some? ==> AnswerOk(r.value)
  {
    if x.ok then Some(Answer(if x.st.returned then x.st.ret else Uninit, x.st)) else None
  }

  /** How running a TermList at the root scope ends, whether or not it succeeds. */
  function RawRun(env: Env, aml: seq<Byte>, args: seq<Value>, argc: nat, w: World): (x: X)
    requires |args| == 7 && AllPlain(args) && argc <= 7 && WorldOk(w)
    ensures Valid(x.st)
  {
    Exec(env, aml, |aml|, 0, |aml|, Start([BACKSLASH], args, argc, w), env.top)
  }

  /** AmlEvaluateRaw: run a TermList at the root scope. */
  function EvaluateRaw(env: Env, aml: seq<Byte>, args: seq<Value>, argc: nat, w: World): (r: Option<Answer>)
    requires |args| == 7 && AllPlain(args) && argc <= 7 && WorldOk(w)
    ensures r.Some? ==> AnswerOk(r.value)
  {
    ReturnValue(RawRun(env, aml, args, argc, w))
  }

  /** The value of the Method or Name at `path`: the common part of the two entry points below. */
  function EvaluateObject(env: Env, path: Path, args: seq<Value>, w: World): (r: Option<Answer>)
    requires AllPlain(args) && WorldOk(w) && |path| < PATH_CAP && path in env.entries
    ensures r.Some? ==> AnswerOk(r.value)
  {
    var e := env.entries[path];
    if e.kind == MethodKind then
      match MethodBody(env.tables, e)
      case None => None
      case Some(m) => ReturnValue(Exec(env, m.code, |m.code|, 0, |m.code|,
          Start(path, CallArgs(args, m.argc), m.argc, w), env.top))
    else
      match NameValue(env.tables, e)
      case None => None
      case Some(d) =>
        var x := Eval(env, d, |d|, 0, Start(path, CallArgs(args, 7), Min(|args|, 7), w), env.top);
        if x.ok then Some(Answer(x.val, x.st)) else None
  }

  /** The regions as evaluating the object at `path` leaves them, whether or not it succeeds. */
  function ObjectWorld(env: Env, path: Path, args: seq<Value>, w: World): (r: World)
    requires AllPlain(args) && WorldOk(w) && |path| < PATH_CAP
    ensures WorldOk(r)
  {
    if path !in env.entries then w
    else
      var e := env.entries[path];
      if e.kind == MethodKind then
        match MethodBody(env.tables, e)
        case None => w
        case Some(m) =>
          Exec(env, m.code, |m.code|, 0, |m.code|, Start(path, CallArgs(args, m.argc), m.argc, w), env.top).st.world
      else
        match NameValue(env.tables, e)
        case None => w
        case Some(d) => Eval(env, d, |d|, 0, Start(path, CallArgs(args, 7), Min(|args|, 7), w), env.top).st.world
  }

  /** AmlEvaluate: a field is read, an object evaluated. */
  function Evaluate(env: Env, path: Path, args: seq<Value>, w: World): (r: Option<Value>)
    requires AllPlain(args) && WorldOk(w) && |path| < PATH_CAP
  {
    if path in env.fields then
      var v := FieldRead(env.regions, env.fields[path], w);
      if v.Some? then Some(Int(v.value)) else None
    else if path !in env.entries then None
    else
      match EvaluateObject(env, path, args, w)
      case None => None
      case Some(a) => Some(a.val)
  }

  /** One flattened element: integers and buffers count, everything else is zero. */
  function Flat(v: Value): (n: U64) { if v.Int? || v.Buf? then AsInteger(v) else 0 }

  /** AmlEvaluatePackageInts: the first `cap` elements of the package at `path`, as integers. A
      method that falls off its end without Return is refused. */
  function PackageInts(env: Env, path: Path, cap: nat, args: seq<Value>, w: World): (r: Option<seq<U64>>)
    requires AllPlain(args) && WorldOk(w) && |path| < PATH_CAP
    ensures r.Some? ==> |r.value| <= cap
  {
    if path !in env.entries then None
    else
      match EvaluateObject(env, path, args, w)
      case None => None
      case Some(a) =>
        if !a.val.Pkg? then None
        else
          var n := Min(a.val.count, cap);
          Some(seq<U64>(n, i requires 0 <= i < n => Flat(a.st.nodes[a.val.first + i])))
  }

  // ----- what they return for a compiled program -----

  /** The tree of an outside argument. */
  function PlainTree(v: Value): (t: Tree)
    requires Plain(v)
  {
    match v
    case Uninit => TUninit
    case Int(n) => TInt(n)
    case Str(b) => TStr(b)
    case Buf(b) => TBuf(b)
  }

  function PlainTrees(vs: seq<Value>): (ts: seq<Tree>)
    requires AllPlain(vs)
    ensures |ts| == |vs|
  {
    seq(|vs|, i requires 0 <= i < |vs| => PlainTree(vs[i]))
  }

  function TStart(s: Segs, args: seq<Value>, argc: nat, w: World): (t: TSt)
    requires |args| == 7 && AllPlain(args) && argc <= 7 && WorldOk(w)
    ensures TOk(t)
  {
    TSt(Blank(8), PlainTrees(args), argc, 0, w, s, 0)
  }

  lemma StartSim(s: Segs, args: seq<Value>, argc: nat, w: World)
    requires |args| == 7 && AllPlain(args) && argc <= 7 && WorldOk(w) && AllSegs(s) && |s| <= 12
    ensures |Print(s)| < PATH_CAP
    ensures Data(Start(Print(s), args, argc, w), TStart(s, args, argc, w), {})
    ensures Running(Start(Print(s), args, argc, w))
  {
    hide Print;
    PrintShape(s);
    BlankRep([], {}, 8);
    assert RepAll([], {}, args, PlainTrees(args));
  }

  /** The value returned to the caller stands for the tree, element by element. */
  ghost predicate Stands(a: Answer, t: Tree) { exists F: set<nat> :: Rep(a.st.nodes, F, a.val, t) }

  function ReturnedTree(o: Out): (t: Tree) { if o.flow.Returned? then o.flow.v else TUninit }

  /** Compiler correctness for whole programs: running the bytes of any well-formed statement list
      gives its meaning, and leaves the regions as its meaning leaves them. */
  lemma RawCorrect(c: Env, g: Program, body: seq<Stmt>, args: seq<Value>, argc: nat, w: World)
    requires EnvMatch(c, g) && WfStmts(body) && |args| == 7 && AllPlain(args) && argc <= 7 && WorldOk(w)
    requires Run(g, body, TStart([], args, argc, w), g.top).Some?
    ensures var r := EvaluateRaw(c, EncStmts(body), args, argc, w);
            var o := Run(g, body, TStart([], args, argc, w), g.top).value;
            r.Some? && Stands(r.value, ReturnedTree(o)) && r.value.st.world == o.st.world && !r.value.st.stuck
  {
    BodyCorrect(c, g, [], body, args, argc, w);
  }

  lemma BodyCorrect(c: Env, g: Program, s: Segs, body: seq<Stmt>, args: seq<Value>, argc: nat, w: World)
    requires EnvMatch(c, g) && WfStmts(body) && |args| == 7 && AllPlain(args) && argc <= 7 && WorldOk(w)
    requires AllSegs(s) && |s| <= 12
    requires Run(g, body, TStart(s, args, argc, w), g.top).Some?
    ensures |Print(s)| < PATH_CAP
    ensures var code := EncStmts(body);
            var r := ReturnValue(Exec(c, code, |code|, 0, |code|, Start(Print(s), args, argc, w), c.top));
            var o := Run(g, body, TStart(s, args, argc, w), g.top).value;
            r.Some? && Stands(r.value, ReturnedTree(o)) && r.value.st.world == o.st.world && !r.value.st.stuck
  {
    hide Exec, Data, Rep, Run, EncStmts, WfStmts, FieldsMatch, ObjsMatch, Start, Print, TStart;
    StartSim(s, args, argc, w);
    var code := EncStmts(body);
    assert code[0..|code|] == code;
    var st, t := Start(Print(s), args, argc, w), TStart(s, args, argc, w);
    assert st.exprDepth == 0 && t.used == 0 by { StartCounters(s, args, argc, w); }
    ExecSim(c, g, body, code, |code|, 0, |code|, st, t, {}, c.top);
    var x, o := Exec(c, code, |code|, 0, |code|, st, c.top), Run(g, body, t, g.top).value;
    var F := Grow({}, 0, o.st.used);
    DataValid(x.st, o.st, F);
    RepText(x.st.nodes, F, []);
    assert Rep(x.st.nodes, F, ReturnValue(x).value.val, ReturnedTree(o));
  }

  lemma StartCounters(s: Segs, args: seq<Value>, argc: nat, w: World)
    requires |args| == 7 && AllPlain(args) && argc <= 7 && WorldOk(w) && |Print(s)| < PATH_CAP
    ensures Start(Print(s), args, argc, w).exprDepth == 0 && TStart(s, args, argc, w).used == 0
  {
  }

  /** The meaning of the object at `s`: a method's returned value, or a Name's data. */
  ghost function Meaning(g: Program, s: Segs, args: seq<Value>, w: World): (r: Option<EV>)
    requires AllPlain(args) && WorldOk(w) && s in g.objs
  {
    match g.objs[s]
    case MethodObj(argc, body) =>
      if argc > 7 then None
      else
        (match Run(g, body, TStart(s, CallArgs(args, argc), argc, w), g.top)
         case None => None
         case Some(o) => Some(EV(ReturnedTree(o), o.st)))
    case NameObj(data, _) => Sem(g, data, TStart(s, CallArgs(args, 7), Min(|args|, 7), w), g.top)
    case OtherObj => None
    case ForeignObj => None
  }

  /** Evaluating a program's object by path gives its meaning. */
  lemma ObjectCorrect(c: Env, g: Program, s: Segs, args: seq<Value>, w: World)
    requires EnvMatch(c, g) && AllPlain(args) && WorldOk(w) && AllSegs(s) && |s| <= 12 && s in g.objs
    requires Meaning(g, s, args, w).Some?
    ensures |Print(s)| < PATH_CAP && Print(s) in c.entries
    ensures var r := EvaluateObject(c, Print(s), args, w);
            var q := Meaning(g, s, args, w).value;
            r.Some? && Stands(r.value, q.val) && r.value.st.world == q.st.world && !r.value.st.stuck
  {
    hide Exec, Eval, Data, Rep, Run, Sem, EncStmts, WfStmts, Enc, Wf, Height, FieldsMatch, SameKeys, Start, Print,
      TStart, Stands, CallArgs;
    PrintShape(s);
    assert ObjMatch(c, Print(s), g.objs[s]);
    match g.objs[s]
    case MethodObj(argc, body) => BodyCorrect(c, g, s, body, CallArgs(args, argc), argc, w);
    case NameObj(data, _) => DataCorrect(c, g, s, data, CallArgs(args, 7), Min(|args|, 7), w);
    case OtherObj =>
    case ForeignObj =>
  }

  lemma DataCorrect(c: Env, g: Program, s: Segs, data: Expr, args: seq<Value>, argc: nat, w: World)
    requires EnvMatch(c, g) && |args| == 7 && AllPlain(args) && argc <= 7 && WorldOk(w) && AllSegs(s) && |s| <= 12
    requires |Print(s)| < PATH_CAP && Print(s) in c.entries && Wf(data) && Height(data) <= MAX_EXPR_DEPTH
    requires NameValue(c.tables, c.entries[Print(s)]).Some?
    requires At(NameValue(c.tables, c.entries[Print(s)]).value, 0, Enc(data))
    requires Sem(g, data, TStart(s, args, argc, w), g.top).Some?
    ensures var d := NameValue(c.tables, c.entries[Print(s)]).value;
            var x := Eval(c, d, |d|, 0, Start(Print(s), args, argc, w), c.top);
            var q := Sem(g, data, TStart(s, args, argc, w), g.top).value;
            x.ok && Stands(Answer(x.val, x.st), q.val) && x.st.world == q.st.world && !x.st.stuck
  {
    hide Eval, Data, Rep, Sem, Enc, Wf, Height, FieldsMatch, ObjsMatch, Start, Print, TStart;
    StartSim(s, args, argc, w);
    StartCounters(s, args, argc, w);
    var d := NameValue(c.tables, c.entries[Print(s)]).value;
    var st, t := Start(Print(s), args, argc, w), TStart(s, args, argc, w);
    EvalSim(c, g, data, d, |d|, 0, st, t, {}, c.top);
    var x, q := Eval(c, d, |d|, 0, st, c.top), Sem(g, data, t, g.top).value;
    var F := Grow({}, 0, q.st.used);
    DataValid(x.st, q.st, F);
    assert Rep(x.st.nodes, F, Answer(x.val, x.st).val, q.val);
  }

  function FlatTree(t: Tree): (n: U64) { if t.TInt? || t.TBuf? then AsInt(t) else 0 }

  /** Flattening reads the right slots: the integers returned are those of the tree's elements. */
  lemma PackageIntsCorrect(c: Env, g: Program, s: Segs, cap: nat, args: seq<Value>, w: World)
    requires EnvMatch(c, g) && AllPlain(args) && WorldOk(w) && AllSegs(s) && |s| <= 12 && s in g.objs
    requires Meaning(g, s, args, w).Some?
    ensures |Print(s)| < PATH_CAP
    ensures var r := PackageInts(c, Print(s), cap, args, w);
            var v := Meaning(g, s, args, w).value.val;
            && (r.Some? <==> v.TPkg?)
            && (v.TPkg? ==>
                 r.value == seq(Min(|v.elems|, cap), i requires 0 <= i < Min(|v.elems|, cap) => FlatTree(v.elems[i])))
  {
    hide EvaluateObject, Print, EnvMatch;
    ObjectCorrect(c, g, s, args, w);
    var a, v := EvaluateObject(c, Print(s), args, w).value, Meaning(g, s, args, w).value.val;
    var F: set<nat> :| Rep(a.st.nodes, F, a.val, v);
    if v.TPkg? {
      forall i | 0 <= i < |v.elems| ensures Flat(a.st.nodes[a.val.first + i]) == FlatTree(v.elems[i]) {
        assert RepSlot(a.st.nodes, F, a.val.first + i, v.elems[i]);
        RepInt(a.st.nodes, F, a.st.nodes[a.val.first + i], v.elems[i]);
      }
    }
  }

  /** AmlEvaluate returns an object's meaning itself, if that is no package, and otherwise a package of as
      many elements, which PackageIntsCorrect reads. */
  lemma EvaluateCorrect(c: Env, g: Program, s: Segs, args: seq<Value>, w: World)
    requires EnvMatch(c, g) && AllPlain(args) && WorldOk(w) && AllSegs(s) && |s| <= 12
    requires s in g.objs && s !in g.fields && Meaning(g, s, args, w).Some?
    ensures |Print(s)| < PATH_CAP && Evaluate(c, Print(s), args, w).Some?
    ensures var v, t := Evaluate(c, Print(s), args, w).value, Meaning(g, s, args, w).value.val;
            if t.TPkg? then v.Pkg? && v.count == |t.elems| else Plain(v) && PlainTree(v) == t
  {
    hide EvaluateObject, Print, EnvMatch, Meaning;
    ObjectCorrect(c, g, s, args, w);
    NotField(c, g, s);
    var a, t := EvaluateObject(c, Print(s), args, w).value, Meaning(g, s, args, w).value.val;
    var F: set<nat> :| Rep(a.st.nodes, F, a.val, t);
  }

  lemma NotField(c: Env, g: Program, s: Segs)
    requires EnvMatch(c, g) && AllSegs(s) && |s| <= 12
    ensures Print(s) in c.fields <==> s in g.fields
  {
    hide Print, ObjsMatch;
    KeyAgrees(c.fields.Keys, g.fields.Keys, s);
  }

  /** For a field it returns the field's bits, for a path bound to nothing it fails. */
  lemma EvaluateOther(c: Env, path: Path, args: seq<Value>, w: World)
    requires AllPlain(args) && WorldOk(w) && |path| < PATH_CAP
    ensures path in c.fields && Usable(c.regions, c.fields[path], w) ==>
              var f := c.fields[path];
              var n := Slice(Store(w, c.regions[f.region].space), FieldStart(c.regions, f), f.bitWidth);
              n < TWO64 && Evaluate(c, path, args, w) == Some(Int(n))
    ensures path !in c.fields && path !in c.entries ==> Evaluate(c, path, args, w).None?
  {
    hide EvaluateObject, FieldRead, Slice, Store, Covered, AllServed;
    if path in c.fields && Usable(c.regions, c.fields[path], w) { FieldReadIsSlice(c.regions, c.fields[path], w); }
  }

  /** A method that returns its argument `i` returns what the caller gave there, or nothing if the caller
      gave fewer. */
  lemma ArgumentPassed(c: Env, g: Program, s: Segs, argc: nat, args: seq<Value>, w: World, i: nat)
    requires EnvMatch(c, g) && AllPlain(args) && WorldOk(w) && AllSegs(s) && |s| <= 12
    requires s in g.objs && s !in g.fields && g.objs[s] == MethodObj(argc, [Return(Arg(i))]) && i < argc <= 7
    ensures |Print(s)| < PATH_CAP
    ensures Evaluate(c, Print(s), args, w) == Some(if i < |args| then args[i] else Uninit)
  {
    hide Evaluate, Print, EnvMatch;
    var t := TStart(s, CallArgs(args, argc), argc, w);
    ReturnsArg(g, t, i);
    EvaluateCorrect(c, g, s, args, w);
    assert PlainTree(Evaluate(c, Print(s), args, w).value) == PlainTree(CallArgs(args, argc)[i]);
  }

  lemma ReturnsArg(g: Program, t: TSt, i: nat)
    requires TOk(t) && i < t.argc
    ensures Run(g, [Return(Arg(i))], t, g.top) == Some(Out(Returned(t.args[i]), t))
  {
    assert RunOne(g, Return(Arg(i)), t, g.top) == Some(Out(Returned(t.args[i]), t));
  }
}
