/** The public entry points as they run: allocate an arena, seed a state, evaluate, flatten. */
module Driver {
  import opened Bits
  import opened Names
  import opened Regions
  import opened Tables
  import opened Interp
  import opened Api
  import M = Machine

  /** Copy outside arguments into the array a method runs over. */
  method CopyArgs(args: seq<Value>, argc: nat) returns (ca: array<Value>)
    requires AllPlain(args) && argc <= 7
    ensures fresh(ca) && ca.Length == 7 && ca[..] == CallArgs(args, argc)
  {
    ca := new Value[7](i => Uninit);
    var i := 0;
    while i < argc && i < 7
      invariant i <= argc
      invariant forall j :: 0 <= j < 7 ==> ca[j] == if j < i && j < |args| then args[j] else Uninit
    {
      ca[i] := if i < |args| then args[i] else Uninit;
      i := i + 1;
    }
  }

  /** AmlEvaluateRaw. The body may store into the caller's argument array, which holds as many slots as
      the caller gave it. */
  method AmlEvaluateRaw(env: Env, bus: Bus, aml: seq<Byte>, args: array<Value>, argc: nat)
    returns (ok: bool, out: Value)
    requires WorldOk(bus.world) && AllPlain(args[..])
    modifies bus, args
    ensures var n := Min(argc, 7);
            var r := RawRun(env, aml, CallArgs(old(args[..]), 7), n, old(bus.world));
            && ok == r.ok && bus.world == r.st.world
            && (ok ==> EvaluateRaw(env, aml, CallArgs(old(args[..]), 7), n, old(bus.world)) == Some(Answer(out, r.st)))
            && forall i :: 0 <= i < args.Length ==> args[i] == if i < 7 then r.st.args[i] else old(args[i])
  {
    hide Exec;
    var n := Min(argc, 7);
    var arena := new M.Arena();
    var ca := CopyArgs(args[..], 7);
    var st := new M.EvalState(arena, bus, ca, n, [BACKSLASH], 0);
    assert st.View() == Start([BACKSLASH], CallArgs(old(args[..]), 7), n, old(bus.world));
    ok := st.ExecTermList(env, aml, |aml|, 0, |aml|, env.top);
    out := if st.returned then st.ret else Uninit;
    ghost var r := RawRun(env, aml, CallArgs(old(args[..]), 7), n, old(bus.world));
    assert r == X(ok, st.View());
    for i := 0 to Min(args.Length, 7)
      modifies args
      invariant forall j :: 0 <= j < args.Length ==> args[j] == if j < i then r.st.args[j] else old(args[j])
    {
      args[i] := ca[i];
    }
  }

  /** Evaluate the Method or Name at `path` over a fresh arena. */
  method EvaluateEntry(env: Env, bus: Bus, path: Path, args: seq<Value>) returns (ok: bool, out: Value, arena: M.Arena)
    requires WorldOk(bus.world) && AllPlain(args) && |path| < PATH_CAP && path in env.entries
    modifies bus
    ensures WorldOk(bus.world) && arena.Ok()
    ensures var r := EvaluateObject(env, path, args, old(bus.world));
            && ok == r.Some? && bus.world == ObjectWorld(env, path, args, old(bus.world))
            && (ok ==>
                  && out == r.value.val && arena.nodes[..arena.used] == r.value.st.nodes
                  && bus.world == r.value.st.world)
  {
    hide Exec, Eval, MethodBody, NameValue, CallArgs;
    arena := new M.Arena();
    ok, out := false, Uninit;
    var e := env.entries[path];
    if e.kind == MethodKind {
      var sliced, code, argc := AmlMethodBody(env.tables, e);
      if !sliced { return; }
      var ca := CopyArgs(args, argc);
      var st := new M.EvalState(arena, bus, ca, argc, path, 0);
      assert st.View() == Start(path, CallArgs(args, argc), argc, old(bus.world));
      ok := st.ExecTermList(env, code, |code|, 0, |code|, env.top);
      out := if st.returned then st.ret else Uninit;
    } else {
      var present, d := AmlNameValue(env.tables, e);
      if !present { return; }
      var ca := CopyArgs(args, 7);
      var st := new M.EvalState(arena, bus, ca, Min(|args|, 7), path, 0);
      assert st.View() == Start(path, CallArgs(args, 7), Min(|args|, 7), old(bus.world));
      var next;
      ok, next, out := st.EvalTermArg(env, d, |d|, 0, env.top);
    }
  }

  /** AmlEvaluate. */
  method AmlEvaluate(env: Env, bus: Bus, path: Path, args: seq<Value>) returns (ok: bool, out: Value)
    requires WorldOk(bus.world) && AllPlain(args) && |path| < PATH_CAP
    modifies bus
    ensures bus.world == if path in env.fields then old(bus.world) else ObjectWorld(env, path, args, old(bus.world))
    ensures ok == Evaluate(env, path, args, old(bus.world)).Some?
    ensures ok ==> Evaluate(env, path, args, old(bus.world)) == Some(out)
  {
    hide EvaluateObject, FieldRead;
    ok, out := false, Uninit;
    if path in env.fields {
      var readable, v := bus.ReadField(env.regions, env.fields[path]);
      return readable, Int(v);
    }
    if path !in env.entries { return; }
    var arena;
    ok, out, arena := EvaluateEntry(env, bus, path, args);
  }

  /** AmlEvaluatePackageInts: flatten while the arena is still alive. */
  method AmlEvaluatePackageInts(env: Env, bus: Bus, path: Path, cap: nat, args: seq<Value>)
    returns (ok: bool, out: seq<U64>)
    requires WorldOk(bus.world) && AllPlain(args) && |path| < PATH_CAP
    modifies bus
    ensures bus.world == ObjectWorld(env, path, args, old(bus.world))
    ensures ok == PackageInts(env, path, cap, args, old(bus.world)).Some?
    ensures ok ==> PackageInts(env, path, cap, args, old(bus.world)) == Some(out)
  {
    hide EvaluateObject;
    ok, out := false, [];
    if path !in env.entries { return; }
    var good, r, arena := EvaluateEntry(env, bus, path, args);
    if !good || !r.Pkg? { return; }
    var n := if r.count < cap then r.count else cap;
    var buf := new U64[n](i => 0);
    ghost var a := EvaluateObject(env, path, args, old(bus.world)).value;
    for i := 0 to n
      modifies buf
      invariant forall j :: 0 <= j < i ==> buf[j] == Api.Flat(a.st.nodes[r.first + j])
    {
      var el := arena.nodes[r.first + i];
      assert el == arena.nodes[..arena.used][r.first + i];
      buf[i] := if el.Int? || el.Buf? then AsInteger(el) else 0;
    }
    assert buf[..] == seq<U64>(n, i requires 0 <= i < n => Api.Flat(a.st.nodes[r.first + i]));
    return true, buf[..];
  }
}
