/** When evaluation ends: a Name may hold another Name, and evaluating the first evaluates the
    second without using up a call level or an arena slot.

    The interpreter's functions are total because a Name dereferenced from a Name of no higher
    rank sets `stuck` instead of recursing. Here: if the references from Name to Name go down a
    rank, no byte string whatsoever can set it; and if some Names refer to each other in a closed
    circle, each of them sets it under every ranking. One or the other is the case. */
module Acyclic {
  import opened Bits
  import opened PkgLength
  import opened Names
  import opened Regions
  import opened Alu
  import opened Tables
  import opened Interp
  import opened Ast
  import opened Represent
  import opened Simulate

  /** A Name with a value. */
  predicate HasValue(c: Env, abs: Path)
  {
    abs in c.entries && NameValue(c.tables, c.entries[abs]).Some?
  }

  function ValueOf(c: Env, abs: Path): (v: seq<Byte>)
    requires HasValue(c, abs)
  {
    NameValue(c.tables, c.entries[abs]).value
  }

  /** What a value that is a name is bound to, looked up from the Name that holds it. */
  function Denoted(c: Env, abs: Path): (r: Option<Path>)
    requires HasValue(c, abs)
    ensures r.Some? ==> |r.value| < PATH_CAP && (r.value in c.fields || r.value in c.entries)
  {
    var v := ValueOf(c, abs);
    if |v| == 0 || IsLeaf(v[0]) || !NameStart(v[0]) then None
    else match NameAt(v, 0, |v|)
      case None => None
      case Some(n) => Search(c.fields.Keys + c.entries.Keys, abs, n.name, 0)
  }

  /** The Name whose value the value of `abs` stands for, if it is one. */
  function Onward(c: Env, abs: Path): (r: Option<Path>)
    requires HasValue(c, abs)
    ensures r.Some? ==> HasValue(c, r.value) && |r.value| < PATH_CAP
  {
    match Denoted(c, abs)
    case None => None
    case Some(b) => if b in c.fields || !HasValue(c, b) then None else Some(b)
  }

  /** Where the length term of a Buffer or VarPackage stands. */
  predicate LeafLength(v: seq<Byte>)
  {
    |v| > 0 && (PkgAt(v, 1, |v|).Some? ==> 1 + PkgAt(v, 1, |v|).value.consumed < |v| ==>
        IsLeaf(v[1 + PkgAt(v, 1, |v|).value.consumed]))
  }

  /** The DataRefObjects of section 20.2.3 of ACPI 6.x, by how they begin: a constant or a string, a
      Buffer or a VarPackage of constant length, any Package, or a name that is not bound to a
      method with parameters. */
  predicate HoldsData(c: Env, abs: Path)
    requires HasValue(c, abs)
  {
    var v := ValueOf(c, abs);
    || |v| == 0 || IsLeaf(v[0]) || v[0] == 0x12
    || ((v[0] == 0x11 || v[0] == 0x13) && LeafLength(v))
    || (NameStart(v[0]) && (Denoted(c, abs).Some? ==> NoParameters(c, Denoted(c, abs).value)))
  }

  predicate NoParameters(c: Env, b: Path)
  {
    || b in c.fields
    || (b in c.entries
        && (MethodBody(c.tables, c.entries[b]).Some? ==> MethodBody(c.tables, c.entries[b]).value.argc == 0))
  }

  /** Every Name holds a data object. */
  ghost predicate Grammatical(c: Env) { forall abs :: HasValue(c, abs) ==> HoldsData(c, abs) }

  /** References from Name to Name go down the ranks. */
  ghost predicate Ranked(c: Env)
  {
    forall abs :: HasValue(c, abs) ==> RankOf(c, abs) < c.top && (Onward(c, abs).Some? ==>
        RankOf(c, Onward(c, abs).value) < RankOf(c, abs))
  }

  ghost predicate WellRanked(c: Env) { Grammatical(c) && Ranked(c) }

  // ----- circles of Names -----

  /** Each of these Names stands for another of them. */
  ghost predicate Circle(c: Env, s: set<Path>)
  {
    forall abs :: abs in s ==> HasValue(c, abs) && Onward(c, abs).Some? && Onward(c, abs).value in s
  }

  lemma OnwardEval(c: Env, abs: Path, st: St, rank: nat)
    requires HasValue(c, abs) && Onward(c, abs).Some? && Valid(st) && st.exprDepth < MAX_EXPR_DEPTH && st.scope == abs
    ensures var b := Onward(c, abs).value;
            var v := ValueOf(c, abs);
            if RankOf(c, b) >= rank then Eval(c, v, |v|, 0, st, rank).st.stuck
            else Eval(c, ValueOf(c, b), |ValueOf(c, b)|, 0, NameState(st, b), RankOf(c, b)).st.stuck ==>
                Eval(c, v, |v|, 0, st, rank).st.stuck
  {
    hide NameAt, NameStart, NameValue, EvalOp, Search;
    var b, v := Onward(c, abs).value, ValueOf(c, abs);
    var st1 := st.(exprDepth := st.exprDepth + 1);
    DispatchName(c, v, |v|, 0, st1, rank, NameAt(v, 0, |v|).value.name);
    assert NameState(st1, b) == NameState(st, b);
    NotMethod(c, b);
  }

  lemma NotMethod(c: Env, abs: Path)
    requires HasValue(c, abs)
    ensures c.entries[abs].kind != MethodKind
  {
  }

  /** In a circle of Names every one sticks, under every ranking and at every rank. */
  lemma {:induction false} CircleSticks(c: Env, s: set<Path>, abs: Path, st: St, rank: nat)
    requires Circle(c, s) && abs in s && Valid(st) && st.exprDepth < MAX_EXPR_DEPTH && st.scope == abs
    ensures Eval(c, ValueOf(c, abs), |ValueOf(c, abs)|, 0, st, rank).st.stuck
    decreases rank
  {
    hide Eval, Valid, Onward;
    OnwardEval(c, abs, st, rank);
    var b := Onward(c, abs).value;
    if RankOf(c, b) < rank { CircleSticks(c, s, b, NameState(st, b), RankOf(c, b)); }
  }

  // ----- a circle or a ranking -----

  /** How many Names follow `abs`, up to `n`. */
  function Chain(c: Env, abs: Path, n: nat): (k: nat)
    requires HasValue(c, abs)
    ensures k <= n
    decreases n
  {
    if n == 0 || Onward(c, abs).None? then 0 else 1 + Chain(c, Onward(c, abs).value, n - 1)
  }

  /** A chain that ends within `n` steps is as long for every larger bound. */
  lemma {:induction false} ChainEnds(c: Env, abs: Path, n: nat, m: nat)
    requires HasValue(c, abs) && Chain(c, abs, n) < n <= m
    ensures Chain(c, abs, m) == Chain(c, abs, n)
    decreases n
  {
    hide Onward;
    if Onward(c, abs).Some? { ChainEnds(c, Onward(c, abs).value, n - 1, m - 1); }
  }

  lemma {:induction false} ChainGrows(c: Env, abs: Path, n: nat)
    requires HasValue(c, abs) && Chain(c, abs, n + 1) == n + 1
    ensures Chain(c, abs, n) == n && Onward(c, abs).Some? && Chain(c, Onward(c, abs).value, n) == n
    decreases n
  {
    hide Onward;
    if n > 0 { ChainGrows(c, Onward(c, abs).value, n - 1); }
  }

  /** The Names followed by at least `n` others. */
  function Long(c: Env, n: nat): (s: set<Path>)
  {
    set abs | abs in c.entries && HasValue(c, abs) && Chain(c, abs, n) == n
  }

  /** The sets of ever longer chains stop shrinking. */
  lemma {:induction false} SomeSteady(c: Env, n: nat) returns (k: nat)
    ensures Long(c, k) == Long(c, k + 1)
    decreases |Long(c, n)|
  {
    hide Chain;
    if Long(c, n) == Long(c, n + 1) {
      k := n;
    } else {
      forall abs | abs in Long(c, n + 1) ensures abs in Long(c, n) { ChainGrows(c, abs, n); }
      Smaller(Long(c, n + 1), Long(c, n));
      k := SomeSteady(c, n + 1);
    }
  }

  lemma {:induction false} Smaller(a: set<Path>, b: set<Path>)
    requires a <= b && a != b
    ensures |a| < |b|
  {
    var x :| x in b && x !in a;
    SubsetSize(a, b - {x});
  }

  lemma {:induction false} SubsetSize(a: set<Path>, b: set<Path>)
    requires a <= b
    ensures |a| <= |b|
    decreases |a|
  {
    if a != {} {
      var x :| x in a;
      SubsetSize(a - {x}, b - {x});
    }
  }

  /** The same namespace under another ranking. */
  function Reranked(c: Env, rank: map<Path, nat>, top: nat): (r: Env) { c.(rank := rank, top := top) }

  /** What a Name stands for does not depend on the ranking. */
  lemma SameOnward(c: Env, rank: map<Path, nat>, top: nat, abs: Path)
    requires HasValue(c, abs)
    ensures var r := Reranked(c, rank, top);
            HasValue(r, abs) && Onward(r, abs) == Onward(c, abs) && HoldsData(r, abs) == HoldsData(c, abs)
  {
    hide NameAt, NameStart, NameValue, MethodBody, PkgAt, LeafLength;
  }

  /** The ranking by chain length. */
  function ByChain(c: Env, n: nat): (rank: map<Path, nat>)
  {
    map abs | abs in c.entries && HasValue(c, abs) :: Chain(c, abs, n)
  }

  /** Either some Names form a circle, or the namespace can be ranked. */
  lemma CircleOrRanking(c: Env) returns (s: set<Path>, n: nat)
    requires Grammatical(c)
    ensures Circle(c, s)
    ensures s == {} ==> WellRanked(Reranked(c, ByChain(c, n), n + 1))
  {
    hide Onward, HoldsData, Chain;
    n := SomeSteady(c, 0);
    s := Long(c, n);
    forall abs | abs in s ensures HasValue(c, abs) && Onward(c, abs).Some? && Onward(c, abs).value in s {
      assert abs in Long(c, n + 1);
      ChainGrows(c, abs, n);
    }
    if s == {} {
      var r := Reranked(c, ByChain(c, n), n + 1);
      forall abs | HasValue(r, abs)
        ensures HoldsData(r, abs) && RankOf(r, abs) < r.top && (Onward(r, abs).Some? ==>
                RankOf(r, Onward(r, abs).value) < RankOf(r, abs))
      {
        assert HasValue(c, abs);
        SameOnward(c, ByChain(c, n), n + 1, abs);
        if Onward(c, abs).Some? { ChainDown(c, abs, n); }
      }
    }
  }

  lemma ChainDown(c: Env, abs: Path, n: nat)
    requires HasValue(c, abs) && Onward(c, abs).Some? && Long(c, n) == {}
    ensures Chain(c, Onward(c, abs).value, n) < Chain(c, abs, n)
  {
    hide Onward;
    var b := Onward(c, abs).value;
    assert abs !in Long(c, n) && Chain(c, abs, n) < n;
    ChainEnds(c, b, n - 1, n);
  }

  // ----- no byte string gets stuck -----

  /** Evaluating any bytes at all, at the top rank. */
  lemma EvalFree(c: Env, p: seq<Byte>, len: nat, pos: nat, st: St)
    requires len <= |p| && Valid(st) && !st.stuck && WellRanked(c)
    ensures !Eval(c, p, len, pos, st, c.top).st.stuck
    decreases Fuel(st.depth, |st.nodes|), c.top, Left(len, pos), 9, 0
  {
    hide EvalOp, WellRanked;
    if st.exprDepth < MAX_EXPR_DEPTH && pos < len { OpFree(c, p, len, pos, st.(exprDepth := st.exprDepth + 1)); }
  }

  lemma OpFree(c: Env, p: seq<Byte>, len: nat, at: nat, st: St)
    requires at < len <= |p| && Valid(st) && !st.stuck && WellRanked(c)
    ensures !EvalOp(c, p, len, at, st, c.top).st.stuck
    decreases Fuel(st.depth, |st.nodes|), c.top, Left(len, at), 8, 0
  {
    hide Eval, EvalBuffer, EvalPackage, EvalBin, EvalDivide, EvalUn, EvalStep, EvalLogic, EvalLNot, EvalCopy, EvalOne,
      EvalIndex, EvalExt, EvalName, NameAt, Valid, WellRanked;
    var op := p[at];
    if op == 0x11 { BufferFree(c, p, len, at, st); }
    else if op == 0x12 || op == 0x13 { PackageFree(c, p, len, at, st); }
    else if BinOpOf(op).Some? || op == 0x78 || LogicOf(op).Some? || op == 0x92 { PairFree(c, p, len, at, st); }
    else if op == 0x88 || op == 0x5B { IndexFree(c, p, len, at, st); }
    else if NameStart(op) { NameFree(c, p, len, at, st); }
    else { SingleFree(c, p, len, at, st); }
  }

  lemma TwoFree(c: Env, p: seq<Byte>, len: nat, pos: nat, st: St)
    requires len <= |p| && Valid(st) && !st.stuck && WellRanked(c)
    ensures !EvalTwo(c, p, len, pos, st, c.top).st.stuck
    decreases Fuel(st.depth, |st.nodes|), c.top, Left(len, pos), 10, 0
  {
    hide Eval, Valid, WellRanked;
    EvalFree(c, p, len, pos, st);
    var x := Eval(c, p, len, pos, st, c.top);
    if x.ok { EvalFree(c, p, len, x.pos, x.st); }
  }

  lemma BufferFree(c: Env, p: seq<Byte>, len: nat, at: nat, st: St)
    requires at < len <= |p| && Valid(st) && !st.stuck && WellRanked(c)
    ensures !EvalBuffer(c, p, len, at, st, c.top).st.stuck
    decreases Fuel(st.depth, |st.nodes|), c.top, Left(len, at), 7, 0
  {
    hide Eval, Valid, WellRanked, PkgAt;
    var d := PkgAt(p, at + 1, len);
    if d.Some? && d.value.len <= len - (at + 1) { EvalFree(c, p, len, at + 1 + d.value.consumed, st); }
  }

  lemma PackageFree(c: Env, p: seq<Byte>, len: nat, at: nat, st: St)
    requires at < len <= |p| && Valid(st) && !st.stuck && WellRanked(c)
    ensures !EvalPackage(c, p, len, at, st, c.top).st.stuck
    decreases Fuel(st.depth, |st.nodes|), c.top, Left(len, at), 7, 0
  {
    hide Eval, Valid, WellRanked, PkgAt, Build, AsInteger;
    var pos := at + 1;
    var d := PkgAt(p, pos, len);
    if d.Some? && d.value.len <= len - pos {
      if p[at] != 0x12 { EvalFree(c, p, len, pos + d.value.consumed, st); }
      var n := ElementCount(c, p, len, pos + d.value.consumed, st, c.top, p[at] == 0x12);
      if n.ok { BuildFree(c, p, pos + d.value.len, n.pos, n.st, AsInteger(n.val)); }
    }
  }

  lemma BuildFree(c: Env, p: seq<Byte>, end: nat, pos: nat, st: St, n: nat)
    requires end <= |p| && Valid(st) && !st.stuck && WellRanked(c)
    ensures !Build(c, p, end, pos, st, c.top, n).st.stuck
    decreases Fuel(st.depth, |st.nodes|), c.top, Left(end, pos), 11, 0
  {
    hide FillSlots, Valid, WellRanked;
    var st1 := Reserve(st, n);
    if |st1.nodes| > |st.nodes| { FillFree(c, p, end, pos, st1, |st.nodes|, 0, |st1.nodes| - |st.nodes|); }
  }

  lemma FillFree(c: Env, p: seq<Byte>, end: nat, pos: nat, st: St, first: nat, e: nat, count: nat)
    requires end <= |p| && e <= count && first + count <= |st.nodes| && Valid(st) && !st.stuck && WellRanked(c)
    ensures !FillSlots(c, p, end, pos, st, c.top, first, e, count).stuck
    decreases Fuel(st.depth, |st.nodes|), c.top, Left(end, pos), 10, count - e
  {
    hide Eval, Valid, WellRanked;
    if e < count && pos < end {
      EvalFree(c, p, end, pos, st);
      var r := Eval(c, p, end, pos, st, c.top);
      FillFree(c, p, end, r.pos, SetNode(r.st, first + e, if r.ok then r.val else Uninit), first, e + 1, count);
    }
  }

  lemma PairFree(c: Env, p: seq<Byte>, len: nat, at: nat, st: St)
    requires at < len <= |p| && (BinOpOf(p[at]).Some? || p[at] == 0x78 || LogicOf(p[at]).Some? || p[at] == 0x92)
    requires Valid(st) && !st.stuck && WellRanked(c)
    ensures !EvalOp(c, p, len, at, st, c.top).st.stuck
    decreases Fuel(st.depth, |st.nodes|), c.top, Left(len, at), 7, 0
  {
    hide Eval, EvalTwo, EvalLNot, Finish, FinishTwo, Valid, WellRanked, Apply, Quotient;
    if p[at] == 0x92 {
      LNotFree(c, p, len, at, st);
      Dispatch(c, p, len, at, st, c.top);
    } else {
      TwoFree(c, p, len, at + 1, st);
    }
  }

  lemma LNotFree(c: Env, p: seq<Byte>, len: nat, at: nat, st: St)
    requires at < len <= |p| && Valid(st) && !st.stuck && WellRanked(c)
    ensures !EvalLNot(c, p, len, at, st, c.top).st.stuck
    decreases Fuel(st.depth, |st.nodes|), c.top, Left(len, at), 6, 0
  {
    hide Eval, EvalTwo, Valid, WellRanked, AsInteger, Alu.Holds;
    if at + 1 < len && 0x93 <= p[at + 1] <= 0x95 { TwoFree(c, p, len, at + 2, st); }
        else { EvalFree(c, p, len, at + 1, st); }
  }

  lemma SingleFree(c: Env, p: seq<Byte>, len: nat, at: nat, st: St)
    requires at < len <= |p| && !NameStart(p[at]) && p[at] !in {0x11, 0x12, 0x13, 0x78, 0x92, 0x88, 0x5B}
    requires BinOpOf(p[at]).None? && LogicOf(p[at]).None? && Valid(st) && !st.stuck && WellRanked(c)
    ensures !EvalOp(c, p, len, at, st, c.top).st.stuck
    decreases Fuel(st.depth, |st.nodes|), c.top, Left(len, at), 7, 0
  {
    hide Eval, EvalTwo, Finish, Valid, WellRanked, ApplyUn, AsInteger;
    EvalFree(c, p, len, at + 1, st);
  }

  lemma IndexFree(c: Env, p: seq<Byte>, len: nat, at: nat, st: St)
    requires at < len <= |p| && (p[at] == 0x88 || p[at] == 0x5B) && Valid(st) && !st.stuck && WellRanked(c)
    ensures !EvalOp(c, p, len, at, st, c.top).st.stuck
    decreases Fuel(st.depth, |st.nodes|), c.top, Left(len, at), 7, 0
  {
    hide Eval, Finish, Valid, WellRanked, AsInteger, Element, TargetOf, NameAt, Search;
    if p[at] == 0x88 {
      TwoFree(c, p, len, at + 1, st);
    } else if at + 1 < len {
      EvalFree(c, p, len, at + 2, st);
    }
  }

  lemma NameFree(c: Env, p: seq<Byte>, len: nat, at: nat, st: St)
    requires at < len <= |p| && NameStart(p[at]) && Valid(st) && !st.stuck && WellRanked(c)
    ensures !EvalOp(c, p, len, at, st, c.top).st.stuck
    decreases Fuel(st.depth, |st.nodes|), c.top, Left(len, at), 7, 0
  {
    hide Eval, EvalOp, EvalName, Valid, WellRanked, NameAt;
    var n := NameAt(p, at, len);
    if n.Some? {
      DispatchName(c, p, len, at, st, c.top, n.value.name);
      AnyNameFree(c, p, len, at, n.value.next, n.value.name, st);
    } else {
      NoNameStays(c, p, len, at, st, c.top);
    }
  }

  lemma NoNameStays(c: Env, p: seq<Byte>, len: nat, at: nat, st: St, r: nat)
    requires at < len <= |p| && Valid(st) && NameStart(p[at]) && NameAt(p, at, len).None?
    ensures EvalOp(c, p, len, at, st, r).st == st
  {
    hide NameAt, Valid;
  }

  lemma AnyNameFree(c: Env, p: seq<Byte>, len: nat, at: nat, pos: nat, name: NameRef, st: St)
    requires at < pos <= len <= |p| && Valid(st) && !st.stuck && WellRanked(c)
    ensures !EvalName(c, p, len, at, pos, name, st, c.top).st.stuck
    decreases Fuel(st.depth, |st.nodes|), c.top, Left(len, at), 6, 0
  {
    hide Eval, Invoke, Valid, Search, FieldRead, NameValue;
    var abs := Search(c.fields.Keys + c.entries.Keys, st.scope, name, 0);
    if abs.Some? && abs.value !in c.fields {
      if c.entries[abs.value].kind == MethodKind {
        InvokeFree(c, p, len, at, pos, abs.value, st);
      } else if HasValue(c, abs.value) {
        ValueFree(c, abs.value, NameState(st, abs.value));
      }
    }
  }

  lemma InvokeFree(c: Env, p: seq<Byte>, len: nat, at: nat, pos: nat, abs: Path, st: St)
    requires at < pos <= len <= |p| && abs in c.entries && |abs| < PATH_CAP && Valid(st) && !st.stuck && WellRanked(c)
    ensures !Invoke(c, p, len, at, pos, abs, st, c.top).st.stuck
    decreases Fuel(st.depth, |st.nodes|), c.top, Left(len, at), 5, 0
  {
    hide Eval, EvalArgs, Exec, Valid, WellRanked, MethodBody;
    var m := MethodBody(c.tables, c.entries[abs]);
    if st.depth < MAX_CALL_DEPTH && m.Some? {
      ArgsFree(c, p, len, pos, st, m.value.argc);
      var a := EvalArgs(c, p, len, pos, st, c.top, m.value.argc);
      if a.ok { BodyFree(c, abs, m.value, a.vals, a.st); }
    }
  }

  lemma BodyFree(c: Env, abs: Path, m: Body, args: seq<Value>, st: St)
    requires |abs| < PATH_CAP && st.depth < MAX_CALL_DEPTH && |args| <= 7 && m.argc <= 7 && AllInside(args, |st.nodes|)
    requires Valid(st) && !st.stuck && WellRanked(c)
    ensures !RunBody(c, abs, m, args, st).st.stuck
    decreases Fuel(st.depth, |st.nodes|), 0, 0, 0, 0
  {
    hide Exec, Valid, WellRanked;
    ExecFree(c, m.code, |m.code|, 0, |m.code|, CallState(st, abs, args, m.argc));
  }

  lemma ArgsFree(c: Env, p: seq<Byte>, len: nat, pos: nat, st: St, n: nat)
    requires pos <= len <= |p| && Valid(st) && !st.stuck && WellRanked(c)
    ensures !EvalArgs(c, p, len, pos, st, c.top, n).st.stuck
    decreases Fuel(st.depth, |st.nodes|), c.top, Left(len, pos), 10, n
  {
    hide Eval, Valid, WellRanked;
    if n > 0 {
      EvalFree(c, p, len, pos, st);
      var x := Eval(c, p, len, pos, st, c.top);
      if x.ok { ArgsFree(c, p, len, x.pos, x.st, n - 1); }
    }
  }

  /** Running any bytes as statements. */
  lemma ExecFree(c: Env, p: seq<Byte>, len: nat, pos: nat, end: nat, st: St)
    requires end <= len <= |p| && Valid(st) && !st.stuck && WellRanked(c)
    ensures !Exec(c, p, len, pos, end, st, c.top).st.stuck
    decreases Fuel(st.depth, |st.nodes|), c.top, Left(len, pos), 11, 0
  {
    hide ExecOne, Valid, WellRanked;
    if pos < end && !st.returned && !st.brk && !st.cont {
      OneFree(c, p, len, pos, end, st);
      var s := ExecOne(c, p, len, pos, end, st, c.top);
      if s.ok { ExecFree(c, p, len, s.pos, end, s.st); }
    }
  }

  lemma OneFree(c: Env, p: seq<Byte>, len: nat, at: nat, end: nat, st: St)
    requires at < end <= len <= |p| && Valid(st) && !st.stuck && WellRanked(c)
    ensures !ExecOne(c, p, len, at, end, st, c.top).st.stuck
    decreases Fuel(st.depth, |st.nodes|), c.top, Left(len, at), 10, 0
  {
    hide Eval, ExecIf, ExecWhile, Valid, WellRanked, PkgAt;
    if p[at] == 0xA0 { IfFree(c, p, len, at, end, st); }
    else if p[at] == 0xA2 { WhileFree(c, p, len, at, st); }
    else {
      EvalFree(c, p, len, at, st);
      EvalFree(c, p, len, at + 1, st);
      var x := Eval(c, p, len, at + 1, st, c.top);
      EvalFree(c, p, len, x.pos, x.st);
    }
  }

  lemma IfFree(c: Env, p: seq<Byte>, len: nat, at: nat, end: nat, st: St)
    requires at < end <= len <= |p| && Valid(st) && !st.stuck && WellRanked(c)
    ensures !ExecIf(c, p, len, at, end, st, c.top).st.stuck
    decreases Fuel(st.depth, |st.nodes|), c.top, Left(len, at), 9, 0
  {
    hide Eval, Exec, AfterIf, Valid, WellRanked, PkgAt, AsInteger;
    var pos := at + 1;
    var d := PkgAt(p, pos, len);
    if d.Some? && d.value.len <= len - pos {
      var ifEnd := pos + d.value.len;
      EvalFree(c, p, ifEnd, pos + d.value.consumed, st);
      var x := Eval(c, p, ifEnd, pos + d.value.consumed, st, c.top);
      if x.ok {
        ExecFree(c, p, len, x.pos, ifEnd, x.st);
        var taken := AsInteger(x.val) != 0;
        var y := if taken then Exec(c, p, len, x.pos, ifEnd, x.st, c.top) else X(true, x.st);
        if y.ok { AfterFree(c, p, len, ifEnd, end, y.st, !taken); }
      }
    }
  }

  lemma AfterFree(c: Env, p: seq<Byte>, len: nat, at: nat, end: nat, st: St, taken: bool)
    requires at <= len && end <= len <= |p| && Valid(st) && !st.stuck && WellRanked(c)
    ensures !AfterIf(c, p, len, at, end, st, c.top, taken).st.stuck
    decreases Fuel(st.depth, |st.nodes|), c.top, Left(len, at), 9, 0
  {
    hide Exec, Valid, WellRanked, PkgAt;
    if at < end && p[at] == 0xA1 {
      var d := PkgAt(p, at + 1, len);
      if d.Some? && d.value.len <= len - (at + 1) {
        ExecFree(c, p, len, at + 1 + d.value.consumed, at + 1 + d.value.len, st);
      }
    }
  }

  lemma WhileFree(c: Env, p: seq<Byte>, len: nat, at: nat, st: St)
    requires at < len <= |p| && Valid(st) && !st.stuck && WellRanked(c)
    ensures !ExecWhile(c, p, len, at, st, c.top).st.stuck
    decreases Fuel(st.depth, |st.nodes|), c.top, Left(len, at), 9, 0
  {
    hide Loop, Valid, WellRanked, PkgAt;
    var d := PkgAt(p, at + 1, len);
    if d.Some? && d.value.len <= len - (at + 1) {
      LoopFree(c, p, len, at + 1 + d.value.consumed, at + 1 + d.value.len, st, LOOP_CAP);
    }
  }

  lemma LoopFree(c: Env, p: seq<Byte>, len: nat, body: nat, wEnd: nat, st: St, n: nat)
    requires wEnd <= len <= |p| && Valid(st) && !st.stuck && WellRanked(c)
    ensures !Loop(c, p, len, body, wEnd, st, c.top, n).st.stuck
    decreases Fuel(st.depth, |st.nodes|), c.top, Left(len, body), 12, n
  {
    hide Eval, Exec, Valid, WellRanked, AsInteger;
    if n > 0 {
      EvalFree(c, p, wEnd, body, st);
      var x := Eval(c, p, wEnd, body, st, c.top);
      if x.ok && AsInteger(x.val) != 0 {
        ExecFree(c, p, len, x.pos, wEnd, x.st);
        var y := Exec(c, p, len, x.pos, wEnd, x.st, c.top);
        if y.ok && !y.st.returned && !y.st.brk {
          ClearCont(y.st);
          LoopFree(c, p, len, body, wEnd, y.st.(cont := false), n - 1);
        }
      }
    }
  }

  lemma ClearCont(st: St)
    requires Valid(st)
    ensures Valid(st.(cont := false))
  {
  }

  // ----- the values of Names -----

  lemma LeafEval(c: Env, p: seq<Byte>, len: nat, pos: nat, st: St, r: nat)
    requires len <= |p| && Valid(st) && (pos < len ==> IsLeaf(p[pos]))
    ensures Eval(c, p, len, pos, st, r).st == st
  {
    hide EvalLeaf;
    if pos < len && st.exprDepth < MAX_EXPR_DEPTH {
      var st1 := st.(exprDepth := st.exprDepth + 1);
      Dispatch(c, p, len, pos, st1, r);
      LeafState(p, len, pos, st1);
    }
  }

  lemma LeafState(p: seq<Byte>, len: nat, at: nat, st: St)
    requires at < len <= |p| && Valid(st) && IsLeaf(p[at])
    ensures EvalLeaf(p, len, at, st).st == st
  {
  }

  /** Evaluating a Name's value at the Name's own rank. */
  lemma ValueFree(c: Env, abs: Path, st: St)
    requires HasValue(c, abs) && Valid(st) && !st.stuck && WellRanked(c) && st.scope == abs
    ensures !Eval(c, ValueOf(c, abs), |ValueOf(c, abs)|, 0, st, RankOf(c, abs)).st.stuck
    decreases Fuel(st.depth, |st.nodes|), RankOf(c, abs), 0, 9, 0
  {
    hide EvalOp, HasValue, ValueOf, WellRanked;
    if |ValueOf(c, abs)| > 0 && st.exprDepth < MAX_EXPR_DEPTH {
      ValueOpFree(c, abs, st.(exprDepth := st.exprDepth + 1));
    }
  }

  lemma ValueOpFree(c: Env, abs: Path, st: St)
    requires HasValue(c, abs) && Valid(st) && !st.stuck && WellRanked(c) && st.scope == abs && |ValueOf(c, abs)| > 0
    ensures !EvalOp(c, ValueOf(c, abs), |ValueOf(c, abs)|, 0, st, RankOf(c, abs)).st.stuck
    decreases Fuel(st.depth, |st.nodes|), RankOf(c, abs), 0, 8, 1
  {
    hide Eval, EvalOp, EvalLeaf, NameValue, Denoted, NameAt, LeafLength, Valid, Ranked;
    var v, r := ValueOf(c, abs), RankOf(c, abs);
    assert HoldsData(c, abs);
    if IsLeaf(v[0]) {
      Dispatch(c, v, |v|, 0, st, r);
      LeafState(v, |v|, 0, st);
    } else if v[0] == 0x11 {
      BufferValueFree(c, v, st, r);
    } else if v[0] == 0x12 || v[0] == 0x13 {
      PackageValueFree(c, v, st, r);
    } else {
      NameValueFree(c, abs, st);
    }
  }

  lemma BufferValueFree(c: Env, v: seq<Byte>, st: St, r: nat)
    requires Valid(st) && !st.stuck && LeafLength(v) && v[0] == 0x11
    ensures !EvalOp(c, v, |v|, 0, st, r).st.stuck
  {
    hide Eval, EvalOp, Valid, PkgAt, BufferBytes, AsInteger;
    Dispatch(c, v, |v|, 0, st, r);
    var d := PkgAt(v, 1, |v|);
    if d.Some? { LeafEval(c, v, |v|, 1 + d.value.consumed, st, r); }
  }

  /** The elements have used up slots, so they are evaluated like any other bytes. */
  lemma PackageValueFree(c: Env, v: seq<Byte>, st: St, r: nat)
    requires Valid(st) && !st.stuck && WellRanked(c) && |v| > 0 && (v[0] == 0x12 || (v[0] == 0x13 && LeafLength(v)))
    ensures !EvalOp(c, v, |v|, 0, st, r).st.stuck
    decreases Fuel(st.depth, |st.nodes|), r, 0, 8, 0
  {
    hide Eval, EvalOp, Valid, PkgAt, AsInteger, FillSlots, Reserve, WellRanked;
    Dispatch(c, v, |v|, 0, st, r);
    var d := PkgAt(v, 1, |v|);
    if d.Some? && d.value.len <= |v| - 1 {
      var q, end := 1 + d.value.consumed, 1 + d.value.len;
      if v[0] == 0x13 { LeafEval(c, v, |v|, q, st, r); }
      var n := ElementCount(c, v, |v|, q, st, r, v[0] == 0x12);
      if n.ok {
        assert n.st == st;
        var st1 := Reserve(st, AsInteger(n.val));
        if |st1.nodes| > |st.nodes| {
          FillFree(c, v, end, n.pos, st1, |st.nodes|, 0, |st1.nodes| - |st.nodes|);
        }
      }
    }
  }

  lemma NameValueFree(c: Env, abs: Path, st: St)
    requires HasValue(c, abs) && Valid(st) && !st.stuck && WellRanked(c) && st.scope == abs
    requires var v := ValueOf(c, abs); |v| > 0 && !IsLeaf(v[0]) && v[0] !in {0x11, 0x12, 0x13} && HoldsData(c, abs)
    ensures !EvalOp(c, ValueOf(c, abs), |ValueOf(c, abs)|, 0, st, RankOf(c, abs)).st.stuck
    decreases Fuel(st.depth, |st.nodes|), RankOf(c, abs), 0, 8, 0
  {
    hide Eval, EvalOp, NameValue, NameStart, NameAt, Valid, RunBody, Search, FieldRead, MethodBody, Invoke;
    var v, r := ValueOf(c, abs), RankOf(c, abs);
    var n := NameAt(v, 0, |v|);
    if n.None? {
      NoNameStays(c, v, |v|, 0, st, r);
    } else {
      DispatchName(c, v, |v|, 0, st, r, n.value.name);
      var b := Denoted(c, abs);
      if b.Some? && b.value !in c.fields {
        if c.entries[b.value].kind == MethodKind {
          InvokeNoArgs(c, v, |v|, 0, n.value.next, b.value, st, r);
          var m := MethodBody(c.tables, c.entries[b.value]);
          if st.depth < MAX_CALL_DEPTH && m.Some? { BodyFree(c, b.value, m.value, [], st); }
        } else if HasValue(c, b.value) {
          ValueFree(c, b.value, NameState(st, b.value));
        }
      }
    }
  }

  lemma InvokeNoArgs(c: Env, p: seq<Byte>, len: nat, at: nat, pos: nat, abs: Path, st: St, r: nat)
    requires at < pos <= len <= |p| && Valid(st) && abs in c.entries && |abs| < PATH_CAP
    requires MethodBody(c.tables, c.entries[abs]).Some? ==> MethodBody(c.tables, c.entries[abs]).value.argc == 0
    ensures var m := MethodBody(c.tables, c.entries[abs]);
            Invoke(c, p, len, at, pos, abs, st, r).st.stuck ==
            (if st.depth >= MAX_CALL_DEPTH || m.None? then st.stuck else RunBody(c, abs, m.value, [], st).st.stuck)
  {
    hide RunBody, Valid, MethodBody, Eval;
    var m := MethodBody(c.tables, c.entries[abs]);
    if m.Some? { assert EvalArgs(c, p, len, pos, st, r, m.value.argc) == Args(true, pos, [], st); }
  }

  // ----- exactly when evaluation ends -----

  /** Evaluating any bytes in any state ends by the interpreter's own limits. */
  ghost predicate Ends(c: Env)
  {
    forall p: seq<Byte>, pos: nat, st: St ::
      Valid(st) && !st.stuck ==> !Eval(c, p, |p|, pos, st, c.top).st.stuck
  }

  lemma EndsWhenRanked(c: Env)
    requires WellRanked(c)
    ensures Ends(c)
  {
    hide Eval, Valid, WellRanked;
    forall p: seq<Byte>, pos: nat, st: St | Valid(st) && !st.stuck
      ensures !Eval(c, p, |p|, pos, st, c.top).st.stuck
    {
      EvalFree(c, p, |p|, pos, st);
    }
  }

  /** A circle stays one under every ranking. */
  lemma CircleStays(c: Env, rank: map<Path, nat>, top: nat, s: set<Path>)
    requires Circle(c, s)
    ensures Circle(Reranked(c, rank, top), s)
  {
    hide HasValue, Onward, HoldsData;
    forall abs | abs in s
      ensures HasValue(Reranked(c, rank, top), abs) && Onward(Reranked(c, rank, top), abs) == Onward(c, abs)
    {
      SameOnward(c, rank, top, abs);
    }
  }

  lemma CircleNeverEnds(c: Env, s: set<Path>, abs: Path)
    requires Circle(c, s) && abs in s
    ensures !Ends(c)
  {
    hide Eval, Onward;
    var b := Onward(c, abs).value;
    var slots: seq<Value> := seq(8, i => Uninit);
    var world := World(seq(DIRECT_MAP + 7, i => 0), seq(IO_PORTS + 3, i => 0), seq(256, i => 0), false);
    var st := St([], world, slots[..7], 0, slots, Uninit, false, false, false, 0, 0, b, false);
    CircleSticks(c, s, b, st, c.top);
  }

  /** Evaluation ends for every byte string, under some ranking, exactly when no Names refer to each
      other in a circle. */
  lemma EndsIffNoCircle(c: Env)
    requires Grammatical(c)
    ensures (exists rank, top :: Ends(Reranked(c, rank, top))) <==> (forall s :: Circle(c, s) ==> s == {})
  {
    hide Ends, Circle, WellRanked, Grammatical;
    forall rank, top, s | Ends(Reranked(c, rank, top)) && Circle(c, s) && s != {} ensures false {
      var abs :| abs in s;
      CircleStays(c, rank, top, s);
      CircleNeverEnds(Reranked(c, rank, top), s, abs);
    }
    var s, n := CircleOrRanking(c);
    if s == {} { EndsWhenRanked(Reranked(c, ByChain(c, n), n + 1)); }
  }
}
