/** How interpreter states represent tree states.

    A package value stands for a tree when its arena slots, element by element, stand for the
    tree's children and all of those slots are frozen. `F` is the set of frozen slots: the
    slots of finished packages. A slot reserved by a package still under construction is
    allocated but not frozen, so it may be written without disturbing any finished value. */
module Represent {
  import opened Bits
  import opened PkgLength
  import opened Names
  import opened Regions
  import opened Alu
  import opened Tables
  import opened Interp
  import opened Ast

  ghost predicate Rep(nodes: seq<Value>, F: set<nat>, v: Value, t: Tree)
    decreases t, 1
  {
    match t
    case TUninit => v == Uninit
    case TInt(n) => v == Int(n)
    case TStr(b) => v == Str(b)
    case TBuf(b) => v == Buf(b)
    case TPkg(es) =>
      && v.Pkg? && v.count == |es| && v.first + v.count <= |nodes|
      && forall i :: 0 <= i < |es| ==> RepSlot(nodes, F, v.first + i, es[i])
  }

  /** A frozen slot holds a value that stands for `t`. */
  ghost predicate RepSlot(nodes: seq<Value>, F: set<nat>, k: nat, t: Tree)
    decreases t, 2
  {
    k < |nodes| && k in F && Rep(nodes, F, nodes[k], t)
  }

  ghost predicate RepAll(nodes: seq<Value>, F: set<nat>, vs: seq<Value>, ts: seq<Tree>)
  {
    |vs| == |ts| && forall i :: 0 <= i < |ts| ==> Rep(nodes, F, vs[i], ts[i])
  }

  /** The slots in `F` hold the same values in both arenas. */
  ghost predicate SameOn(F: set<nat>, a: seq<Value>, b: seq<Value>)
  {
    forall k :: k in F ==> k < |a| && k < |b| && a[k] == b[k]
  }

  /** A finished value survives any change outside the frozen slots. */
  lemma {:induction false} RepMono(a: seq<Value>, F: set<nat>, b: seq<Value>, G: set<nat>, v: Value, t: Tree)
    requires Rep(a, F, v, t) && F <= G && SameOn(F, a, b) && |a| <= |b|
    ensures Rep(b, G, v, t)
    decreases t
  {
    if t.TPkg? {
      forall i | 0 <= i < |t.elems| ensures RepSlot(b, G, v.first + i, t.elems[i]) {
        assert RepSlot(a, F, v.first + i, t.elems[i]);
        RepMono(a, F, b, G, a[v.first + i], t.elems[i]);
      }
    }
  }

  lemma RepAllMono(a: seq<Value>, F: set<nat>, b: seq<Value>, G: set<nat>, vs: seq<Value>, ts: seq<Tree>)
    requires RepAll(a, F, vs, ts) && F <= G && SameOn(F, a, b) && |a| <= |b|
    ensures RepAll(b, G, vs, ts)
  {
    hide Rep;
    forall i | 0 <= i < |ts| ensures Rep(b, G, vs[i], ts[i]) { RepMono(a, F, b, G, vs[i], ts[i]); }
  }

  lemma RepInt(nodes: seq<Value>, F: set<nat>, v: Value, t: Tree)
    requires Rep(nodes, F, v, t)
    ensures AsInteger(v) == AsInt(t)
  {
  }

  /** The frozen slots after a term that allocated the slots `a .. b`. */
  ghost function Grow(F: set<nat>, a: nat, b: nat): (r: set<nat>)
    ensures F <= r
    ensures forall k :: k in r <==> k in F || a <= k < b
  {
    F + Span(a, b)
  }

  ghost function Span(a: nat, b: nat): (r: set<nat>)
    ensures forall k :: k in r <==> a <= k < b
    decreases b
  {
    if a >= b then {} else Span(a, b - 1) + {b - 1}
  }

  lemma GrowTwice(F: set<nat>, a: nat, b: nat, c: nat)
    requires a <= b <= c
    ensures Grow(Grow(F, a, b), b, c) == Grow(F, a, c)
  {
  }

  lemma GrowNone(F: set<nat>, a: nat)
    ensures Grow(F, a, a) == F
  {
  }

  /** The interpreter state stands for the tree state. */
  ghost predicate Data(st: St, t: TSt, F: set<nat>)
  {
    && Valid(st) && TOk(t) && !st.stuck
    && |st.nodes| == t.used && (forall k :: k in F ==> k < t.used)
    && RepAll(st.nodes, F, st.locals, t.locals) && RepAll(st.nodes, F, st.args, t.args)
    && st.argc == t.argc && st.world == t.world && st.depth == t.depth
    && st.scope == Print(t.scope) && AllSegs(t.scope) && |t.scope| <= 12
  }

  ghost predicate Running(st: St) { !st.returned && !st.brk && !st.cont }

  /** A finished value survives the evaluation of any other term. */
  lemma RepKept(a: seq<Value>, b: seq<Value>, F: set<nat>, n: nat, m: nat, v: Value, t: Tree)
    requires Rep(a, F, v, t) && a <= b && forall k :: k in F ==> k < |a|
    ensures Rep(b, Grow(F, n, m), v, t)
  {
    hide Rep;
    RepMono(a, F, b, Grow(F, n, m), v, t);
  }

  /** Only the expression-nesting counter differs. */
  lemma DataDepth(st: St, t: TSt, F: set<nat>, d: nat)
    requires Data(st, t, F) && d <= MAX_EXPR_DEPTH
    ensures Data(st.(exprDepth := d), t, F)
  {
  }

  lemma DataFlags(st: St, t: TSt, F: set<nat>, ret: Value, returned: bool, brk: bool, cont: bool)
    requires Data(st, t, F) && Inside(ret, |st.nodes|)
    ensures Data(st.(ret := ret, returned := returned, brk := brk, cont := cont), t, F)
  {
    hide RepAll, Print;
  }

  // ----- the environment stands for the program -----

  ghost predicate ObjMatch(c: Env, abs: Path, o: Obj)
  {
    && abs in c.entries
    && match o
       case OtherObj => c.entries[abs].kind == OtherKind
       case ForeignObj => true
       case NameObj(data, r) =>
         && c.entries[abs].kind == NameKind && RankOf(c, abs) == r
         && Wf(data) && Height(data) <= MAX_EXPR_DEPTH
         && NameValue(c.tables, c.entries[abs]).Some? && At(NameValue(c.tables, c.entries[abs]).value, 0, Enc(data))
       case MethodObj(argc, body) =>
         && c.entries[abs].kind == MethodKind && WfStmts(body)
         && MethodBody(c.tables, c.entries[abs]) == Some(Body(EncStmts(body), argc))
  }

  ghost predicate FieldsMatch(c: Env, g: Program)
  {
    && SameKeys(c.fields.Keys, g.fields.Keys)
    && forall s :: s in g.fields && AllSegs(s) && |s| <= 12 ==>
         Print(s) in c.fields && c.fields[Print(s)] == g.fields[s]
  }

  ghost predicate ObjsMatch(c: Env, g: Program)
  {
    && SameKeys(c.entries.Keys, g.objs.Keys)
    && forall s :: s in g.objs && AllSegs(s) && |s| <= 12 ==> ObjMatch(c, Print(s), g.objs[s])
  }

  /** The tables hold the program's objects under their printed paths, compiled unless foreign. */
  ghost predicate EnvMatch(c: Env, g: Program)
  {
    c.regions == g.regions && c.top == g.top && FieldsMatch(c, g) && ObjsMatch(c, g)
  }

  lemma UnionKeys(c: Env, g: Program)
    requires EnvMatch(c, g)
    ensures SameKeys(c.fields.Keys + c.entries.Keys, g.fields.Keys + g.objs.Keys)
  {
    hide Print, ObjMatch;
    forall ss: Segs | AllSegs(ss) && |ss| <= 12
      ensures Print(ss) in c.fields.Keys + c.entries.Keys <==> ss in g.fields.Keys + g.objs.Keys
    {
      KeyAgrees(c.fields.Keys, g.fields.Keys, ss);
      KeyAgrees(c.entries.Keys, g.objs.Keys, ss);
    }
  }

  lemma {:induction false} LookupFromShape(keys: set<Segs>, scope: Segs, segs: Segs, k: nat)
    requires AllSegs(scope) && AllSegs(segs) && k <= |scope|
    ensures var r := LookupFrom(keys, scope, segs, k);
            r.Some? ==> AllSegs(r.value) && |r.value| <= 12 && r.value in keys
    decreases k
  {
    if k > 1 { LookupFromShape(keys, scope, segs, k - 1); }
  }

  lemma LookupShape(keys: set<Segs>, scope: Segs, name: NameRef)
    requires AllSegs(scope) && AllSegs(name.segs)
    ensures var r := Lookup(keys, scope, name);
            r.Some? ==> AllSegs(r.value) && |r.value| <= 12 && r.value in keys
  {
    hide LookupFrom;
    LookupFromShape(keys, scope, name.segs, |scope|);
  }

  // ----- destinations -----

  /** A flat splice is what a field write does. */
  lemma SpliceBit(s: seq<Byte>, start: nat, width: nat, v: nat, k: nat)
    requires start + width <= 8 * |s|
    ensures StoreBit(Splice(s, start, width, v), k) <==>
              if start <= k < start + width then Bit(v, k - start) else StoreBit(s, k)
  {
    hide Bit, Or, And, Inv, Shl, Mask, Low, Le, ToLe;
    var hole := Shl(Mask(width), start);
    var x := And(Le(s), Inv(hole, 8 * |s|));
    var y := Shl(Low(v, width), start);
    ToLeRoundTrip(Or(x, y), |s|);
    BitLow(Or(x, y), 8 * |s|, k);
    BitOr(x, y, k);
    BitAnd(Le(s), Inv(hole, 8 * |s|), k);
    BitInv(hole, 8 * |s|, k);
    BitShl(Mask(width), start, k);
    BitShl(Low(v, width), start, k);
    if k >= start {
      BitMask(width, k - start);
      BitLow(v, width, k - start);
    }
    BitLe(s, k);
  }

  lemma SpliceIsReplaced(s: seq<Byte>, start: nat, width: nat, v: nat)
    requires start + width <= 8 * |s|
    ensures Replaced(s, Splice(s, start, width, v), start, 0, width, v)
  {
    hide Bit, StoreBit, Splice;
    forall k: nat ensures StoreBit(Splice(s, start, width, v), k) <==>
                            if start + 0 <= k < start + width then Bit(v, k - start) else StoreBit(s, k)
    {
      SpliceBit(s, start, width, v, k);
    }
  }

  /** The last bit of a usable field lies in its store. */
  lemma UsableInStore(regions: map<Path, RegionInfo>, f: FieldInfo, w: World)
    requires WorldOk(w) && Usable(regions, f, w)
    ensures FieldStart(regions, f) + f.bitWidth <= 8 * |Store(w, regions[f.region].space)|
  {
    hide Covered, Flat, UnitAddr;
    var ri := regions[f.region];
    var last := f.bitOffset + f.bitWidth - 1;
    CoveredAt(w, ri.space, ri.base, Acc(f), f.bitOffset, f.bitOffset + f.bitWidth, last);
    UnitOf(ri.base, last, Acc(f));
    assert Served(ri.space, Acc(f), last);
    FlatRead(w, ri.space, UnitAddr(ri.base, last, Acc(f)), Acc(f));
  }

  lemma SetFieldIsWrite(g: Program, f: FieldInfo, v: nat, w: World)
    requires WorldOk(w)
    ensures SetField(g, f, v, w) == FieldWrite(g.regions, f, v, w)
  {
    hide Covered, FieldWrite, Splice, Replaced;
    if Usable(g.regions, f, w) {
      var space := g.regions[f.region].space;
      var s, start := Store(w, space), FieldStart(g.regions, f);
      FieldWriteReplaces(g.regions, f, v, w);
      UsableInStore(g.regions, f, w);
      SpliceIsReplaced(s, start, f.bitWidth, v);
      SameReplacement(s, Splice(s, start, f.bitWidth, v), Store(FieldWrite(g.regions, f, v, w), space),
                      start, f.bitWidth, v);
    }
  }

  lemma GetFieldIsRead(g: Program, f: FieldInfo, w: World)
    requires WorldOk(w)
    ensures var r := FieldRead(g.regions, f, w); GetField(g, f, w) == TInt(if r.Some? then r.value else ONES)
  {
    hide FieldRead, Covered, Slice;
    if Usable(g.regions, f, w) { FieldReadIsSlice(g.regions, f, w); }
  }
}
