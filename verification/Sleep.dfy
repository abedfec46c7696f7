/** The sleep-state reader: it decodes `\_Sx` packages straight from table bytes, without the
    evaluator, and exactly when the two agree. */
module Sleep {
  import opened Bits
  import opened PkgLength
  import opened Names
  import opened Regions
  import opened Tables
  import opened Interp
  import opened Simulate
  import opened Api

  datatype SleepTypes = SleepTypes(a: Byte, b: Byte)
  datatype Element8 = Element8(v: Byte, next: nat)

  /** A byte-sized integer element: ZeroOp, OneOp or BytePrefix. */
  function ByteElement(aml: seq<Byte>, p: nat): (r: Option<Element8>)
    ensures r.Some? ==> p < r.value.next <= |aml|
  {
    if p >= |aml| then None
    else if aml[p] == 0 then Some(Element8(0, p + 1))
    else if aml[p] == 1 then Some(Element8(1, p + 1))
    else if aml[p] == 0x0A && p + 1 < |aml| then Some(Element8(aml[p + 1], p + 2))
    else None
  }

  /** The first two elements of the package whose PackageOp is at `p`; its PkgLength is only skipped. */
  function SleepAt(aml: seq<Byte>, p: nat): (r: Option<SleepTypes>)
  {
    if p + 2 > |aml| || aml[p] != 0x12 then None
    else
      var q := p + 2 + aml[p + 1] / 64;
      if q + 1 > |aml| || aml[q] < 2 then None
      else match ByteElement(aml, q + 1)
        case None => None
        case Some(x) =>
          match ByteElement(aml, x.next)
          case None => None
          case Some(y) => Some(SleepTypes(x.v, y.v))
  }

  /** The first ReturnOp in `k .. end` followed by a PackageOp. */
  function ScanReturn(aml: seq<Byte>, k: nat, end: nat): (r: Option<nat>)
    requires end <= |aml|
    ensures r.Some? ==> k <= r.value && r.value + 1 < end && aml[r.value] == 0xA4 && aml[r.value + 1] == 0x12
    decreases end - k
  {
    if k + 1 >= end then None
    else if aml[k] == 0xA4 && aml[k + 1] == 0x12 then Some(k)
    else ScanReturn(aml, k + 1, end)
  }

  lemma {:induction false} ScanFirst(aml: seq<Byte>, k: nat, end: nat, at: nat)
    requires end <= |aml|
    ensures ScanReturn(aml, k, end) == Some(at) <==>
              && k <= at && at + 1 < end && aml[at] == 0xA4 && aml[at + 1] == 0x12
              && forall i :: k <= i < at ==> !(aml[i] == 0xA4 && aml[i + 1] == 0x12)
    decreases end - k
  {
    if k + 1 < end && !(aml[k] == 0xA4 && aml[k + 1] == 0x12) { ScanFirst(aml, k + 1, end, at); }
  }

  /** In a Method the package read is the one behind the first Return(Package) whose two opcodes lie
      within the first sixteen bytes of the body and within the method. */
  lemma MethodScan(aml: seq<Byte>, e: Entry, m: Decoded, at: nat)
    requires e.kind == MethodKind && e.offset < |aml| && |aml| - e.offset >= 4 && aml[e.offset] == 0x14
    requires PkgAt(aml, e.offset + 1, |aml|) == Some(m) && e.offset + 1 + m.len <= |aml|
    ensures var body, end := e.offset + 1 + m.consumed + 5, e.offset + 1 + m.len;
            PackageStart(aml, e) == Some(at + 1) <==>
              && body <= at && at + 1 < end && at + 1 < body + 16 && aml[at] == 0xA4 && aml[at + 1] == 0x12
              && forall i :: body <= i < at ==> !(aml[i] == 0xA4 && aml[i + 1] == 0x12)
  {
    hide PkgAt, ScanReturn;
    var body, end := e.offset + 1 + m.consumed + 5, e.offset + 1 + m.len;
    if body <= end { ScanFirst(aml, body, if end - body > 16 then body + 16 else end, at); }
  }

  /** Where the reader expects the PackageOp. */
  function PackageStart(aml: seq<Byte>, e: Entry): (r: Option<nat>)
  {
    if e.offset > |aml| || |aml| - e.offset < 4 then None
    else if e.kind == NameKind then (if aml[e.offset] != 0x08 then None else Some(e.offset + 5))
    else if e.kind != MethodKind || aml[e.offset] != 0x14 then None
    else
      var q := e.offset + 1;
      match PkgAt(aml, q, |aml|)
      case None => None
      case Some(d) =>
        var end, body := q + d.len, q + d.consumed + 5;
        if end > |aml| || body > end then None
        else
          match ScanReturn(aml, body, if end - body > 16 then body + 16 else end)
          case None => None
          case Some(k) => Some(k + 1)
  }

  function SleepPackage(ts: TableSet, e: Entry): (r: Option<SleepTypes>)
  {
    var t := TableOf(ts, e.table);
    if t.None? then None
    else
      match PackageStart(t.value, e)
      case None => None
      case Some(p) => SleepAt(t.value, p)
  }

  /** The object a sleep name stands for: the padded spelling "\_Sx_" first, then "\_Sx". */
  function SleepPath(env: Env, name: seq<Byte>): (r: Option<Path>)
    ensures r.Some? ==> r.value in env.entries && |r.value| < PATH_CAP
  {
    if |name| != 3 || name[0] != 0x5F || name[1] != 0x53 || !(0x30 <= name[2] <= 0x35) then None
    else if [BACKSLASH] + name + [0x5F] in env.entries then Some([BACKSLASH] + name + [0x5F])
    else if [BACKSLASH] + name in env.entries then Some([BACKSLASH] + name)
    else None
  }

  /** AmlReadSleepPackage. */
  function ReadSleep(env: Env, name: seq<Byte>): (r: Option<SleepTypes>)
  {
    match SleepPath(env, name)
    case None => None
    case Some(path) => SleepPackage(env.tables, env.entries[path])
  }

  /** Reading by name: for each state 0 to 5 the object at the one-segment path of its padded name, or if
      that is not bound the one under the three characters alone; for any other name nothing. */
  lemma SleepNames(env: Env, name: seq<Byte>)
    ensures forall d: Byte :: 0x30 <= d <= 0x35 && name == [0x5F, 0x53, d] ==>
              var padded, plain := Print([[0x5F, 0x53, d, 0x5F]]), [BACKSLASH, 0x5F, 0x53, d];
              ReadSleep(env, name) ==
              if padded in env.entries then SleepPackage(env.tables, env.entries[padded])
              else if plain in env.entries then SleepPackage(env.tables, env.entries[plain])
              else None
    ensures (forall d: Byte :: 0x30 <= d <= 0x35 ==> name != [0x5F, 0x53, d]) ==> ReadSleep(env, name).None?
  {
    hide SleepPackage;
    if |name| == 3 && name[0] == 0x5F && name[1] == 0x53 {
      assert name == [0x5F, 0x53, name[2]];
      OneSegment([0x5F, 0x53, name[2], 0x5F]);
      assert [BACKSLASH] + name + [0x5F] == [BACKSLASH] + [0x5F, 0x53, name[2], 0x5F];
      assert [BACKSLASH] + name == [BACKSLASH, 0x5F, 0x53, name[2]];
    }
  }

  lemma OneSegment(seg: Seg)
    ensures Print([seg]) == [BACKSLASH] + seg
  {
    assert [seg][..0] == [];
    assert [BACKSLASH] + [] + seg == [BACKSLASH] + seg;
  }

  method ReadByteElement(aml: seq<Byte>, p: nat) returns (ok: bool, v: Byte, next: nat)
    ensures ok == ByteElement(aml, p).Some?
    ensures ok ==> ByteElement(aml, p) == Some(Element8(v, next))
  {
    ok, v, next := false, 0, p;
    if p >= |aml| { return; }
    var op := aml[p];
    next := p + 1;
    if op == 0x00 { return true, 0, next; }
    if op == 0x01 { return true, 1, next; }
    if op == 0x0A {
      if next >= |aml| { return; }
      return true, aml[next], next + 1;
    }
  }

  method FindReturnPackage(aml: seq<Byte>, start: nat, end: nat) returns (found: bool, at: nat)
    requires end <= |aml|
    ensures found == ScanReturn(aml, start, end).Some?
    ensures found ==> ScanReturn(aml, start, end) == Some(at)
  {
    at := start;
    while at + 1 < end
      invariant start <= at && ScanReturn(aml, start, end) == ScanReturn(aml, at, end)
    {
      if aml[at] == 0xA4 && aml[at + 1] == 0x12 { return true, at; }
      at := at + 1;
    }
    found := false;
  }

  method LocatePackage(aml: seq<Byte>, e: Entry) returns (ok: bool, p: nat)
    ensures ok == PackageStart(aml, e).Some?
    ensures ok ==> PackageStart(aml, e) == Some(p)
  {
    hide PkgAt, ScanReturn;
    ok, p := false, 0;
    if e.kind != NameKind && e.kind != MethodKind { return; }
    if e.offset > |aml| || |aml| - e.offset < 4 { return; }
    if e.kind == NameKind {
      if aml[e.offset] != 0x08 { return; }
      return true, e.offset + 1 + 4;
    }
    if aml[e.offset] != 0x14 { return; }
    var q := e.offset + 1;
    var sized, plen, extra := ReadPkgLengthInline(aml, q, |aml|);
    if !sized { return; }
    var end, r := q + plen, q + 1 + extra;
    if end > |aml| || r + 4 + 1 > end { return; }
    r := r + 5;
    var scanEnd := if end - r > 16 then r + 16 else end;
    ok, p := FindReturnPackage(aml, r, scanEnd);
    p := p + 1;
  }

  method DecodePackage(aml: seq<Byte>, start: nat) returns (ok: bool, typA: Byte, typB: Byte)
    ensures ok == SleepAt(aml, start).Some?
    ensures ok ==> SleepAt(aml, start) == Some(SleepTypes(typA, typB))
  {
    hide ByteElement, Shr, And;
    ok, typA, typB := false, 0, 0;
    var p := start;
    if p + 2 > |aml| || aml[p] != 0x12 { return; }
    LowNibble(aml[p + 1]);
    p := p + 2 + Shr(aml[p + 1], 6);
    if p + 1 > |aml| || aml[p] < 2 { return; }
    var next;
    ok, typA, next := ReadByteElement(aml, p + 1);
    if !ok { return; }
    ok, typB, next := ReadByteElement(aml, next);
  }

  method AmlReadSleepPackage(env: Env, name: seq<Byte>) returns (ok: bool, typA: Byte, typB: Byte)
    ensures ok == ReadSleep(env, name).Some?
    ensures ok ==> ReadSleep(env, name) == Some(SleepTypes(typA, typB))
  {
    hide PackageStart, SleepAt;
    ok, typA, typB := false, 0, 0;
    if |name| != 3 || name[0] != 0x5F || name[1] != 0x53 || name[2] < 0x30 || name[2] > 0x35 { return; }
    var padded, plain := [BACKSLASH] + name + [0x5F], [BACKSLASH] + name;
    var e;
    if padded in env.entries { e := env.entries[padded]; }
    else if plain in env.entries { e := env.entries[plain]; }
    else { return; }
    var t := TableOf(env.tables, e.table);
    if t.None? { return; }
    var p;
    ok, p := LocatePackage(t.value, e);
    if !ok { return; }
    ok, typA, typB := DecodePackage(t.value, p);
  }

  // ----- agreement with the evaluator -----

  /** As much of the element `x` as `p` holds from `pos` on. */
  predicate Elem(p: seq<Byte>, pos: nat, x: Element8)
  {
    && (x.next == pos + 1 || x.next == pos + 2) && (x.next == pos + 1 ==> x.v <= 1)
    && (pos < |p| ==> p[pos] == if x.next == pos + 1 then x.v else 0x0A)
    && (x.next == pos + 2 && pos + 1 < |p| ==> p[pos + 1] == x.v)
  }

  /** A package at `at` that ends at `end`, counts at least two elements and starts with `x` and `y`. */
  predicate Lead(p: seq<Byte>, len: nat, at: nat, end: nat, x: Element8, y: Element8)
  {
    && at < len <= |p| && p[at] == 0x12
    && var d := PkgAt(p, at + 1, len);
       && d.Some? && end == at + 1 + d.value.len <= len && at + 1 + d.value.consumed < len
       && p[at + 1 + d.value.consumed] >= 2
       && Elem(p, at + 2 + d.value.consumed, x) && Elem(p, x.next, y)
  }

  /** A package at `at` whose length, span or element count does not fit the bytes before `len`. */
  predicate Overrun(p: seq<Byte>, len: nat, at: nat)
  {
    && at < len <= |p| && p[at] == 0x12
    && var d := PkgAt(p, at + 1, len);
       d.None? || at + 1 + d.value.len > len || at + 1 + d.value.consumed >= len
  }

  /** Where the reader finds what it reads of a package: the element count, the first two elements, and
      `end`, the end of the span that the package's own length gives it. */
  datatype Layout = Layout(count: nat, end: nat, x: Element8, y: Element8)

  function LayoutAt(aml: seq<Byte>, p: nat): (r: Option<Layout>)
  {
    if p >= |aml| || aml[p] != 0x12 then None
    else match PkgAt(aml, p + 1, |aml|)
      case None => None
      case Some(d) =>
        var q := p + 1 + d.consumed;
        if q >= |aml| || aml[q] < 2 then None
        else match ByteElement(aml, q + 1)
          case None => None
          case Some(x) =>
            match ByteElement(aml, x.next)
            case None => None
            case Some(y) => Some(Layout(q, p + 1 + d.len, x, y))
  }

  /** The package lies within the first `len` bytes. */
  predicate Held(l: Layout, len: nat) { l.count < len && l.end <= len }

  /** Its span covers each of the two elements that is not zero. */
  predicate Covers(l: Layout) { (l.x.next <= l.end || l.x.v == 0) && (l.y.next <= l.end || l.y.v == 0) }

  /** What the evaluator makes of an element: nothing of one that reaches past the package's end. */
  function Got(x: Element8, end: nat): (v: Value) { if x.next <= end then Int(x.v) else Uninit }
  function GotInt(x: Element8, end: nat): (n: U64) { if x.next <= end then x.v else 0 }

  lemma ElementEval(env: Env, p: seq<Byte>, end: nat, pos: nat, st: St, rank: nat, x: Element8)
    requires Valid(st) && st.exprDepth < MAX_EXPR_DEPTH && pos < end <= |p| && Elem(p, pos, x)
    ensures Eval(env, p, end, pos, st, rank) == if x.next <= end then R(true, x.next, Int(x.v), st) else Fail(end, st)
  {
    hide EvalOp;
    var st1 := st.(exprDepth := st.exprDepth + 1);
    Dispatch(env, p, end, pos, st1, rank);
    if x.next == pos + 2 && pos + 1 < end { OneByte(p, pos + 1); }
  }

  lemma OneByte(p: seq<Byte>, pos: nat)
    requires pos < |p|
    ensures Le(p[pos..pos + 1]) == p[pos]
  {
    assert p[pos..pos + 1][1..] == [];
  }

  /** One slot from one element. */
  lemma FillNext(env: Env, p: seq<Byte>, end: nat, pos: nat, st: St, rank: nat, first: nat, e: nat, count: nat,
                 x: Element8)
    requires Valid(st) && st.exprDepth < MAX_EXPR_DEPTH && end <= |p| && e < count && first + count <= |st.nodes|
    requires Elem(p, pos, x)
    requires st.nodes[first + e] == Uninit
    ensures FillSlots(env, p, end, pos, st, rank, first, e, count) ==
            if x.next > end then st
            else FillSlots(env, p, end, x.next, SetNode(st, first + e, Int(x.v)), rank, first, e + 1, count)
  {
    hide Eval, Elem;
    if pos < end {
      ElementEval(env, p, end, pos, st, rank, x);
      if x.next > end {
        assert SetNode(st, first + e, Uninit) == st;
        FillStops(env, p, end, end, st, rank, first, e + 1, count);
      }
    } else {
      assert x.next > end by { ElemNext(p, pos, x); }
    }
  }

  lemma ElemNext(p: seq<Byte>, pos: nat, x: Element8)
    requires Elem(p, pos, x)
    ensures pos < x.next
  {
  }

  lemma FillStops(env: Env, p: seq<Byte>, end: nat, pos: nat, st: St, rank: nat, first: nat, e: nat, count: nat)
    requires Valid(st) && end <= |p| && e <= count && first + count <= |st.nodes| && pos >= end
    ensures FillSlots(env, p, end, pos, st, rank, first, e, count) == st
  {
    hide Valid;
  }

  /** Filling two slots; whatever follows leaves them alone. */
  lemma FillTwo(env: Env, p: seq<Byte>, end: nat, pos: nat, st: St, rank: nat, first: nat, count: nat, x: Element8,
                y: Element8)
    requires Valid(st) && st.exprDepth < MAX_EXPR_DEPTH && end <= |p| && 2 <= count && first + count <= |st.nodes|
    requires Elem(p, pos, x) && Elem(p, x.next, y) && st.nodes[first] == Uninit && st.nodes[first + 1] == Uninit
    ensures var r := FillSlots(env, p, end, pos, st, rank, first, 0, count);
            |r.nodes| >= first + 2 && r.nodes[first] == Got(x, end) && r.nodes[first + 1] == Got(y, end)
  {
    hide Elem, FillSlots;
    ElemNext(p, x.next, y);
    FillNext(env, p, end, pos, st, rank, first, 0, count, x);
    if x.next <= end {
      FillNext(env, p, end, x.next, SetNode(st, first, Int(x.v)), rank, first, 1, count, y);
    }
  }

  lemma PackageTwo(env: Env, p: seq<Byte>, len: nat, at: nat, end: nat, st: St, rank: nat, x: Element8, y: Element8)
    requires Valid(st) && st.exprDepth < MAX_EXPR_DEPTH && |st.nodes| + 2 <= ARENA_CAP && Lead(p, len, at, end, x, y)
    ensures var r := EvalOp(env, p, len, at, st, rank);
            && r.ok && r.val.Pkg? && r.val.count >= 2 && r.val.first + 2 <= |r.st.nodes|
            && r.st.nodes[r.val.first] == Got(x, end) && r.st.nodes[r.val.first + 1] == Got(y, end)
  {
    hide EvalOp, Eval, FillSlots, Elem, PkgAt, Valid;
    Dispatch(env, p, len, at, st, rank);
    var d := PkgAt(p, at + 1, len).value;
    var q := at + 1 + d.consumed;
    var st1 := Reserve(st, p[q]);
    FillTwo(env, p, end, q + 1, st1, env.top, |st.nodes|, |st1.nodes| - |st.nodes|, x, y);
  }

  lemma EnterTwo(env: Env, p: seq<Byte>, len: nat, at: nat, end: nat, st: St, rank: nat, x: Element8, y: Element8)
    requires Valid(st) && st.exprDepth == 0 && |st.nodes| + 2 <= ARENA_CAP && Lead(p, len, at, end, x, y)
    ensures var r := Eval(env, p, len, at, st, rank);
            && r.ok && r.val.Pkg? && r.val.count >= 2 && r.val.first + 2 <= |r.st.nodes|
            && r.st.nodes[r.val.first] == Got(x, end) && r.st.nodes[r.val.first + 1] == Got(y, end)
  {
    hide EvalOp, PkgAt, Elem;
    PackageTwo(env, p, len, at, end, st.(exprDepth := 1), rank, x, y);
  }

  /** Flattening starts with the same two integers. */
  lemma FlattenTwo(env: Env, path: Path, cap: nat, args: seq<Value>, w: World, a: Answer, end: nat, x: Element8,
                   y: Element8)
    requires AllPlain(args) && WorldOk(w) && |path| < PATH_CAP && path in env.entries && cap >= 2
    requires EvaluateObject(env, path, args, w) == Some(a) && a.val.Pkg? && a.val.count >= 2
    requires a.val.first + 2 <= |a.st.nodes| && a.st.nodes[a.val.first] == Got(x, end)
    requires a.st.nodes[a.val.first + 1] == Got(y, end)
    ensures var r := PackageInts(env, path, cap, args, w);
            r.Some? && |r.value| >= 2 && r.value[0] == GotInt(x, end) && r.value[1] == GotInt(y, end)
  {
    hide EvaluateObject;
    var r := PackageInts(env, path, cap, args, w).value;
    assert r[0] == Api.Flat(a.st.nodes[a.val.first + 0]) && r[1] == Api.Flat(a.st.nodes[a.val.first + 1]);
  }

  lemma SliceSlice(p: seq<Byte>, a: nat, b: nat, i: nat, j: nat)
    requires a <= b <= |p| && i <= j <= b - a
    ensures p[a..b][i..j] == p[a + i..a + j]
  {
    var s, t := p[a..b][i..j], p[a + i..a + j];
    assert |s| == |t|;
    forall k | 0 <= k < |s| ensures s[k] == t[k] { assert s[k] == p[a..b][i + k]; }
  }

  lemma PkgAtSlice(p: seq<Byte>, a: nat, b: nat, pos: nat, end: nat)
    requires a <= b <= |p| && end <= b - a
    ensures PkgAt(p[a..b], pos, end) == PkgAt(p, a + pos, a + end)
  {
    hide Le;
    if pos < end && end - pos >= 1 + p[a + pos] / 64 { SliceSlice(p, a, b, pos + 1, pos + 1 + p[a + pos] / 64); }
  }

  /** A PkgLength read before an earlier end is the same, or cut off. */
  lemma PkgAtShort(p: seq<Byte>, pos: nat, len: nat, end: nat)
    requires len <= end <= |p| && PkgAt(p, pos, end).Some?
    ensures var d := PkgAt(p, pos, end).value;
            PkgAt(p, pos, len) == if pos + d.consumed <= len then Some(d) else None
  {
    hide Le;
  }

  /** The reader's way past a PkgLength, the lead byte's count, is the decoder's. */
  lemma LeadSkip(aml: seq<Byte>, q: nat)
    requires q < |aml|
    ensures var d := PkgAt(aml, q, |aml|);
            if d.Some? then d.value.consumed == 1 + aml[q] / 64 else q + 1 + aml[q] / 64 > |aml|
  {
    hide Le;
  }

  /** A byte-sized integer is Zero, One, or a prefix and the byte: it reads as the element it is. */
  lemma ElementIs(aml: seq<Byte>, pos: nat, x: Element8)
    ensures ByteElement(aml, pos) == Some(x) <==> Elem(aml, pos, x) && x.next <= |aml|
  {
  }

  /** The reader finds `l` at `p`: a package there, a count of at least two, and two byte-sized integers in
      the table right behind it. */
  predicate IsLayout(aml: seq<Byte>, p: nat, l: Layout)
  {
    && p < |aml| && aml[p] == 0x12
    && var d := PkgAt(aml, p + 1, |aml|);
       && d.Some? && l.count == p + 1 + d.value.consumed && l.end == p + 1 + d.value.len
       && l.count < |aml| && aml[l.count] >= 2
       && Elem(aml, l.count + 1, l.x) && Elem(aml, l.x.next, l.y) && l.y.next <= |aml|
  }

  lemma LayoutIs(aml: seq<Byte>, p: nat, l: Layout)
    ensures LayoutAt(aml, p) == Some(l) <==> IsLayout(aml, p, l)
  {
    hide PkgAt, ByteElement;
    ElementIs(aml, l.count + 1, l.x);
    ElementIs(aml, l.x.next, l.y);
    if Elem(aml, l.x.next, l.y) { ElemNext(aml, l.x.next, l.y); }
  }

  /** The reader succeeds exactly where there is a layout, and returns its two elements. */
  lemma ReaderSees(aml: seq<Byte>, p: nat)
    ensures var l := LayoutAt(aml, p);
            SleepAt(aml, p) == if l.Some? then Some(SleepTypes(l.value.x.v, l.value.y.v)) else None
    ensures SleepAt(aml, p).Some? <==> exists l :: IsLayout(aml, p, l)
  {
    hide PkgAt, ByteElement, IsLayout;
    if p + 1 < |aml| { LeadSkip(aml, p + 1); }
    forall l ensures LayoutAt(aml, p) == Some(l) <==> IsLayout(aml, p, l) { LayoutIs(aml, p, l); }
  }

  lemma LayoutElems(aml: seq<Byte>, p: nat, l: Layout)
    requires LayoutAt(aml, p) == Some(l)
    ensures p < |aml| && aml[p] == 0x12 && PkgAt(aml, p + 1, |aml|).Some?
    ensures var d := PkgAt(aml, p + 1, |aml|).value;
            && l.count == p + 1 + d.consumed < |aml| && aml[l.count] >= 2 && l.end == p + 1 + d.len
            && Elem(aml, l.count + 1, l.x) && Elem(aml, l.x.next, l.y)
  {
    hide PkgAt;
  }

  /** The same elements, counted from `a` on. */
  function Shift(x: Element8, a: nat): (r: Element8)
    requires a <= x.next
  {
    Element8(x.v, x.next - a)
  }

  lemma ElemSlice(p: seq<Byte>, a: nat, b: nat, pos: nat, x: Element8)
    requires a <= pos && a <= b <= |p| && Elem(p, pos, x)
    ensures a <= x.next && Elem(p[a..b], pos - a, Shift(x, a))
  {
  }

  /** What the evaluator finds of it in the slice `a..b`: the package, or one that overruns. */
  lemma LayoutSlice(aml: seq<Byte>, a: nat, b: nat, at: nat, l: Layout)
    requires a <= at < b <= |aml| && LayoutAt(aml, at) == Some(l)
    ensures a <= l.end && a <= l.x.next && a <= l.y.next
    ensures if Held(l, b) then Lead(aml[a..b], b - a, at - a, l.end - a, Shift(l.x, a), Shift(l.y, a))
            else Overrun(aml[a..b], b - a, at - a)
  {
    hide PkgAt, Elem, LayoutAt;
    LayoutElems(aml, at, l);
    PkgAtShort(aml, at + 1, b, |aml|);
    PkgAtSlice(aml, a, b, at + 1 - a, b - a);
    ElemSlice(aml, a, b, l.count + 1, l.x);
    ElemSlice(aml, a, b, l.x.next, l.y);
  }

  lemma OverrunFails(env: Env, p: seq<Byte>, len: nat, at: nat, st: St, rank: nat)
    requires Valid(st) && st.exprDepth == 0 && Overrun(p, len, at)
    ensures !Eval(env, p, len, at, st, rank).ok
  {
    hide EvalOp, PkgAt;
    Dispatch(env, p, len, at, st.(exprDepth := 1), rank);
  }

  /** Both answers for one object whose package the evaluator has to find before `len`. The reader
      returns the two elements; the evaluator fails if the package is not held; and it flattens the
      same two integers if and only if it is held and covers them. */
  ghost predicate Agreement(env: Env, path: Path, cap: nat, args: seq<Value>, w: World, len: nat, l: Layout)
    requires AllPlain(args) && WorldOk(w) && |path| < PATH_CAP && path in env.entries
  {
    && SleepPackage(env.tables, env.entries[path]) == Some(SleepTypes(l.x.v, l.y.v))
    && var r := PackageInts(env, path, cap, args, w);
       && (r.Some? <==> Held(l, len))
       && (r.Some? ==> |r.value| >= 2 && r.value[0] == GotInt(l.x, l.end) && r.value[1] == GotInt(l.y, l.end))
       && (r.Some? && r.value[0] == l.x.v && r.value[1] == l.y.v <==> Held(l, len) && Covers(l))
  }

  /** A Name with a bare segment. */
  predicate NameForm(ts: TableSet, e: Entry, aml: seq<Byte>)
  {
    && e.kind == NameKind && TableOf(ts, e.table) == Some(aml) && e.offset + 5 <= |aml| && aml[e.offset] == 0x08
    && IsSeg(aml[e.offset + 1..e.offset + 5])
  }

  /** A Method with a bare segment whose body begins with the opcodes of Return(Package). */
  predicate MethodForm(ts: TableSet, e: Entry, aml: seq<Byte>, m: Decoded)
  {
    var q := e.offset + 1;
    var b := q + m.consumed;
    && e.kind == MethodKind && TableOf(ts, e.table) == Some(aml)
    && q < |aml| && aml[q - 1] == 0x14 && PkgAt(aml, q, |aml|) == Some(m) && q + m.len <= |aml|
    && b + 6 < q + m.len && IsSeg(aml[b..b + 4]) && aml[b + 5] == 0xA4 && aml[b + 6] == 0x12
  }

  /** Name(_Sx_, Package { .. }): the package has to lie in the table. */
  lemma NameAgrees(env: Env, path: Path, cap: nat, args: seq<Value>, w: World, aml: seq<Byte>, l: Layout)
    requires AllPlain(args) && WorldOk(w) && |path| < PATH_CAP && path in env.entries && cap >= 2
    requires NameForm(env.tables, env.entries[path], aml) && LayoutAt(aml, env.entries[path].offset + 5) == Some(l)
    ensures Agreement(env, path, cap, args, w, |aml|, l)
  {
    hide Eval, EvalOp, PkgAt, IsSeg, NameStringEnd, SleepAt, PackageInts, Elem, Lead, LayoutAt, Held, Overrun;
    var e := env.entries[path];
    var k := e.offset + 5;
    BareSegEnd(aml[e.offset + 1..k], aml, e.offset + 1, |aml|);
    ReaderSees(aml, k);
    LayoutElems(aml, k, l);
    var d := aml[k..];
    assert d == aml[k..|aml|];
    assert NameValue(env.tables, e) == Some(d);
    LayoutSlice(aml, k, |aml|, k, l);
    var st := Start(path, CallArgs(args, 7), Min(|args|, 7), w);
    var r := Eval(env, d, |d|, 0, st, env.top);
    if Held(l, |aml|) {
      EnterTwo(env, d, |d|, 0, l.end - k, st, env.top, Shift(l.x, k), Shift(l.y, k));
      FlattenTwo(env, path, cap, args, w, Answer(r.val, r.st), l.end - k, Shift(l.x, k), Shift(l.y, k));
    } else {
      OverrunFails(env, d, |d|, 0, st, env.top);
      NothingFlattened(env, path, cap, args, w);
    }
  }

  lemma NothingFlattened(env: Env, path: Path, cap: nat, args: seq<Value>, w: World)
    requires AllPlain(args) && WorldOk(w) && |path| < PATH_CAP && path in env.entries
    requires EvaluateObject(env, path, args, w).None?
    ensures PackageInts(env, path, cap, args, w).None?
  {
    hide EvaluateObject;
  }

  /** Method(_Sx_) { Return(Package { .. }) }: the package has to lie in the method. */
  lemma MethodAgrees(env: Env, path: Path, cap: nat, args: seq<Value>, w: World, aml: seq<Byte>, m: Decoded, l: Layout)
    requires AllPlain(args) && WorldOk(w) && |path| < PATH_CAP && path in env.entries && cap >= 2
    requires MethodForm(env.tables, env.entries[path], aml, m)
    requires LayoutAt(aml, env.entries[path].offset + 1 + m.consumed + 6) == Some(l)
    ensures Agreement(env, path, cap, args, w, env.entries[path].offset + 1 + m.len, l)
  {
    hide Eval, EvalOp, Exec, PkgAt, IsSeg, NameStringEnd, PackageInts, ScanReturn, MethodBody, Lead, Elem,
      SleepPackage, LayoutAt, Held, Overrun;
    var e := env.entries[path];
    var k, mEnd := e.offset + 1 + m.consumed + 5, e.offset + 1 + m.len;
    MethodReads(env, path, aml, m, l);
    MethodSlices(env, path, aml, m);
    var code := aml[k..mEnd];
    LayoutSlice(aml, k, mEnd, k + 1, l);
    var argc := aml[k - 1] % 8;
    var st := Start(path, CallArgs(args, argc), argc, w);
    var r := Eval(env, code, |code|, 1, st, env.top);
    if Held(l, mEnd) {
      EnterTwo(env, code, |code|, 1, l.end - k, st, env.top, Shift(l.x, k), Shift(l.y, k));
      ReturnFirst(env, code, st);
      FlattenTwo(env, path, cap, args, w, Answer(r.val, r.st.(ret := r.val, returned := true)), l.end - k,
                 Shift(l.x, k), Shift(l.y, k));
    } else {
      OverrunFails(env, code, |code|, 1, st, env.top);
      ReturnFirst(env, code, st);
      NothingFlattened(env, path, cap, args, w);
    }
  }

  lemma ReturnFirst(env: Env, code: seq<Byte>, st: St)
    requires Valid(st) && !st.returned && !st.brk && !st.cont && |code| > 0 && code[0] == 0xA4
    ensures var r := Eval(env, code, |code|, 1, st, env.top);
            Exec(env, code, |code|, 0, |code|, st, env.top) ==
            if r.ok then X(true, r.st.(ret := r.val, returned := true)) else X(false, r.st)
  {
    hide Eval, ExecIf, ExecWhile;
  }

  lemma MethodSlices(env: Env, path: Path, aml: seq<Byte>, m: Decoded)
    requires path in env.entries && MethodForm(env.tables, env.entries[path], aml, m)
    ensures var k := env.entries[path].offset + 1 + m.consumed + 5;
            MethodBody(env.tables, env.entries[path]) ==
            Some(Body(aml[k..env.entries[path].offset + 1 + m.len], aml[k - 1] % 8))
  {
    hide PkgAt, IsSeg, NameStringEnd;
    var b := env.entries[path].offset + 1 + m.consumed;
    BareSegEnd(aml[b..b + 4], aml, b, env.entries[path].offset + 1 + m.len);
  }

  lemma MethodReads(env: Env, path: Path, aml: seq<Byte>, m: Decoded, l: Layout)
    requires path in env.entries && MethodForm(env.tables, env.entries[path], aml, m)
    requires LayoutAt(aml, env.entries[path].offset + 1 + m.consumed + 6) == Some(l)
    ensures SleepPackage(env.tables, env.entries[path]) == Some(SleepTypes(l.x.v, l.y.v))
  {
    hide PkgAt, LayoutAt, SleepAt, IsSeg;
    var k, mEnd := env.entries[path].offset + 1 + m.consumed + 5, env.entries[path].offset + 1 + m.len;
    ReaderSees(aml, k + 1);
    assert ScanReturn(aml, k, if mEnd - k > 16 then k + 16 else mEnd) == Some(k);
  }

  /** Where the reader looks, and the bytes the evaluator is given: the rest of the table for a Name,
      the method for a Method. */
  ghost predicate Bounds(env: Env, path: Path, aml: seq<Byte>, at: nat, len: nat)
    requires path in env.entries
  {
    var e := env.entries[path];
    || (NameForm(env.tables, e, aml) && at == e.offset + 5 && len == |aml|)
    || (exists m :: MethodForm(env.tables, e, aml, m)
                    && at == e.offset + 1 + m.consumed + 6 && len == e.offset + 1 + m.len)
  }

  /** So wherever the sleep types are read by name, from a Name or from a Method that begins with
      Return(Package), they are the first two integers the evaluator flattens there exactly when
      the package lies in the bytes the evaluator is given and its span covers each that is not
      zero; and the evaluator fails exactly when the package does not lie there. */
  lemma ReadSleepAgrees(env: Env, name: seq<Byte>, cap: nat, args: seq<Value>, w: World, aml: seq<Byte>,
                        at: nat, len: nat)
    requires AllPlain(args) && WorldOk(w) && cap >= 2 && ReadSleep(env, name).Some?
    requires Bounds(env, SleepPath(env, name).value, aml, at, len)
    ensures LayoutAt(aml, at).Some?
    ensures var l, t := LayoutAt(aml, at).value, ReadSleep(env, name).value;
            var r := PackageInts(env, SleepPath(env, name).value, cap, args, w);
            && (r.Some? <==> Held(l, len)) && (r.Some? ==> |r.value| >= 2)
            && (r.Some? && r.value[0] == t.a && r.value[1] == t.b <==> Held(l, len) && Covers(l))
  {
    hide NameForm, MethodForm, PackageInts, SleepPath, SleepPackage, LayoutAt, Held, Covers;
    var path := SleepPath(env, name).value;
    LayoutRead(env, path, aml, at, len);
    var l := LayoutAt(aml, at).value;
    var e := env.entries[path];
    if NameForm(env.tables, e, aml) && at == e.offset + 5 && len == |aml| {
      NameAgrees(env, path, cap, args, w, aml, l);
    } else {
      var m :| MethodForm(env.tables, e, aml, m) && at == e.offset + 1 + m.consumed + 6 && len == e.offset + 1 + m.len;
      MethodAgrees(env, path, cap, args, w, aml, m, l);
    }
  }

  /** What the reader read there is a layout. */
  lemma LayoutRead(env: Env, path: Path, aml: seq<Byte>, at: nat, len: nat)
    requires path in env.entries && Bounds(env, path, aml, at, len)
    requires SleepPackage(env.tables, env.entries[path]).Some?
    ensures LayoutAt(aml, at).Some?
  {
    hide PkgAt, LayoutAt, SleepAt, IsSeg;
    ReaderSees(aml, at);
    var e := env.entries[path];
    if e.kind == MethodKind {
      var m :| MethodForm(env.tables, e, aml, m) && at == e.offset + 1 + m.consumed + 6 && len == e.offset + 1 + m.len;
      var k, mEnd := at - 1, e.offset + 1 + m.len;
      assert ScanReturn(aml, k, if mEnd - k > 16 then k + 16 else mEnd) == Some(k);
    }
  }

  /** A table that is one Name with the segment _S5_ and the given value. */
  ghost predicate OneName(env: Env, path: Path, value: seq<Byte>)
  {
    && path in env.entries && env.entries[path] == Entry(NameKind, 0, 0)
    && TableOf(env.tables, 0) == Some([0x08, 0x5F, 0x53, 0x35, 0x5F] + value)
  }

  /** Shut out by the cover: a PkgLength of 2 ends the package right behind its element count, so the
      reader answers (5, 7) from bytes the evaluator never visits. */
  lemma ShortSpanDiffers(env: Env, path: Path, args: seq<Value>, w: World)
    requires AllPlain(args) && WorldOk(w) && |path| < PATH_CAP
    requires OneName(env, path, [0x12, 0x02, 0x02, 0x0A, 0x05, 0x0A, 0x07])
    ensures SleepPackage(env.tables, env.entries[path]) == Some(SleepTypes(5, 7))
    ensures var r := PackageInts(env, path, 2, args, w);
            r.Some? && |r.value| >= 2 && r.value[0] == 0 && r.value[1] == 0
  {
    hide SleepPackage, PackageInts, EvaluateObject;
    var aml := [0x08, 0x5F, 0x53, 0x35, 0x5F] + [0x12, 0x02, 0x02, 0x0A, 0x05, 0x0A, 0x07];
    assert PkgAt(aml, 6, 12) == Some(Decoded(2, 1));
    assert aml[1..5] == [0x5F, 0x53, 0x35, 0x5F];
    NameAgrees(env, path, 2, args, w, aml, Layout(7, 8, Element8(5, 10), Element8(7, 12)));
  }

  /** Shut out by the bounds: a PkgLength of 10 covers both elements but runs four bytes past the table,
      so the reader still answers (5, 7) and the evaluator refuses the package. */
  lemma OverrunDiffers(env: Env, path: Path, args: seq<Value>, w: World)
    requires AllPlain(args) && WorldOk(w) && |path| < PATH_CAP
    requires OneName(env, path, [0x12, 0x0A, 0x02, 0x0A, 0x05, 0x0A, 0x07])
    ensures SleepPackage(env.tables, env.entries[path]) == Some(SleepTypes(5, 7))
    ensures PackageInts(env, path, 2, args, w).None?
  {
    hide SleepPackage, PackageInts, EvaluateObject;
    var aml := [0x08, 0x5F, 0x53, 0x35, 0x5F] + [0x12, 0x0A, 0x02, 0x0A, 0x05, 0x0A, 0x07];
    assert PkgAt(aml, 6, 12) == Some(Decoded(10, 1));
    assert aml[1..5] == [0x5F, 0x53, 0x35, 0x5F];
    NameAgrees(env, path, 2, args, w, aml, Layout(7, 16, Element8(5, 10), Element8(7, 12)));
  }

  /** A table that is one Method with the segment _S5_, no arguments and the given body, followed by
      `rest`. */
  ghost predicate OneMethod(env: Env, path: Path, body: seq<Byte>, rest: seq<Byte>)
    requires |body| < 50
  {
    && path in env.entries && env.entries[path] == Entry(MethodKind, 0, 0)
    && TableOf(env.tables, 0) == Some([0x14, 6 + |body|, 0x5F, 0x53, 0x35, 0x5F, 0x00] + body + rest)
  }

  /** The same for a Method: its two zeros lie behind the method's end with the element count. */
  lemma MethodOverrunDiffers(env: Env, path: Path, args: seq<Value>, w: World)
    requires AllPlain(args) && WorldOk(w) && |path| < PATH_CAP
    requires OneMethod(env, path, [0xA4, 0x12, 0x01], [0x02, 0x00, 0x00])
    ensures SleepPackage(env.tables, env.entries[path]) == Some(SleepTypes(0, 0))
    ensures PackageInts(env, path, 2, args, w).None?
  {
    hide SleepPackage, PackageInts, EvaluateObject;
    var aml := [0x14, 9, 0x5F, 0x53, 0x35, 0x5F, 0x00] + [0xA4, 0x12, 0x01] + [0x02, 0x00, 0x00];
    assert PkgAt(aml, 1, 13) == Some(Decoded(9, 1)) && PkgAt(aml, 9, 13) == Some(Decoded(1, 1));
    assert aml[2..6] == [0x5F, 0x53, 0x35, 0x5F];
    MethodAgrees(env, path, 2, args, w, aml, Decoded(9, 1), Layout(10, 10, Element8(0, 12), Element8(0, 13)));
  }
}
