/** Source tables and the two slicers that locate an object's bytes in them. */
module Tables {
  import opened Bits
  import opened PkgLength
  import opened Names

  datatype Kind = MethodKind | NameKind | OtherKind

  /** A namespace entry: what it is and where its defining opcode sits. */
  datatype Entry = Entry(kind: Kind, table: nat, offset: nat)

  /** The AML bodies of the tables, past their headers; None is a table that cannot be mapped. */
  type TableSet = seq<Option<seq<Byte>>>

  function TableOf(ts: TableSet, i: nat): (r: Option<seq<Byte>>)
  {
    if i < |ts| then ts[i] else None
  }

  const TEXT_CAP: nat := 64

  /** The run of '^' at `pos`, however long. */
  function CaretRun(p: seq<Byte>, pos: nat, end: nat): (q: nat)
    requires pos <= end <= |p|
    ensures pos <= q <= end
    decreases end - pos
  {
    if pos < end && p[pos] == CARET then CaretRun(p, pos + 1, end) else pos
  }

  /** Where the NameString at `pos` ends, read by the namespace code: any number of carets, and as
      many segments as fit 63 characters of text. */
  function NameStringEnd(p: seq<Byte>, pos: nat, end: nat): (r: Option<nat>)
    requires pos <= end <= |p|
    ensures r.Some? ==> pos < r.value <= end
  {
    PathEnd(p, if pos < end && p[pos] == BACKSLASH then pos + 1 else CaretRun(p, pos, end), end)
  }

  /** Where the NamePath at `q` ends. */
  function PathEnd(p: seq<Byte>, q: nat, end: nat): (r: Option<nat>)
    requires q <= end <= |p|
    ensures r.Some? ==> q < r.value <= end
  {
    if q >= end then None
    else if p[q] == 0 then Some(q + 1)
    else if p[q] == 0x2F && (q + 1 >= end || p[q + 1] == 0) then None
    else
      var n := if p[q] == 0x2E then 2 else if p[q] == 0x2F then p[q + 1] else 1;
      var q1 := if p[q] == 0x2E then q + 1 else if p[q] == 0x2F then q + 2 else q;
      if q1 + 4 * n > end || SegsAt(p, q1, n).None? || 5 * n - 1 >= TEXT_CAP then None
      else Some(q1 + 4 * n)
  }

  /** One segment behind the text so far. */
  method CopySeg(p: seq<Byte>, pos: nat, text: seq<Byte>) returns (ok: bool, longer: seq<Byte>)
    requires pos + 4 <= |p|
    ensures ok <==> IsSeg(p[pos..pos + 4]) && |text| + 4 < TEXT_CAP
    ensures ok ==> longer == text + p[pos..pos + 4]
  {
    ghost var whole := p[pos..pos + 4];
    SegByPosition(whole);
    longer := text;
    for i := 0 to 4
      invariant longer == text + whole[..i] && (i > 0 ==> |text| + i < TEXT_CAP)
      invariant forall j :: 0 <= j < i ==> Admits(j, whole[j])
    {
      var c := p[pos + i];
      assert c == whole[i];
      if if i == 0 then !LeadChar(c) else !NameChar(c) { return false, longer; }
      if |longer| + 1 >= TEXT_CAP { return false, longer; }
      longer := longer + [c];
    }
    ok := true;
  }

  lemma PrintNext(done: Segs, text: seq<Byte>, seg: Seg)
    requires AllSegs(done) && [BACKSLASH] + text == Print(done)
    ensures [BACKSLASH] + (text + (if done == [] then [] else [DOT]) + seg) == Print(done + [seg])
  {
    PrintShape(done);
    assert (done + [seg])[..|done|] == done;
  }

  /** `count` dotted segments: the text of the path they make, without its backslash. */
  method CopySegs(p: seq<Byte>, start: nat, count: nat) returns (ok: bool, text: seq<Byte>)
    requires count >= 1 && start + 4 * count <= |p|
    ensures ok <==> SegsAt(p, start, count).Some? && 5 * count - 1 < TEXT_CAP
    ensures ok ==> [BACKSLASH] + text == Print(SegsAt(p, start, count).value)
  {
    hide Print, IsSeg;
    var pos := start;
    text := [];
    ghost var done: Segs := [];
    PrintRoot();
    PrependNothing(SegsAt(p, start, count));
    for s := 0 to count
      invariant pos == start + 4 * s && |text| == (if s == 0 then 0 else 5 * s - 1) < TEXT_CAP
      invariant |done| == s && AllSegs(done) && [BACKSLASH] + text == Print(done)
      invariant SegsAt(p, start, count) == Prepend(done, SegsAt(p, pos, count - s))
    {
      ghost var before := text;
      if s != 0 {
        if |text| + 1 >= TEXT_CAP { return false, text; }
        text := text + [DOT];
      }
      ok, text := CopySeg(p, pos, text);
      if !ok { return; }
      ghost var seg := p[pos..pos + 4];
      PrintNext(done, before, seg);
      PrependNext(done, seg, SegsAt(p, pos + 4, count - s - 1));
      done := done + [seg];
      pos := pos + 4;
    }
    assert done + [] == done;
    ok := true;
  }

  lemma PrependNext(done: Segs, seg: Seg, o: Option<Segs>)
    ensures Prepend(done, if o.None? then None else Some([seg] + o.value)) == Prepend(done + [seg], o)
  {
    assert o.Some? ==> done + ([seg] + o.value) == done + [seg] + o.value;
  }

  /** What the namespace code records of a name. */
  datatype NameText = NameText(text: seq<Byte>, carets: nat, absolute: bool, nullName: bool)

  /** It stands for the same name: its prefix, and its segments as the text of a path. */
  predicate Records(t: NameText, n: NameRef)
  {
    t.absolute == n.root && t.carets == n.caret && t.nullName == (n.segs == []) && [BACKSLASH] + t.text == Print(n.segs)
  }

  method CountCarets(p: seq<Byte>, start: nat, end: nat) returns (n: nat)
    requires start <= end <= |p|
    ensures start + n == CaretRun(p, start, end)
  {
    n := 0;
    while start + n < end && p[start + n] == CARET
      invariant start + n <= end && CaretRun(p, start, end) == CaretRun(p, start + n, end)
    {
      n := n + 1;
    }
  }

  /** The namespace code's NameString reader. */
  method ReadNameString(p: seq<Byte>, start: nat, end: nat) returns (ok: bool, out: NameText, next: nat)
    requires start <= end <= |p|
    ensures ok == NameStringEnd(p, start, end).Some?
    ensures ok ==> NameStringEnd(p, start, end) == Some(next)
    ensures ok && CaretRun(p, start, end) - start <= 255 ==>
              && NameAt(p, start, end).Some? && NameAt(p, start, end).value.next == next
              && Records(out, NameAt(p, start, end).value.name)
  {
    hide PathEnd, NameBody, Print, Carets, CaretRun;
    ok, out, next := false, NameText([], 0, false, false), start;
    var pos := start;
    if pos < end && p[pos] == BACKSLASH {
      out := out.(absolute := true);
      pos := pos + 1;
    } else {
      var carets := CountCarets(p, start, end);
      out := out.(carets := carets);
      pos := pos + carets;
      if carets <= 255 { CaretsAgree(p, start, end, 255); }
    }
    var text, nullName;
    ok, text, nullName, next := ReadNamePath(p, pos, end, out.absolute, out.carets);
    out := out.(text := text, nullName := nullName);
  }

  /** The segments behind the prefix characters. */
  method ReadNamePath(p: seq<Byte>, start: nat, end: nat, ghost root: bool, ghost caret: nat)
    returns (ok: bool, text: seq<Byte>, nullName: bool, next: nat)
    requires start <= end <= |p|
    ensures ok == PathEnd(p, start, end).Some?
    ensures ok ==> PathEnd(p, start, end) == Some(next)
    ensures var n := NameBody(p, start, end, root, caret);
            ok ==> n.Some? && n.value.next == next && Records(NameText(text, caret, root, nullName), n.value.name)
  {
    hide SegsAt, Print;
    var pos := start;
    ok, text, nullName, next := false, [], false, start;
    if pos >= end { return; }
    if p[pos] == 0 {
      PrintRoot();
      return true, [], true, pos + 1;
    }
    var segCount: nat := 1;
    if p[pos] == 0x2E {
      segCount := 2;
      pos := pos + 1;
    } else if p[pos] == 0x2F {
      pos := pos + 1;
      if pos >= end { return; }
      segCount := p[pos];
      pos := pos + 1;
      if segCount == 0 { return; }
    }
    if pos + 4 * segCount > end { return; }
    ok, text := CopySegs(p, pos, segCount);
    next := pos + 4 * segCount;
  }

  datatype Body = Body(code: seq<Byte>, argc: nat)

  /** A Method's TermList and its declared argument count. */
  function MethodBody(ts: TableSet, e: Entry): (r: Option<Body>)
    ensures r.Some? ==> r.value.argc <= 7
  {
    var t := TableOf(ts, e.table);
    if e.kind != MethodKind || t.None? then None
    else
      var aml := t.value;
      if e.offset >= |aml| || aml[e.offset] != 0x14 then None
      else
        var q := e.offset + 1;
        var d := PkgAt(aml, q, |aml|);
        if d.None? || d.value.len > |aml| - q || d.value.len < d.value.consumed then None
        else
          var end := q + d.value.len;
          var n := NameStringEnd(aml, q + d.value.consumed, end);
          if n.None? || n.value >= end then None
          else Some(Body(aml[n.value + 1..end], aml[n.value] % 8))
  }

  /** The bytes behind a Name's NameString: its DataRefObject and everything after it. */
  function NameValue(ts: TableSet, e: Entry): (r: Option<seq<Byte>>)
  {
    var t := TableOf(ts, e.table);
    if e.kind != NameKind || t.None? then None
    else
      var aml := t.value;
      if e.offset >= |aml| || aml[e.offset] != 0x08 then None
      else
        var n := NameStringEnd(aml, e.offset + 1, |aml|);
        if n.None? || n.value >= |aml| then None else Some(aml[n.value..])
  }

  method AmlMethodBody(ts: TableSet, e: Entry) returns (ok: bool, code: seq<Byte>, argc: nat)
    ensures ok == MethodBody(ts, e).Some?
    ensures ok ==> MethodBody(ts, e) == Some(Body(code, argc))
  {
    hide PkgAt, NameStringEnd, And;
    ok, code, argc := false, [], 0;
    var t := TableOf(ts, e.table);
    if e.kind != MethodKind || t.None? { return; }
    var aml := t.value;
    if e.offset >= |aml| || aml[e.offset] != 0x14 { return; }
    var q := e.offset + 1;
    var good, pkgLen, pc := ReadPkgLength(aml, q, |aml|);
    if !good || pkgLen > |aml| - q || pkgLen < pc { return; }
    var pkgEnd := q + pkgLen;
    var name;
    good, name, q := ReadNameString(aml, q + pc, pkgEnd);
    if !good || q >= pkgEnd { return; }
    LowThree(aml[q]);
    return true, aml[q + 1..pkgEnd], And(aml[q], 0x07);
  }

  lemma LowThree(b: Byte)
    ensures And(b, 0x07) == b % 8
  {
    LowBits(b, 3, 7, 8) by { Pow2Values(); assert Mask(3) == 7; assert Pow2(3) == 8; }
  }

  method AmlNameValue(ts: TableSet, e: Entry) returns (ok: bool, data: seq<Byte>)
    ensures ok == NameValue(ts, e).Some?
    ensures ok ==> NameValue(ts, e) == Some(data)
  {
    hide NameStringEnd;
    ok, data := false, [];
    var t := TableOf(ts, e.table);
    if e.kind != NameKind || t.None? { return; }
    var aml := t.value;
    if e.offset >= |aml| || aml[e.offset] != 0x08 { return; }
    var good, name, q := ReadNameString(aml, e.offset + 1, |aml|);
    if !good || q >= |aml| { return; }
    return true, aml[q..];
  }

  // ----- two readers of the same grammar -----

  lemma {:induction false} CaretsAgree(p: seq<Byte>, pos: nat, end: nat, most: nat)
    requires pos <= end <= |p| && CaretRun(p, pos, end) - pos <= most
    ensures pos + Carets(p, pos, end, most) == CaretRun(p, pos, end)
    decreases most
  {
    if most > 0 && pos < end && p[pos] == CARET { CaretsAgree(p, pos + 1, end, most - 1); }
  }

  /** The namespace code and the interpreter read the same names, except that the first stops at
      twelve segments and the second at 255 parent steps. */
  lemma ReadersAgree(p: seq<Byte>, pos: nat, end: nat)
    requires pos <= end <= |p| && CaretRun(p, pos, end) - pos <= 255
    ensures var n := NameAt(p, pos, end);
            NameStringEnd(p, pos, end) == if n.Some? && |n.value.name.segs| <= 12 then Some(n.value.next) else None
  {
    hide SegsAt, Carets, CaretRun;
    CaretsAgree(p, pos, end, 255);
    if pos < end && p[pos] != CARET { NoCarets(p, pos, end); }
  }

  lemma NoCarets(p: seq<Byte>, pos: nat, end: nat)
    requires pos < end <= |p| && p[pos] != CARET
    ensures CaretRun(p, pos, end) == pos
  {
  }

  /** Name(name, data): slicing gives the data and whatever follows it, for any name of at most
      twelve segments. */
  lemma NameDefinition(ts: TableSet, e: Entry, aml: seq<Byte>, name: NameRef, rest: seq<Byte>)
    requires IsName(name) && |name.segs| <= 12 && rest != []
    requires e.kind == NameKind && TableOf(ts, e.table) == Some(aml) && e.offset <= |aml|
    requires aml[e.offset..] == [0x08] + (EncodeName(name) + rest)
    ensures NameValue(ts, e) == Some(rest)
  {
    hide NameStringEnd, NameAt, EncodeName, IsName;
    var q, n := e.offset + 1, |EncodeName(name)|;
    assert aml[e.offset] == aml[e.offset..][0];
    assert aml[q..] == aml[e.offset..][1..] == EncodeName(name) + rest;
    assert aml[q..q + n] == aml[q..][..n] == EncodeName(name);
    assert aml[q + n..] == aml[q..][n..] == rest;
    NameEnds(aml, q, |aml|, name);
  }

  lemma FewCarets(p: seq<Byte>, pos: nat, end: nat)
    requires pos <= end <= |p| && NameAt(p, pos, end).Some?
    ensures CaretRun(p, pos, end) - pos <= 255
  {
    hide CaretRun, Carets, SegsAt;
    if pos < end && p[pos] == BACKSLASH {
      NoCarets(p, pos, end);
    } else if CaretRun(p, pos, end) - pos > 255 {
      CaretsCut(p, pos, end, 255);
      CaretNoName(p, pos + 255, end);
    }
  }

  lemma {:induction false} CaretsCut(p: seq<Byte>, pos: nat, end: nat, most: nat)
    requires pos <= end <= |p| && CaretRun(p, pos, end) - pos > most
    ensures Carets(p, pos, end, most) == most && pos + most < end && p[pos + most] == CARET
    decreases most
  {
    if most > 0 { CaretsCut(p, pos + 1, end, most - 1); }
  }

  lemma CaretNoName(p: seq<Byte>, q: nat, end: nat)
    requires q < end <= |p| && p[q] == CARET
    ensures NameBody(p, q, end, false, 255).None?
  {
    if q + 4 <= end { assert p[q..q + 4][0] == CARET; }
  }

  // ----- the bytes a compiler emits for a definition -----

  /** Method(name, ..) { code }: MethodOp, PkgLength, NameString, flags, TermList. */
  function EncodeMethod(name: NameRef, flags: Byte, code: seq<Byte>): (r: seq<Byte>)
    requires IsName(name) && |EncodeName(name) + ([flags] + code)| < 0x0FFF_FFFC
  {
    [0x14] + Wrap(EncodeName(name) + ([flags] + code))
  }

  lemma BareSegEnd(seg: Seg, p: seq<Byte>, pos: nat, end: nat)
    requires IsSeg(seg) && At(p, pos, seg) && pos + 4 <= end <= |p|
    ensures NameStringEnd(p, pos, end) == Some(pos + 4)
  {
    assert p[pos..pos + 4] == seg && p[pos] == seg[0];
    assert SegsAt(p, pos + 4, 0) == Some([]);
    assert SegsAt(p, pos, 1).Some?;
  }

  /** Slicing an encoded method, wherever it sits in its table and whatever name of up to twelve segments it
      has, gives back its code and the argument count in the low three bits of its flags. */
  lemma MethodRoundTrip(ts: TableSet, e: Entry, aml: seq<Byte>, name: NameRef, flags: Byte, code: seq<Byte>)
    requires IsName(name) && |name.segs| <= 12 && |EncodeName(name) + ([flags] + code)| < 0x0FFF_FFFC
    requires e.kind == MethodKind && TableOf(ts, e.table) == Some(aml)
    requires At(aml, e.offset, EncodeMethod(name, flags, code))
    ensures MethodBody(ts, e) == Some(Body(code, flags % 8))
  {
    hide NameStringEnd, Wrap, PkgAt, IsName, EncodeName;
    var n := EncodeName(name);
    var inner := n + ([flags] + code);
    var q := e.offset + 1;
    AtHead(aml, e.offset, 0x14, Wrap(inner));
    WrapDecodes(inner, aml, q, |aml|);
    var start, end := q + |Wrap(inner)| - |inner|, q + |Wrap(inner)|;
    AtSplit(aml, start, n, [flags] + code);
    AtHead(aml, start + |n|, flags, code);
    NameEnds(aml, start, end, name);
    assert aml[start + |n| + 1..end] == code;
  }

  /** The namespace code finds the end of an encoded name. */
  lemma NameEnds(p: seq<Byte>, pos: nat, end: nat, name: NameRef)
    requires IsName(name) && |name.segs| <= 12 && At(p, pos, EncodeName(name)) && pos + |EncodeName(name)| <= end <= |p|
    ensures NameStringEnd(p, pos, end) == Some(pos + |EncodeName(name)|)
  {
    hide NameStringEnd, NameAt, EncodeName, IsName;
    NameRoundTrip(name, p, pos, end);
    FewCarets(p, pos, end);
    ReadersAgree(p, pos, end);
  }
}
