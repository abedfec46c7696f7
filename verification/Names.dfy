/** NameStrings (section 20.2.2 of ACPI 6.x), canonical paths and the scope search.

    The first half says what the code does with text: parse a NameString, trim and
    extend a path inside a 64-character buffer, search enclosing scopes. The second
    half says what that means for lists of name segments. */
module Names {
  import opened Bits
  import opened PkgLength

  const BACKSLASH: Byte := 0x5C
  const DOT: Byte := 0x2E
  const CARET: Byte := 0x5E
  const PATH_CAP: nat := 64     // characters in a path buffer, terminator included
  const MAX_SEGS: nat := 15     // segments one NameString may carry

  type Path = seq<Byte>
  type Seg = seq<Byte>

  predicate LeadChar(c: Byte) { c == 0x5F || 0x41 <= c <= 0x5A }
  predicate NameChar(c: Byte) { LeadChar(c) || 0x30 <= c <= 0x39 }

  predicate IsSeg(s: seq<Byte>)
  {
    |s| == 4 && LeadChar(s[0]) && NameChar(s[1]) && NameChar(s[2]) && NameChar(s[3])
  }

  predicate AllSegs(ss: seq<Seg>) { forall i :: 0 <= i < |ss| ==> IsSeg(ss[i]) }

  /** A parsed NameString: a root marker or a count of parent steps, then segments. */
  datatype NameRef = NameRef(root: bool, caret: nat, segs: seq<Seg>)

  predicate IsName(nr: NameRef)
  {
    (nr.root ==> nr.caret == 0) && nr.caret <= 255 && |nr.segs| <= MAX_SEGS && AllSegs(nr.segs)
  }

  predicate NameStart(c: Byte) { c == BACKSLASH || c == CARET || c == 0x2E || c == 0x2F || LeadChar(c) }

  // ----- parsing -----

  datatype Parsed = Parsed(name: NameRef, next: nat)

  /** The run of '^' at `pos`, at most `most` of them. */
  function Carets(p: seq<Byte>, pos: nat, end: nat, most: nat): (n: nat)
    requires end <= |p|
    ensures n <= most && (n > 0 ==> pos + n <= end)
    ensures forall i :: pos <= i < pos + n ==> p[i] == CARET
    ensures n < most && pos + n < end ==> p[pos + n] != CARET
    decreases most
  {
    if most > 0 && pos < end && p[pos] == CARET then 1 + Carets(p, pos + 1, end, most - 1) else 0
  }

  /** `n` consecutive segments at `q`, if all are well formed. */
  function SegsAt(p: seq<Byte>, q: nat, n: nat): (r: Option<seq<Seg>>)
    requires q + 4 * n <= |p|
    ensures r.Some? ==> |r.value| == n && AllSegs(r.value)
    decreases n
  {
    if n == 0 then Some([])
    else if !IsSeg(p[q..q + 4]) then None
    else match SegsAt(p, q + 4, n - 1)
      case None => None
      case Some(rest) => Some([p[q..q + 4]] + rest)
  }

  /** The segments behind a name's prefix characters. */
  function NameBody(p: seq<Byte>, q: nat, end: nat, root: bool, caret: nat): (r: Option<Parsed>)
    requires end <= |p|
    ensures r.Some? ==> q < r.value.next <= end && |r.value.name.segs| <= MAX_SEGS && AllSegs(r.value.name.segs)
    ensures r.Some? ==> r.value.name.root == root && r.value.name.caret == caret
  {
    if q >= end then None
    else if p[q] == 0 then Some(Parsed(NameRef(root, caret, []), q + 1))
    else if p[q] == 0x2F && (q + 1 >= end || p[q + 1] == 0 || p[q + 1] > 15) then None
    else
      var n := if p[q] == 0x2E then 2 else if p[q] == 0x2F then p[q + 1] else 1;
      var q1 := if p[q] == 0x2E then q + 1 else if p[q] == 0x2F then q + 2 else q;
      if q1 + 4 * n > end then None
      else match SegsAt(p, q1, n)
        case None => None
        case Some(ss) => Some(Parsed(NameRef(root, caret, ss), q1 + 4 * n))
  }

  /** The NameString at `pos` of `p[..end]`. */
  function NameAt(p: seq<Byte>, pos: nat, end: nat): (r: Option<Parsed>)
    requires end <= |p|
    ensures r.Some? ==> pos < r.value.next <= end && IsName(r.value.name)
  {
    if pos < end && p[pos] == BACKSLASH then NameBody(p, pos + 1, end, true, 0)
    else
      var c := Carets(p, pos, end, 255);
      NameBody(p, pos + c, end, false, c)
  }

  function Prepend(a: seq<Seg>, o: Option<seq<Seg>>): (r: Option<seq<Seg>>)
  {
    match o
    case None => None
    case Some(b) => Some(a + b)
  }

  lemma PrependNothing(o: Option<seq<Seg>>)
    ensures Prepend([], o) == o
  {
    assert o.Some? ==> [] + o.value == o.value;
  }

  lemma {:induction false} CaretsStep(p: seq<Byte>, pos: nat, end: nat, k: nat)
    requires end <= |p| && k <= 255 && pos + k <= end
    requires forall i :: pos <= i < pos + k ==> p[i] == CARET
    ensures Carets(p, pos, end, 255) == k + Carets(p, pos + k, end, 255 - k)
  {
    CaretsFrom(p, pos, end, k, 255);
  }

  lemma {:induction false} CaretsFrom(p: seq<Byte>, pos: nat, end: nat, k: nat, most: nat)
    requires end <= |p| && k <= most && pos + k <= end
    requires forall i :: pos <= i < pos + k ==> p[i] == CARET
    ensures Carets(p, pos, end, most) == k + Carets(p, pos + k, end, most - k)
    decreases k
  {
    if k > 0 { CaretsFrom(p, pos + 1, end, k - 1, most - 1); }
  }

  method ReadNameRef(p: seq<Byte>, start: nat, end: nat) returns (ok: bool, nr: NameRef, next: nat)
    requires start <= end <= |p|
    ensures ok == NameAt(p, start, end).Some?
    ensures ok ==> NameAt(p, start, end) == Some(Parsed(nr, next))
  {
    hide Carets, SegsAt;
    ok, nr, next := false, NameRef(false, 0, []), start;
    var pos := start;
    if pos < end && p[pos] == BACKSLASH {
      nr := nr.(root := true);
      pos := pos + 1;
    } else {
      while pos < end && p[pos] == CARET && nr.caret < 255
        invariant start <= pos <= end && pos == start + nr.caret && nr.caret <= 255
        invariant nr == NameRef(false, pos - start, [])
        invariant forall i :: start <= i < pos ==> p[i] == CARET
      {
        nr := nr.(caret := nr.caret + 1);
        pos := pos + 1;
      }
      CaretsStep(p, start, end, nr.caret);
    }
    assert NameAt(p, start, end) == NameBody(p, pos, end, nr.root, nr.caret);
    if pos >= end { return; }
    if p[pos] == 0x00 { return true, nr, pos + 1; }
    var count := 1;
    if p[pos] == 0x2E {
      count := 2;
      pos := pos + 1;
    } else if p[pos] == 0x2F {
      pos := pos + 1;
      if pos >= end { return; }
      count := p[pos];
      pos := pos + 1;
      if count == 0 || count > 15 { return; }
    }
    if pos + count * 4 > end { return; }
    var segs;
    ok, segs := ReadSegs(p, pos, count);
    return ok, nr.(segs := segs), pos + count * 4;
  }

  /** Position `i` of a segment admits the character `c`. */
  predicate Admits(i: nat, c: Byte) { if i == 0 then LeadChar(c) else NameChar(c) }

  lemma SegByPosition(s: seq<Byte>)
    requires |s| == 4
    ensures IsSeg(s) <==> forall j :: 0 <= j < 4 ==> Admits(j, s[j])
  {
    if forall j :: 0 <= j < 4 ==> Admits(j, s[j]) {
      assert Admits(0, s[0]) && Admits(1, s[1]) && Admits(2, s[2]) && Admits(3, s[3]);
    }
  }

  method ReadSeg(p: seq<Byte>, pos: nat) returns (ok: bool, seg: Seg)
    requires pos + 4 <= |p|
    ensures ok == IsSeg(p[pos..pos + 4])
    ensures ok ==> seg == p[pos..pos + 4]
  {
    seg := [];
    ghost var whole := p[pos..pos + 4];
    SegByPosition(whole);
    for i := 0 to 4
      invariant seg == whole[..i]
      invariant forall j :: 0 <= j < i ==> Admits(j, whole[j])
    {
      var c := p[pos + i];
      assert c == whole[i];
      if if i == 0 then !LeadChar(c) else !NameChar(c) { return false, seg; }
      seg := seg + [c];
    }
    ok := true;
  }

  method ReadSegs(p: seq<Byte>, start: nat, count: nat) returns (ok: bool, segs: seq<Seg>)
    requires start + 4 * count <= |p|
    ensures ok == SegsAt(p, start, count).Some?
    ensures ok ==> SegsAt(p, start, count) == Some(segs)
  {
    segs := [];
    var pos := start;
    PrependNothing(SegsAt(p, start, count));
    for s := 0 to count
      invariant pos == start + 4 * s && |segs| == s
      invariant SegsAt(p, start, count) == Prepend(segs, SegsAt(p, pos, count - s))
    {
      var seg;
      ok, seg := ReadSeg(p, pos);
      if !ok { return; }
      ghost var rest := SegsAt(p, pos + 4, count - s - 1);
      assert Prepend(segs, Prepend([seg], rest)) == Prepend(segs + [seg], rest) by {
        assert rest.Some? ==> segs + ([seg] + rest.value) == (segs + [seg]) + rest.value;
      }
      segs := segs + [seg];
      pos := pos + 4;
    }
    ok := true;
    assert segs + [] == segs;
  }

  // ----- encoding -----

  function Concat(ss: seq<Seg>): (r: seq<Byte>)
    requires AllSegs(ss)
    ensures |r| == 4 * |ss|
  {
    if ss == [] then [] else ss[0] + Concat(ss[1..])
  }

  function Repeat(b: Byte, n: nat): (r: seq<Byte>)
    ensures |r| == n && forall i :: 0 <= i < n ==> r[i] == b
  {
    seq(n, i => b)
  }

  function EncodeBody(ss: seq<Seg>): (r: seq<Byte>)
    requires |ss| <= MAX_SEGS && AllSegs(ss)
    ensures |r| > 0
  {
    if |ss| == 0 then [0]
    else if |ss| == 1 then Concat(ss)
    else if |ss| == 2 then [0x2E] + Concat(ss)
    else [0x2F, |ss|] + Concat(ss)
  }

  function EncodeName(nr: NameRef): (r: seq<Byte>)
    requires IsName(nr)
    ensures |r| > 0
  {
    (if nr.root then [BACKSLASH] else Repeat(CARET, nr.caret)) + EncodeBody(nr.segs)
  }

  lemma {:induction false} SegsRoundTrip(ss: seq<Seg>, p: seq<Byte>, q: nat)
    requires AllSegs(ss) && At(p, q, Concat(ss))
    ensures SegsAt(p, q, |ss|) == Some(ss)
  {
    if ss != [] {
      AtSplit(p, q, ss[0], Concat(ss[1..]));
      SegsRoundTrip(ss[1..], p, q + 4);
      assert ss == [ss[0]] + ss[1..];
    }
  }

  lemma BodyRoundTrip(ss: seq<Seg>, p: seq<Byte>, q: nat, end: nat, root: bool, caret: nat)
    requires |ss| <= MAX_SEGS && AllSegs(ss) && At(p, q, EncodeBody(ss)) && q + |EncodeBody(ss)| <= end <= |p|
    ensures NameBody(p, q, end, root, caret) == Some(Parsed(NameRef(root, caret, ss), q + |EncodeBody(ss)|))
    ensures p[q] != CARET && p[q] != BACKSLASH
  {
    if |ss| == 0 {
      AtHead(p, q, 0, []);
    } else if |ss| == 1 {
      SegsRoundTrip(ss, p, q);
      assert p[q..q + 4] == ss[0];
      assert p[q] == ss[0][0];
    } else if |ss| == 2 {
      AtHead(p, q, 0x2E, Concat(ss));
      SegsRoundTrip(ss, p, q + 1);
    } else {
      AtSplit(p, q, [0x2F, |ss|], Concat(ss));
      assert p[q..q + 2][0] == 0x2F && p[q..q + 2][1] == |ss|;
      SegsRoundTrip(ss, p, q + 2);
    }
  }

  /** Parsing an encoded name, whatever follows it, gives the name back and its exact extent. */
  lemma NameRoundTrip(nr: NameRef, p: seq<Byte>, pos: nat, end: nat)
    requires IsName(nr) && At(p, pos, EncodeName(nr)) && pos + |EncodeName(nr)| <= end <= |p|
    ensures NameAt(p, pos, end) == Some(Parsed(nr, pos + |EncodeName(nr)|))
  {
    hide NameBody, EncodeBody, Carets, IsSeg;
    var prefix := if nr.root then [BACKSLASH] else Repeat(CARET, nr.caret);
    AtSplit(p, pos, prefix, EncodeBody(nr.segs));
    BodyRoundTrip(nr.segs, p, pos + |prefix|, end, nr.root, nr.caret);
    if nr.root {
      AtHead(p, pos, BACKSLASH, []);
    } else {
      CaretsRoundTrip(p, pos, end, nr.caret);
    }
  }

  // ----- the grammar -----

  /** The spellings of a NamePath (section 20.2.2 of ACPI 6.x): the null name, one segment, a dual path, or
      a counted path of up to fifteen. */
  predicate PathSpells(b: seq<Byte>, ss: seq<Seg>)
  {
    && AllSegs(ss)
    && (|| (ss == [] && b == [0])
        || (|ss| == 1 && b == Concat(ss))
        || (|ss| == 2 && b == [0x2E] + Concat(ss))
        || (1 <= |ss| <= 15 && b == [0x2F, |ss|] + Concat(ss)))
  }

  /** The spellings of a NameString: a backslash or up to 255 carets, and a path. */
  predicate Spells(b: seq<Byte>, nr: NameRef)
  {
    var k := if nr.root then 1 else nr.caret;
    && (nr.root ==> nr.caret == 0) && k <= |b| && k <= 255
    && (forall i :: 0 <= i < k ==> b[i] == if nr.root then BACKSLASH else CARET)
    && PathSpells(b[k..], nr.segs)
  }

  lemma {:induction false} SegsBack(p: seq<Byte>, q: nat, n: nat)
    requires q + 4 * n <= |p| && SegsAt(p, q, n).Some?
    ensures p[q..q + 4 * n] == Concat(SegsAt(p, q, n).value)
    decreases n
  {
    if n > 0 {
      SegsBack(p, q + 4, n - 1);
      assert p[q..q + 4 * n] == p[q..q + 4] + p[q + 4..q + 4 * n];
      var ss := SegsAt(p, q, n).value;
      assert ss[0] == p[q..q + 4] && ss[1..] == SegsAt(p, q + 4, n - 1).value;
    }
  }

  lemma SegsIff(p: seq<Byte>, q: nat, n: nat, ss: seq<Seg>)
    requires q + 4 * n <= |p|
    ensures SegsAt(p, q, n) == Some(ss) <==> |ss| == n && AllSegs(ss) && p[q..q + 4 * n] == Concat(ss)
  {
    if SegsAt(p, q, n).Some? { SegsBack(p, q, n); }
    if |ss| == n && AllSegs(ss) && p[q..q + 4 * n] == Concat(ss) {
      SegsRoundTrip(ss, p, q);
    }
  }

  /** A path is parsed where it is spelled. */
  lemma PathParsed(p: seq<Byte>, q: nat, end: nat, root: bool, caret: nat, ss: seq<Seg>, next: nat)
    requires q <= next <= end <= |p| && PathSpells(p[q..next], ss)
    ensures NameBody(p, q, end, root, caret) == Some(Parsed(NameRef(root, caret, ss), next))
    ensures q < next && p[q] != CARET && p[q] != BACKSLASH
  {
    hide SegsAt, Concat, IsSeg;
    var b := p[q..next];
    assert |b| > 0 && p[q] == b[0];
    if ss == [] {
      assert b == [0] || |b| == 0;
    } else if |ss| == 1 && b == Concat(ss) {
      SegsIff(p, q, 1, ss);
      SegLead(p, q, ss);
    } else if |ss| == 2 && b == [0x2E] + Concat(ss) {
      assert p[q + 1..next] == b[1..] == Concat(ss);
      SegsIff(p, q + 1, 2, ss);
    } else {
      assert p[q + 1] == b[1] == |ss|;
      assert p[q + 2..next] == b[2..] == Concat(ss);
      SegsIff(p, q + 2, |ss|, ss);
    }
  }

  lemma SegLead(p: seq<Byte>, q: nat, ss: seq<Seg>)
    requires |ss| == 1 && AllSegs(ss) && q + 4 <= |p| && p[q..q + 4] == Concat(ss)
    ensures LeadChar(p[q])
  {
    assert Concat(ss) == ss[0] + Concat(ss[1..]) && ss[1..] == [];
    assert p[q] == p[q..q + 4][0];
  }

  /** A parsed path is spelled there. */
  lemma PathSpelled(p: seq<Byte>, q: nat, end: nat, root: bool, caret: nat)
    requires end <= |p| && NameBody(p, q, end, root, caret).Some?
    ensures var n := NameBody(p, q, end, root, caret).value; q < n.next <= end && PathSpells(p[q..n.next], n.name.segs)
  {
    hide SegsAt, Concat, IsSeg;
    var next, ss := NameBody(p, q, end, root, caret).value.next, NameBody(p, q, end, root, caret).value.name.segs;
    if p[q] == 0 {
      assert p[q..next] == [0];
    } else if p[q] == 0x2E {
      SegsIff(p, q + 1, 2, ss);
      assert p[q..next] == [0x2E] + p[q + 1..next];
    } else if p[q] == 0x2F {
      SegsIff(p, q + 2, p[q + 1], ss);
      assert p[q..next] == [0x2F, p[q + 1]] + p[q + 2..next];
    } else {
      SegsIff(p, q, 1, ss);
    }
  }

  lemma CaretsExact(p: seq<Byte>, pos: nat, end: nat, k: nat)
    requires pos + k < end <= |p| && k <= 255 && p[pos + k] != CARET
    requires forall i :: pos <= i < pos + k ==> p[i] == CARET
    ensures Carets(p, pos, end, 255) == k
  {
    hide Carets;
    var n := CaretCount(p, pos, end);
  }

  lemma CaretCount(p: seq<Byte>, pos: nat, end: nat) returns (n: nat)
    requires end <= |p|
    ensures n == Carets(p, pos, end, 255) && n <= 255 && (n > 0 ==> pos + n <= end)
    ensures forall i :: pos <= i < pos + n ==> p[i] == CARET
    ensures n < 255 && pos + n < end ==> p[pos + n] != CARET
  {
    n := Carets(p, pos, end, 255);
  }

  /** The parser reads exactly the grammar: at `pos` it finds the name `nr` and stops at `next` if and only
      if the bytes in between spell that name. */
  lemma NameGrammar(p: seq<Byte>, pos: nat, end: nat, nr: NameRef, next: nat)
    requires pos <= end <= |p|
    ensures NameAt(p, pos, end) == Some(Parsed(nr, next)) <==> pos <= next <= end && Spells(p[pos..next], nr)
  {
    hide NameBody, PathSpells, Carets;
    if pos <= next <= end && Spells(p[pos..next], nr) {
      var k := if nr.root then 1 else nr.caret;
      assert p[pos..next][k..] == p[pos + k..next];
      PathParsed(p, pos + k, end, nr.root, nr.caret, nr.segs, next);
      forall i | pos <= i < pos + k ensures p[i] == if nr.root then BACKSLASH else CARET {
        assert p[i] == p[pos..next][i - pos];
      }
      if !nr.root { CaretsExact(p, pos, end, k); }
    }
    if NameAt(p, pos, end) == Some(Parsed(nr, next)) {
      var c := CaretCount(p, pos, end);
      var k := if p[pos] == BACKSLASH then 1 else c;
      PathSpelled(p, pos + k, end, p[pos] == BACKSLASH, if p[pos] == BACKSLASH then 0 else c);
      assert p[pos..next][k..] == p[pos + k..next];
    }
  }

  /** The characters of segments, by the grammar's own list. */
  lemma Alphabet(c: Byte)
    ensures LeadChar(c) <==> c as char in "ABCDEFGHIJKLMNOPQRSTUVWXYZ_"
    ensures NameChar(c) <==> LeadChar(c) || c as char in "0123456789"
  {
    var lead, digits := "ABCDEFGHIJKLMNOPQRSTUVWXYZ_", "0123456789";
    if 0x41 <= c <= 0x5A { assert lead[c - 0x41] == c as char; }
    if c == 0x5F { assert lead[26] == c as char; }
    if 0x30 <= c <= 0x39 { assert digits[c - 0x30] == c as char; }
  }

  lemma CaretsRoundTrip(p: seq<Byte>, pos: nat, end: nat, k: nat)
    requires At(p, pos, Repeat(CARET, k)) && k <= 255 && pos + k < end <= |p| && p[pos + k] != CARET
    ensures Carets(p, pos, end, 255) == k
    ensures k > 0 ==> p[pos] == CARET
  {
    forall i | pos <= i < pos + k ensures p[i] == CARET {
      assert p[pos..pos + k][i - pos] == CARET;
    }
    CaretsStep(p, pos, end, k);
  }

  /** The first byte of an encoded name that has segments selects the name branch. */
  lemma NameStartByte(nr: NameRef)
    requires IsName(nr) && nr.segs != []
    ensures NameStart(EncodeName(nr)[0])
  {
    if !nr.root && nr.caret == 0 {
      assert EncodeName(nr) == EncodeBody(nr.segs);
      if |nr.segs| == 1 { assert EncodeName(nr)[0] == nr.segs[0][0]; }
    }
  }

  // ----- path text -----

  /** Drop trailing characters up to the last separator. */
  function StripName(buf: Path): (r: Path)
    ensures |r| <= |buf| && r == buf[..|r|]
    ensures r != [] ==> r[|r| - 1] == DOT || r[|r| - 1] == BACKSLASH
  {
    if buf == [] || buf[|buf| - 1] == DOT || buf[|buf| - 1] == BACKSLASH then buf else StripName(buf[..|buf| - 1])
  }

  /** Drop the last segment of a path; there is no parent of a first segment. */
  function TrimOne(buf: Path): (r: Option<Path>)
    ensures r.Some? ==> |r.value| < |buf| && r.value == buf[..|r.value|]
  {
    var s := StripName(buf);
    if s != [] && s[|s| - 1] == DOT then Some(s[..|s| - 1]) else None
  }

  function TrimMany(buf: Path, n: nat): (r: Option<Path>)
    ensures r.Some? ==> |r.value| + n <= |buf|
    decreases n
  {
    if n == 0 then Some(buf)
    else match TrimOne(buf)
      case None => None
      case Some(b) => TrimMany(b, n - 1)
  }

  /** A segment behind a path, with a dot unless the path ends at the root. */
  function Glue(buf: Path, seg: Seg): (r: Path)
  {
    buf + (if buf != [] && buf[|buf| - 1] != BACKSLASH then [DOT] else []) + seg
  }

  function GlueAll(buf: Path, segs: seq<Seg>): (r: Option<Path>)
    ensures r.Some? && |buf| < PATH_CAP ==> |r.value| < PATH_CAP
    decreases |segs|
  {
    if segs == [] then Some(buf)
    else if |Glue(buf, segs[0])| >= PATH_CAP then None
    else GlueAll(Glue(buf, segs[0]), segs[1..])
  }

  /** The absolute path a name denotes from `scope` with `extra` more parent steps. */
  function Resolve(scope: Path, nr: NameRef, extra: nat): (r: Option<Path>)
    ensures r.Some? ==> |r.value| < PATH_CAP
    ensures r.Some? && !nr.root ==> nr.caret + extra <= |scope|
  {
    if nr.root then GlueAll([BACKSLASH], nr.segs)
    else
      var buf := if |scope| < PATH_CAP then scope else scope[..PATH_CAP - 1];
      match TrimMany(buf, nr.caret + extra)
      case None => None
      case Some(b) => GlueAll(b, nr.segs)
  }

  method ResolveAbsolute(scope: Path, nr: NameRef, extra: nat) returns (ok: bool, out: Path)
    requires AllSegs(nr.segs)
    ensures ok == Resolve(scope, nr, extra).Some?
    ensures ok ==> Resolve(scope, nr, extra) == Some(out)
  {
    hide TrimMany, GlueAll;
    var buf := new Byte[PATH_CAP](i => 0);
    var w := 0;
    if nr.root {
      buf[w] := BACKSLASH;
      w := w + 1;
    } else {
      var i := 0;
      while i < |scope| && w + 1 < PATH_CAP
        invariant i == w && w < PATH_CAP && w <= |scope| && buf[..w] == scope[..i]
      {
        buf[w] := scope[i];
        w, i := w + 1, i + 1;
      }
      assert buf[..w] == if |scope| < PATH_CAP then scope else scope[..PATH_CAP - 1];
      ok, w := TrimBuffer(buf, w, nr.caret + extra);
      if !ok { return false, []; }
    }
    assert nr.root ==> buf[..w] == [BACKSLASH];
    ok, w := GlueBuffer(buf, w, nr.segs);
    return ok, buf[..w];
  }

  /** Drop `trims` trailing segments of the path in `buf[..w]`. */
  method TrimBuffer(buf: array<Byte>, start: nat, trims: nat) returns (ok: bool, w: nat)
    requires start <= buf.Length
    ensures w <= start
    ensures ok == TrimMany(buf[..start], trims).Some?
    ensures ok ==> TrimMany(buf[..start], trims) == Some(buf[..w])
  {
    hide TrimMany;
    w := start;
    for c := 0 to trims
      invariant w <= start
      invariant TrimMany(buf[..start], trims) == TrimMany(buf[..w], trims - c)
    {
      var s := StripBuffer(buf, w);
      TrimStep(buf[..w], buf[..s], trims - c);
      if s == 0 || buf[s - 1] != DOT { return false, s; }
      assert buf[..s][..s - 1] == buf[..s - 1];
      w := s - 1;
    }
    TrimNone(buf[..w]);
    ok := true;
  }

  lemma TrimNone(buf: Path)
    ensures TrimMany(buf, 0) == Some(buf)
  {
  }

  lemma TrimStep(buf: Path, s: Path, n: nat)
    requires StripName(buf) == s && n > 0
    ensures TrimMany(buf, n) == if s != [] && s[|s| - 1] == DOT then TrimMany(s[..|s| - 1], n - 1) else None
  {
    hide StripName;
  }

  method StripBuffer(buf: array<Byte>, start: nat) returns (w: nat)
    requires start <= buf.Length
    ensures w <= start && StripName(buf[..start]) == buf[..w]
  {
    w := start;
    while w > 0 && buf[w - 1] != DOT && buf[w - 1] != BACKSLASH
      invariant w <= start && StripName(buf[..start]) == StripName(buf[..w])
    {
      assert buf[..w][..w - 1] == buf[..w - 1];
      w := w - 1;
    }
  }

  /** Append one segment to the path in `buf[..start]`. */
  method GlueSegment(buf: array<Byte>, start: nat, seg: Seg) returns (ok: bool, w: nat)
    requires buf.Length == PATH_CAP && start < PATH_CAP && IsSeg(seg)
    modifies buf
    ensures w < PATH_CAP
    ensures ok == (|Glue(old(buf[..start]), seg)| < PATH_CAP)
    ensures ok ==> buf[..w] == Glue(old(buf[..start]), seg)
  {
    w := start;
    if w > 0 && buf[w - 1] != BACKSLASH {
      if w + 1 >= PATH_CAP { return false, w; }
      buf[w] := DOT;
      w := w + 1;
    }
    ghost var head := buf[..w];
    ghost var w0 := w;
    assert Glue(old(buf[..start]), seg) == head + seg;
    for i := 0 to 4
      invariant w == w0 + i && w < PATH_CAP
      invariant buf[..w] == head + seg[..i]
    {
      if w + 1 >= PATH_CAP { return false, w; }
      buf[w] := seg[i];
      w := w + 1;
      assert head + seg[..i + 1] == (head + seg[..i]) + [seg[i]];
    }
    ok := true;
  }

  method GlueBuffer(buf: array<Byte>, start: nat, segs: seq<Seg>) returns (ok: bool, w: nat)
    requires buf.Length == PATH_CAP && start < PATH_CAP && AllSegs(segs)
    modifies buf
    ensures w < PATH_CAP
    ensures ok == GlueAll(old(buf[..start]), segs).Some?
    ensures ok ==> GlueAll(old(buf[..start]), segs) == Some(buf[..w])
  {
    w := start;
    for s := 0 to |segs|
      invariant w < PATH_CAP
      invariant GlueAll(old(buf[..start]), segs) == GlueAll(buf[..w], segs[s..])
    {
      assert segs[s..][1..] == segs[s + 1..];
      ok, w := GlueSegment(buf, w, segs[s]);
      if !ok { return; }
    }
    ok := true;
  }

  // ----- searching enclosing scopes -----

  /** The first path among `keys` met while trimming `scope` one segment at a time. */
  function Search(keys: set<Path>, scope: Path, nr: NameRef, trim: nat): (r: Option<Path>)
    ensures r.Some? ==> r.value in keys && |r.value| < PATH_CAP
    decreases |scope| + 1 - trim
  {
    match Resolve(scope, nr, trim)
    case None => None
    case Some(abs) =>
      if abs in keys then Some(abs)
      else if nr.root || nr.caret > 0 || |abs| <= 1 then None
      else Search(keys, scope, nr, trim + 1)
  }

  /** The search loop shared by name operands, store targets and CondRefOf. */
  method SearchScopes(keys: set<Path>, scope: Path, nr: NameRef) returns (found: bool, abs: Path)
    requires AllSegs(nr.segs)
    ensures found == Search(keys, scope, nr, 0).Some?
    ensures found ==> Search(keys, scope, nr, 0) == Some(abs)
  {
    var trim := 0;
    found := false;
    while true
      invariant Search(keys, scope, nr, 0) == Search(keys, scope, nr, trim)
      decreases |scope| + 1 - trim
    {
      var ok;
      ok, abs := ResolveAbsolute(scope, nr, trim);
      if !ok { return; }
      if abs in keys { return true, abs; }
      if nr.root || nr.caret > 0 || |abs| <= 1 { return; }
      trim := trim + 1;
    }
  }

  // ----- what it means for segment lists -----

  type Segs = seq<Seg>

  /** Canonical text of a list of segments: "\A.B.C". */
  function Print(ss: Segs): (r: Path)
  {
    if ss == [] then [BACKSLASH] else Glue(Print(ss[..|ss| - 1]), ss[|ss| - 1])
  }

  /** A path of n segments has 5n characters: twelve segments is the most a buffer holds. */
  lemma {:induction false} PrintShape(ss: Segs)
    requires AllSegs(ss)
    ensures |Print(ss)| == if ss == [] then 1 else 5 * |ss|
    ensures ss != [] ==> NameChar(Print(ss)[|Print(ss)| - 1])
    ensures |Print(ss)| < PATH_CAP <==> |ss| <= 12
  {
    if ss != [] { PrintShape(ss[..|ss| - 1]); }
  }

  lemma {:induction false} PrintInjective(a: Segs, b: Segs)
    requires AllSegs(a) && AllSegs(b) && Print(a) == Print(b)
    ensures a == b
  {
    PrintShape(a);
    PrintShape(b);
    if a != [] {
      var n := |a| - 1;
      PrintShape(a[..n]);
      PrintShape(b[..n]);
      var cut := |Print(a)| - 4;
      assert Print(a)[cut..] == a[n] && Print(b)[cut..] == b[n];
      assert Print(a)[..|Print(a[..n])|] == Print(a[..n]) && Print(b)[..|Print(b[..n])|] == Print(b[..n]);
      PrintInjective(a[..n], b[..n]);
      assert a == a[..n] + [a[n]] && b == b[..n] + [b[n]];
    }
  }

  lemma {:induction false} StripSegment(buf: Path, seg: Seg)
    requires forall i :: 0 <= i < |seg| ==> seg[i] != DOT && seg[i] != BACKSLASH
    requires buf != [] && (buf[|buf| - 1] == DOT || buf[|buf| - 1] == BACKSLASH)
    ensures StripName(buf + seg) == buf
    decreases |seg|
  {
    if seg == [] {
      assert buf + seg == buf;
    } else {
      assert (buf + seg)[..|buf + seg| - 1] == buf + seg[..|seg| - 1];
      StripSegment(buf, seg[..|seg| - 1]);
    }
  }

  /** The text of a path up to its last segment, separator included. */
  function Before(init: Segs): (r: Path)
    ensures r != []
  {
    if init == [] then [BACKSLASH] else Print(init) + [DOT]
  }

  lemma PrintSplit(ss: Segs)
    requires AllSegs(ss) && ss != []
    ensures Print(ss) == Before(ss[..|ss| - 1]) + ss[|ss| - 1]
  {
    hide Print, Glue;
    var init, last := ss[..|ss| - 1], ss[|ss| - 1];
    PrintLast(ss);
    if init == [] {
      PrintRoot();
      GlueRoot(last);
    } else {
      PrintShape(init);
      GlueDot(Print(init), last);
    }
  }

  lemma GlueRoot(seg: Seg)
    ensures Glue([BACKSLASH], seg) == [BACKSLASH] + seg
  {
    assert [BACKSLASH] + [] + seg == [BACKSLASH] + seg;
  }

  lemma GlueDot(buf: Path, seg: Seg)
    requires buf != [] && NameChar(buf[|buf| - 1])
    ensures Glue(buf, seg) == buf + [DOT] + seg
  {
  }

  lemma PrintLast(ss: Segs)
    requires ss != []
    ensures Print(ss) == Glue(Print(ss[..|ss| - 1]), ss[|ss| - 1])
  {
    hide Glue;
  }

  lemma SegPlain(seg: Seg)
    requires IsSeg(seg)
    ensures forall i :: 0 <= i < |seg| ==> seg[i] != DOT && seg[i] != BACKSLASH
  {
  }

  /** Trimming a canonical path drops its last segment; the first segment cannot be dropped. */
  lemma TrimCanonical(ss: Segs)
    requires AllSegs(ss)
    ensures TrimOne(Print(ss)) == if |ss| >= 2 then Some(Print(ss[..|ss| - 1])) else None
  {
    if ss != [] {
      var head, last := Before(ss[..|ss| - 1]), ss[|ss| - 1];
      PrintSplit(ss);
      SegPlain(last);
      StripSegment(head, last);
      assert |ss| >= 2 ==> head[..|head| - 1] == Print(ss[..|ss| - 1]);
    }
  }

  lemma {:induction false} TrimManyCanonical(ss: Segs, n: nat)
    requires AllSegs(ss)
    ensures TrimMany(Print(ss), n) ==
            if n == 0 || n < |ss| then Some(Print(if n == 0 then ss else ss[..|ss| - n])) else None
    decreases n
  {
    hide TrimOne, Print;
    if n > 0 {
      TrimCanonical(ss);
      if |ss| >= 2 {
        TrimManyCanonical(ss[..|ss| - 1], n - 1);
        assert n < |ss| ==> ss[..|ss| - 1][..|ss| - n] == ss[..|ss| - n];
      }
    }
  }

  lemma {:induction false} GlueAllCanonical(base: Segs, segs: Segs)
    requires AllSegs(base) && AllSegs(segs) && |base| <= 12
    ensures GlueAll(Print(base), segs) == if |base + segs| <= 12 then Some(Print(base + segs)) else None
    decreases |segs|
  {
    if segs == [] {
      assert base + segs == base;
    } else {
      var next := base + [segs[0]];
      assert next[..|next| - 1] == base;
      assert Print(next) == Glue(Print(base), segs[0]);
      PrintShape(next);
      assert next + segs[1..] == base + segs;
      if |next| <= 12 { GlueAllCanonical(next, segs[1..]); }
    }
  }

  lemma PrintRoot()
    ensures Print([]) == [BACKSLASH]
  {
  }

  /** The segments a name denotes from `scope` with `extra` more parent steps: drop, then append. */
  function Candidate(scope: Segs, nr: NameRef, extra: nat): (r: Option<Segs>)
  {
    var drop := nr.caret + extra;
    if nr.root then Some(nr.segs)
    else if drop == 0 then Some(scope + nr.segs)
    else if drop < |scope| then Some(scope[..|scope| - drop] + nr.segs)
    else None
  }

  /** On a canonical scope, resolution is "drop the last segments, append, print": it fails
      exactly when a nonzero drop would leave nothing of the scope or the text is too long. */
  lemma ResolveCanonical(scope: Segs, nr: NameRef, extra: nat)
    requires AllSegs(scope) && |scope| <= 12 && AllSegs(nr.segs)
    ensures Resolve(Print(scope), nr, extra) ==
            var c := Candidate(scope, nr, extra);
            if c.Some? && |c.value| <= 12 then Some(Print(c.value)) else None
  {
    hide Print, TrimMany, GlueAll, IsSeg;
    PrintShape(scope);
    if nr.root {
      assert [] + nr.segs == nr.segs;
      PrintRoot();
      GlueAllCanonical([], nr.segs);
    } else {
      var drop := nr.caret + extra;
      TrimManyCanonical(scope, drop);
      if drop == 0 {
        GlueAllCanonical(scope, nr.segs);
      } else if drop < |scope| {
        GlueAllCanonical(scope[..|scope| - drop], nr.segs);
      }
    }
  }

  /** Search over segment lists: a rooted or caret name is tried once; a relative name is
      tried under the enclosing prefixes of length `k` down to 1 (0 only for the root scope). */
  function LookupFrom(keys: set<Segs>, scope: Segs, segs: Segs, k: nat): (r: Option<Segs>)
    requires k <= |scope|
    decreases k
  {
    if k + |segs| > 12 then None
    else if scope[..k] + segs in keys then Some(scope[..k] + segs)
    else if k <= 1 then None
    else LookupFrom(keys, scope, segs, k - 1)
  }

  function Lookup(keys: set<Segs>, scope: Segs, nr: NameRef): (r: Option<Segs>)
  {
    if nr.root || nr.caret > 0 then
      var c := Candidate(scope, nr, 0);
      if c.Some? && |c.value| <= 12 && c.value in keys then c else None
    else LookupFrom(keys, scope, nr.segs, |scope|)
  }

  /** Text keys and segment keys name the same objects. */
  ghost predicate SameKeys(keys: set<Path>, skeys: set<Segs>)
  {
    forall ss: Segs | AllSegs(ss) && |ss| <= 12 :: Print(ss) in keys <==> ss in skeys
  }

  lemma KeyAgrees(keys: set<Path>, skeys: set<Segs>, ss: Segs)
    requires SameKeys(keys, skeys) && AllSegs(ss) && |ss| <= 12
    ensures Print(ss) in keys <==> ss in skeys
  {
  }

  lemma {:induction false} SearchFrom(keys: set<Path>, skeys: set<Segs>, scope: Segs, nr: NameRef, trim: nat)
    requires AllSegs(scope) && |scope| <= 12 && AllSegs(nr.segs) && nr.segs != [] && !nr.root && nr.caret == 0
    requires SameKeys(keys, skeys)
    requires trim == 0 || trim < |scope|
    ensures Search(keys, Print(scope), nr, trim) ==
            var r := LookupFrom(skeys, scope, nr.segs, |scope| - trim);
            if r.Some? then Some(Print(r.value)) else None
    decreases |scope| - trim
  {
    hide Resolve, Print, SameKeys;
    ResolveCanonical(scope, nr, trim);
    var k := |scope| - trim;
    var c := scope[..k] + nr.segs;
    assert Candidate(scope, nr, trim) == Some(c) by { assert trim == 0 ==> scope[..k] == scope; }
    if |c| <= 12 {
      PrintShape(c);
      KeyAgrees(keys, skeys, c);
      ResolveCanonical(scope, nr, trim + 1);
      if trim + 1 < |scope| { SearchFrom(keys, skeys, scope, nr, trim + 1); }
    }
  }

  /** The search over text finds exactly what the search over segments finds. */
  lemma SearchCanonical(keys: set<Path>, skeys: set<Segs>, scope: Segs, nr: NameRef)
    requires AllSegs(scope) && |scope| <= 12 && AllSegs(nr.segs) && nr.segs != []
    requires SameKeys(keys, skeys)
    ensures Search(keys, Print(scope), nr, 0) ==
            var r := Lookup(skeys, scope, nr);
            if r.Some? then Some(Print(r.value)) else None
  {
    hide Resolve, Print, SameKeys, LookupFrom;
    if nr.root || nr.caret > 0 {
      ResolveCanonical(scope, nr, 0);
      var c := Candidate(scope, nr, 0);
      if c.Some? && |c.value| <= 12 { KeyAgrees(keys, skeys, c.value); }
    } else {
      SearchFrom(keys, skeys, scope, nr, 0);
    }
  }

  /** What the relative search returns: the binding at the longest enclosing prefix of length `k` down
      to 1, if the first candidate's text fits its buffer; otherwise nothing, wherever the name is
      bound. */
  lemma {:induction false} LookupLongest(keys: set<Segs>, scope: Segs, segs: Segs, k: nat, j: nat)
    requires 1 <= j <= k <= |scope|
    requires scope[..j] + segs in keys
    requires forall i :: j < i <= k ==> scope[..i] + segs !in keys
    ensures LookupFrom(keys, scope, segs, k) == if k + |segs| <= 12 then Some(scope[..j] + segs) else None
    decreases k
  {
    if j < k { LookupLongest(keys, scope, segs, k - 1, j); }
  }

  lemma {:induction false} LookupNone(keys: set<Segs>, scope: Segs, segs: Segs, k: nat)
    requires k <= |scope|
    requires forall i :: (if k == 0 then 0 else 1) <= i <= k ==> scope[..i] + segs !in keys
    ensures LookupFrom(keys, scope, segs, k) == None
    decreases k
  {
    if k > 1 && k + |segs| <= 12 { LookupNone(keys, scope, segs, k - 1); }
  }

  /** The upward search of section 5.3 of ACPI 6.x: the name is looked for in the current scope and
      then in each scope around it, the root last. */
  function SearchUp(keys: set<Segs>, scope: Segs, segs: Segs, k: nat): (r: Option<Segs>)
    requires k <= |scope|
    decreases k
  {
    if scope[..k] + segs in keys then Some(scope[..k] + segs)
    else if k == 0 then None
    else SearchUp(keys, scope, segs, k - 1)
  }

  /** The name is bound in one of the scopes of `lo` to `hi` segments around the place of use. */
  predicate BoundWithin(keys: set<Segs>, scope: Segs, segs: Segs, lo: nat, hi: nat)
    requires hi <= |scope|
  {
    exists i :: lo <= i <= hi && scope[..i] + segs in keys
  }

  lemma {:induction false} SearchUpFinds(keys: set<Segs>, scope: Segs, segs: Segs, k: nat)
    requires k <= |scope|
    ensures SearchUp(keys, scope, segs, k).Some? <==> BoundWithin(keys, scope, segs, 0, k)
    decreases k
  {
    if k > 0 { SearchUpFinds(keys, scope, segs, k - 1); }
  }

  /** Exactly when the code's search is the upward search. It stops one scope short of the root, so it
      misses a name bound at the root alone; and it gives up at once when the first candidate does
      not fit its 64-byte buffer, so it then misses every binding. */
  lemma {:induction false} LookupIsSearchUp(keys: set<Segs>, scope: Segs, segs: Segs, k: nat)
    requires k <= |scope|
    ensures LookupFrom(keys, scope, segs, k) == SearchUp(keys, scope, segs, k) <==>
            if k + |segs| > 12 then !BoundWithin(keys, scope, segs, 0, k)
            else k == 0 || segs !in keys || BoundWithin(keys, scope, segs, 1, k)
    decreases k
  {
    SearchUpFinds(keys, scope, segs, k);
    assert scope[..0] + segs == segs;
    if k > 1 && k + |segs| <= 12 && scope[..k] + segs !in keys { LookupIsSearchUp(keys, scope, segs, k - 1); }
  }

  /** A global is invisible to a relative name used inside any scope of up to eleven segments, and from
      a scope of twelve so is a name bound in the scope around it. */
  lemma RootNotSearched(scope: Segs, seg: Seg)
    requires AllSegs(scope) && IsSeg(seg) && 1 <= |scope| <= 12
    ensures |scope| <= 11 ==> Lookup({[seg]}, scope, NameRef(false, 0, [seg])) == None
    ensures |scope| == 12 ==> Lookup({scope[..11] + [seg]}, scope, NameRef(false, 0, [seg])) == None
    ensures SearchUp({[seg]}, scope, [seg], |scope|).Some?
    ensures SearchUp({scope[..|scope| - 1] + [seg]}, scope, [seg], |scope|).Some?
  {
    forall i | 1 <= i <= |scope| ensures scope[..i] + [seg] !in {[seg]} {
      assert |scope[..i] + [seg]| == i + 1;
    }
    LookupNone({[seg]}, scope, [seg], |scope|);
    assert scope[..0] + [seg] == [seg];
    SearchUpFinds({[seg]}, scope, [seg], |scope|);
    SearchUpFinds({scope[..|scope| - 1] + [seg]}, scope, [seg], |scope|);
  }
}
