/** The calendar's event table and its text file.

    `SaveFile` is what saving writes, `LoadFile` what loading makes of a file. Saving the table
    and loading it again restores it exactly if every year has at most four digits and no text
    contains a newline. */
module Events {
  import opened Bits
  import opened Fixed
  import Dates

  const MAX_EVENTS: nat := 64
  const TEXT_CAP: nat := 56
  const LINE_MAX: nat := 4 + 1 + 2 + 1 + 2 + 1 + TEXT_CAP + 2
  const FILE_CAP: nat := MAX_EVENTS * (LINE_MAX + 1) + 16
  const NUL: char := '\0'

  datatype Event = Event(year: nat, month: nat, day: nat, text: string)

  predicate ValidDate(year: nat, month: nat, day: nat) { 1 <= month <= 12 && 1 <= day <= 31 && year != 0 }

  /** The dates accepted are those whose month exists and whose day exists in January: every real date,
      and beside them the days up to 31 of the shorter months. */
  lemma DateAccepted(year: nat, month: nat, day: nat)
    ensures ValidDate(year, month, day) <==>
              Dates.IsDate(Dates.Date(year, month, 1)) && Dates.IsDate(Dates.Date(year, 1, day))
    ensures Dates.IsDate(Dates.Date(year, month, day)) ==> ValidDate(year, month, day)
    ensures ValidDate(year, month, day) && !Dates.IsDate(Dates.Date(year, month, day)) ==>
              Dates.DaysInMonth(year, month) < day <= 31
  {
  }

  /** Up to the terminator. */
  function CString(s: string): (r: string)
    ensures |r| <= |s| && NUL !in r
  {
    if s == "" || s[0] == NUL then "" else [s[0]] + CString(s[1..])
  }

  function Cut(s: string): (r: string)
    ensures |r| <= TEXT_CAP
  {
    if |s| > TEXT_CAP then s[..TEXT_CAP] else s
  }

  predicate Accepts(es: seq<Event>, year: nat, month: nat, day: nat, text: string)
  {
    ValidDate(year, month, day) && CString(text) != "" && |es| < MAX_EVENTS
  }

  function Added(es: seq<Event>, year: nat, month: nat, day: nat, text: string): (r: seq<Event>)
  {
    if Accepts(es, year, month, day, text) then es + [Event(year, month, day, Cut(CString(text)))] else es
  }

  /** What the table can hold. */
  predicate Stored(e: Event)
  {
    ValidDate(e.year, e.month, e.day) && e.year < 0x1_0000_0000 && 0 < |e.text| <= TEXT_CAP && NUL !in e.text
  }

  predicate Table(es: seq<Event>) { |es| <= MAX_EVENTS && forall i :: 0 <= i < |es| ==> Stored(es[i]) }

  // ----- saving -----

  /** Decimal, with zeros in front up to `width` characters. */
  function Dec(v: nat, width: nat): (s: string)
    ensures AllDigits(s) && |s| >= width
  {
    var d := Digits(v);
    if |d| >= width then d else Zeros(width - |d|) + d
  }

  function Line(e: Event): (s: string)
  {
    Dec(e.year, 4) + "-" + Dec(e.month, 2) + "-" + Dec(e.day, 2) + "\t" + e.text + "\n"
  }

  /** Appending to the file buffer, which keeps its last place free. */
  function Put(out: string, s: string): (r: string)
    requires |out| < FILE_CAP
    ensures |r| < FILE_CAP
  {
    if |out| + |s| < FILE_CAP then out + s else out + s[..FILE_CAP - 1 - |out|]
  }

  function SaveFrom(es: seq<Event>, i: nat, out: string): (r: string)
    requires i <= |es| && |out| < FILE_CAP
    ensures |r| < FILE_CAP
    decreases |es| - i
  {
    if i == |es| || |out| + LINE_MAX >= FILE_CAP then out else SaveFrom(es, i + 1, Put(out, Line(es[i])))
  }

  function SaveFile(es: seq<Event>): (r: string) { SaveFrom(es, 0, "") }

  // ----- loading -----

  function LineEnd(buf: string, i: nat): (n: nat)
    requires i <= |buf|
    ensures i <= n <= |buf| && '\n' !in buf[i..n] && (n < |buf| ==> buf[n] == '\n')
    decreases |buf| - i
  {
    if i < |buf| && buf[i] != '\n' then
      var n := LineEnd(buf, i + 1);
      assert buf[i..n] == [buf[i]] + buf[i + 1..n];
      n
    else i
  }

  function Parsed(s: string): (r: Option<nat>) { if s != "" && AllDigits(s) then Some(Num(s)) else None }

  /** One line of the file, if it is "YYYY-MM-DD", a tab and a text. */
  function AddLine(es: seq<Event>, line: string): (r: seq<Event>)
  {
    if |line| >= 11 && line[4] == '-' && line[7] == '-' && line[10] == '\t' then
      var y, m, d := Parsed(line[..4]), Parsed(line[5..7]), Parsed(line[8..10]);
      if y.Some? && m.Some? && d.Some? && ValidDate(y.value, m.value % 256, d.value % 256) then
        Added(es, y.value, m.value % 256, d.value % 256, Cut(line[11..]))
      else es
    else es
  }

  function LoadFrom(buf: string, i: nat, es: seq<Event>): (r: seq<Event>)
    requires i <= |buf|
    decreases |buf| - i
  {
    if i == |buf| then es
    else
      var n := LineEnd(buf, i);
      LoadFrom(buf, if n < |buf| then n + 1 else n, AddLine(es, buf[i..n]))
  }

  /** At most the buffer's length of the file is read. */
  function LoadFile(file: string): (r: seq<Event>)
  {
    var buf := if |file| > FILE_CAP then file[..FILE_CAP] else file;
    LoadFrom(buf, 0, [])
  }

  // ----- one line there and back -----

  lemma DecSpells(v: nat, w: nat)
    requires (w == 2 && v < 100) || (w == 4 && v < 10_000)
    ensures |Dec(v, w)| == w && Num(Dec(v, w)) == v
  {
    hide Num, Digits;
    DigitsSpell(v);
    TenValues();
    DigitsLen(v, w);
    if |Digits(v)| < w { LeadingZeros(w - |Digits(v)|, Digits(v)); }
  }

  lemma TenValues()
    ensures Ten(2) == 100 && Ten(4) == 10_000
  {
  }

  lemma {:induction false} LeadingZeros(n: nat, s: string)
    requires AllDigits(s)
    ensures AllDigits(Zeros(n) + s) && Num(Zeros(n) + s) == Num(s)
    decreases |s|, n
  {
    var t := Zeros(n) + s;
    if s == "" {
      if n > 0 {
        assert t[..|t| - 1] == Zeros(n - 1) + s;
        LeadingZeros(n - 1, s);
      }
    } else {
      assert t[..|t| - 1] == Zeros(n) + s[..|s| - 1];
      LeadingZeros(n, s[..|s| - 1]);
    }
  }

  /** A saved line is year-month-day in decimal, a tab and the text. */
  lemma LineSpells(e: Event) returns (y: string, m: string, d: string)
    requires Stored(e) && e.year <= 9999
    ensures AllDigits(y) && AllDigits(m) && AllDigits(d) && |y| == 4 && |m| == 2 && |d| == 2
    ensures Num(y) == e.year && Num(m) == e.month && Num(d) == e.day
    ensures Line(e) == y + "-" + m + "-" + d + "\t" + e.text + "\n"
  {
    hide Dec, Num;
    y, m, d := Dec(e.year, 4), Dec(e.month, 2), Dec(e.day, 2);
    DecSpells(e.year, 4);
    DecSpells(e.month, 2);
    DecSpells(e.day, 2);
  }

  predicate Plain(e: Event) { Stored(e) && e.year <= 9999 && '\n' !in e.text }

  lemma {:induction false} CStringWhole(s: string)
    requires NUL !in s
    ensures CString(s) == s
    decreases |s|
  {
    if s != "" { CStringWhole(s[1..]); }
  }

  /** A line without its newline. */
  function Head(e: Event): (s: string) { Dec(e.year, 4) + "-" + Dec(e.month, 2) + "-" + Dec(e.day, 2) + "\t" + e.text }

  lemma HeadParts(e: Event)
    requires Plain(e)
    ensures var s := Head(e);
            && |s| == 11 + |e.text| && s[4] == '-' && s[7] == '-' && s[10] == '\t'
            && s[..4] == Dec(e.year, 4) && s[5..7] == Dec(e.month, 2) && s[8..10] == Dec(e.day, 2) && s[11..] == e.text
            && Line(e) == s + "\n" && '\n' !in s
  {
    hide Dec;
    var y, m, d := Dec(e.year, 4), Dec(e.month, 2), Dec(e.day, 2);
    DecSpells(e.year, 4);
    DecSpells(e.month, 2);
    DecSpells(e.day, 2);
    var s := y + "-" + m + "-" + d + "\t" + e.text;
    assert s[..4] == y;
    assert s[5..7] == m;
    assert s[8..10] == d;
    assert s[11..] == e.text;
    NoNewline(y, m, d, e.text);
  }

  lemma NoNewline(y: string, m: string, d: string, t: string)
    requires AllDigits(y) && AllDigits(m) && AllDigits(d) && '\n' !in t
    ensures '\n' !in y + "-" + m + "-" + d + "\t" + t
  {
  }

  /** Loading a saved line adds the event it was saved from. */
  lemma LineBack(es: seq<Event>, e: Event)
    requires Plain(e) && |es| < MAX_EVENTS
    ensures AddLine(es, Head(e)) == es + [e]
  {
    hide Dec, Num, Head;
    HeadParts(e);
    DecSpells(e.year, 4);
    DecSpells(e.month, 2);
    DecSpells(e.day, 2);
    CStringWhole(e.text);
  }

  // ----- the whole file there and back -----

  /** The lines of the events from `i` on. */
  function Lines(es: seq<Event>, i: nat): (s: string)
    requires i <= |es|
    decreases |es| - i
  {
    if i == |es| then "" else Line(es[i]) + Lines(es, i + 1)
  }

  predicate AllPlain(es: seq<Event>) { forall i :: 0 <= i < |es| ==> Plain(es[i]) }

  lemma LineLength(e: Event)
    requires Stored(e)
    ensures |Line(e)| == |Dec(e.year, 4)| + 8 + |e.text|
    ensures e.year < 1_000_000 ==> |Dec(e.year, 4)| <= 6
    ensures e.year >= 1_000_000 ==> |Dec(e.year, 4)| >= 7
  {
    hide Digits;
    DecSpells(e.month, 2);
    DecSpells(e.day, 2);
    MillionDigits(e.year);
  }

  lemma MillionDigits(n: nat)
    ensures n < 1_000_000 <==> |Digits(n)| <= 6
  {
    hide Digits;
    assert Ten(6) == 1_000_000;
    if n < 1_000_000 { DigitsLen(n, 6); } else { DigitsLong(n, 6); }
  }

  /** Years of up to six digits. */
  predicate ShortYears(es: seq<Event>) { forall i :: 0 <= i < |es| ==> es[i].year < 1_000_000 }

  /** With years of up to six digits the buffer is never too small: no event is dropped or cut. */
  lemma {:induction false} SaveWhole(es: seq<Event>, i: nat, out: string)
    requires Table(es) && ShortYears(es) && i <= |es| && |out| <= 70 * i
    ensures |out| < FILE_CAP && SaveFrom(es, i, out) == out + Lines(es, i)
    decreases |es| - i
  {
    hide Line, SaveFrom, Dec;
    Caps();
    if i < |es| {
      LineLength(es[i]);
      var next := out + Line(es[i]);
      SaveWhole(es, i + 1, next);
      SaveStep(es, i, out);
      assert next + Lines(es, i + 1) == out + Lines(es, i);
    } else {
      SaveEnd(es, out);
    }
  }

  lemma Caps()
    ensures LINE_MAX == 69 && FILE_CAP == 4496
  {
  }

  lemma SaveStep(es: seq<Event>, i: nat, out: string)
    requires i < |es| && |out| + LINE_MAX < FILE_CAP && |out + Line(es[i])| < FILE_CAP
    ensures SaveFrom(es, i, out) == SaveFrom(es, i + 1, out + Line(es[i]))
  {
    hide Line;
  }

  lemma SaveEnd(es: seq<Event>, out: string)
    requires |out| < FILE_CAP
    ensures SaveFrom(es, |es|, out) == out && out + Lines(es, |es|) == out
  {
  }

  /** With seven digits it can be: a full table of full texts does not fit. */
  lemma CapReached(es: seq<Event>)
    requires Table(es) && |es| == MAX_EVENTS
    requires forall i :: 0 <= i < |es| ==> es[i].year >= 1_000_000 && |es[i].text| == TEXT_CAP
    ensures SaveFile(es) != Lines(es, 0)
  {
    hide SaveFrom;
    LongLines(es, 0);
  }

  lemma {:induction false} LongLines(es: seq<Event>, i: nat)
    requires Table(es) && i <= |es|
    requires forall j :: 0 <= j < |es| ==> es[j].year >= 1_000_000 && |es[j].text| == TEXT_CAP
    ensures |Lines(es, i)| >= 71 * (|es| - i)
    decreases |es| - i
  {
    hide Line;
    if i < |es| {
      LineLength(es[i]);
      LongLines(es, i + 1);
    }
  }

  lemma {:induction false} LineEndIs(buf: string, i: nat, n: nat)
    requires i <= n < |buf| && buf[n] == '\n' && '\n' !in buf[i..n]
    ensures LineEnd(buf, i) == n
    decreases n - i
  {
    if i < n {
      assert buf[i] == buf[i..n][0];
      assert buf[i..n] == [buf[i]] + buf[i + 1..n];
      LineEndIs(buf, i + 1, n);
    }
  }

  /** Loading the lines from event `i` on, with the events before it already loaded. */
  lemma {:induction false} LoadWhole(es: seq<Event>, i: nat, buf: string, p: nat)
    requires |es| <= MAX_EVENTS && AllPlain(es) && i <= |es| && p <= |buf| && buf[p..] == Lines(es, i)
    ensures LoadFrom(buf, p, es[..i]) == es
    decreases |es| - i
  {
    hide Line, Head, AddLine, LineEnd, Plain;
    if i == |es| {
      assert es[..i] == es;
    } else {
      var n := LoadOne(es, i, buf, p);
      LoadWhole(es, i + 1, buf, n + 1);
    }
  }

  lemma LoadOne(es: seq<Event>, i: nat, buf: string, p: nat) returns (n: nat)
    requires i < |es| <= MAX_EVENTS && Plain(es[i]) && p <= |buf| && buf[p..] == Lines(es, i)
    ensures p <= n < |buf| && buf[n + 1..] == Lines(es, i + 1)
    ensures LoadFrom(buf, p, es[..i]) == LoadFrom(buf, n + 1, es[..i + 1])
  {
    hide Line, Head, AddLine, LineEnd, Plain, LoadFrom, Lines;
    var h, rest := Head(es[i]), Lines(es, i + 1);
    HeadParts(es[i]);
    n := p + |h|;
    LinesStep(es, i);
    Regroup(h, rest);
    Pieces(buf, p, h, rest);
    LineEndIs(buf, p, n);
    LineBack(es[..i], es[i]);
    assert es[..i] + [es[i]] == es[..i + 1];
    LoadStep(buf, p, es[..i], n);
  }

  lemma LinesStep(es: seq<Event>, i: nat)
    requires i < |es|
    ensures Lines(es, i) == Line(es[i]) + Lines(es, i + 1)
  {
  }

  lemma LoadStep(buf: string, p: nat, es: seq<Event>, n: nat)
    requires p <= n < |buf| && LineEnd(buf, p) == n
    ensures LoadFrom(buf, p, es) == LoadFrom(buf, n + 1, AddLine(es, buf[p..n]))
  {
    hide AddLine, LineEnd;
  }

  lemma Regroup(h: string, rest: string)
    ensures (h + "\n") + rest == h + ("\n" + rest)
  {
  }

  lemma Pieces(buf: string, p: nat, h: string, rest: string)
    requires p <= |buf| && buf[p..] == h + ("\n" + rest)
    ensures p + |h| < |buf| && buf[p..p + |h|] == h && buf[p + |h|] == '\n' && buf[p + |h| + 1..] == rest
  {
    var t := buf[p..];
    assert |t| == |h| + 1 + |rest|;
    assert t[..|h|] == h && t[|h|] == '\n' && t[|h| + 1..] == rest;
    assert buf[p..p + |h|] == t[..|h|];
    assert buf[p + |h| + 1..] == t[|h| + 1..];
  }

  /** Loading the file just saved restores the table, in order. */
  lemma RoundTrip(es: seq<Event>)
    requires |es| <= MAX_EVENTS && AllPlain(es)
    ensures SaveFile(es) == Lines(es, 0) && LoadFile(SaveFile(es)) == es
  {
    hide AddLine, Line, LineEnd, LoadFrom;
    SaveWhole(es, 0, "");
    assert "" + Lines(es, 0) == Lines(es, 0);
    var buf := SaveFile(es);
    assert buf[0..] == buf && es[..0] == [];
    LoadWhole(es, 0, buf, 0);
  }

  lemma {:induction false} NumBound(s: string)
    requires AllDigits(s)
    ensures Num(s) < Ten(|s|)
  {
    if s != "" { NumBound(s[..|s| - 1]); }
  }

  lemma {:induction false} CStringPart(s: string, c: char)
    requires c !in s
    ensures c !in CString(s)
    decreases |s|
  {
    if s != "" && s[0] != NUL { CStringPart(s[1..], c); }
  }

  lemma AddLinePlain(es: seq<Event>, line: string)
    requires Table(es) && AllPlain(es) && '\n' !in line
    ensures Table(AddLine(es, line)) && AllPlain(AddLine(es, line))
  {
    hide Num, CString;
    if |line| >= 11 {
      CStringPart(Cut(line[11..]), '\n');
      TenValues();
      if AllDigits(line[..4]) { NumBound(line[..4]); }
    }
  }

  lemma {:induction false} LoadPlain(buf: string, i: nat, es: seq<Event>)
    requires i <= |buf| && Table(es) && AllPlain(es)
    ensures Table(LoadFrom(buf, i, es)) && AllPlain(LoadFrom(buf, i, es))
    decreases |buf| - i
  {
    hide AddLine, LineEnd, Table, AllPlain;
    if i < |buf| {
      var n := LineEnd(buf, i);
      AddLinePlain(es, buf[i..n]);
      LoadPlain(buf, if n < |buf| then n + 1 else n, AddLine(es, buf[i..n]));
    }
  }

  /** A table survives saving and loading exactly if every year has at most four digits and no
      text contains a newline. */
  lemma RoundTripIff(es: seq<Event>)
    requires Table(es)
    ensures LoadFile(SaveFile(es)) == es <==> AllPlain(es)
  {
    hide SaveFile, LoadFrom;
    if AllPlain(es) {
      RoundTrip(es);
    } else {
      var file := SaveFile(es);
      LoadPlain(if |file| > FILE_CAP then file[..FILE_CAP] else file, 0, []);
    }
  }

  // ----- the table and the buffer -----

  lemma PutPut(out: string, a: string, b: string)
    requires |out| < FILE_CAP
    ensures Put(Put(out, a), b) == Put(out, a + b)
  {
    var room := FILE_CAP - 1 - |out|;
    if room < |a| {
      PutOver(out, a, b, room);
    } else if room < |a| + |b| {
      PutCut(out, a, b, room);
    } else {
      assert (out + a) + b == out + (a + b);
    }
  }

  lemma PutOver(out: string, a: string, b: string, room: nat)
    requires |out| + room == FILE_CAP - 1 && room < |a|
    ensures Put(Put(out, a), b) == Put(out, a + b)
  {
    assert (a + b)[..room] == a[..room];
    var t := out + a[..room];
    assert Put(out, a) == t && Put(out, a + b) == t;
    assert b[..0] == "" && t + "" == t;
    if b == "" { assert t + b == t; }
  }

  lemma PutCut(out: string, a: string, b: string, room: nat)
    requires |out| + room == FILE_CAP - 1 && |a| <= room < |a| + |b|
    ensures Put(Put(out, a), b) == Put(out, a + b)
  {
    assert (a + b)[..room] == a + b[..room - |a|];
    assert (out + a) + b[..room - |a|] == out + (a + b[..room - |a|]);
  }

  method PutChar(buf: array<char>, o: nat, c: char) returns (n: nat)
    requires buf.Length == FILE_CAP && o < FILE_CAP
    modifies buf
    ensures n < FILE_CAP && buf[..n] == Put(old(buf[..o]), [c])
  {
    n := o;
    if o + 1 < FILE_CAP {
      buf[o] := c;
      n := o + 1;
    }
    assert n == o ==> [c][..0] == "";
  }

  /** Copy up to the text cap and up to the terminator, as far as there is room. */
  method PutString(buf: array<char>, o: nat, s: string) returns (n: nat)
    requires buf.Length == FILE_CAP && o < FILE_CAP && |s| <= TEXT_CAP && NUL !in s
    modifies buf
    ensures n < FILE_CAP && buf[..n] == Put(old(buf[..o]), s)
  {
    n := o;
    var k := 0;
    while k < |s| && n + 1 < FILE_CAP
      invariant k <= |s| && n == o + k < FILE_CAP && buf[..n] == old(buf[..o]) + s[..k]
    {
      buf[n] := s[k];
      n := n + 1;
      k := k + 1;
    }
    assert s[..|s|] == s;
  }

  /** The digits of `v`, last one first, with zeros after them up to `width`. */
  method DecDigits(v: nat, width: nat, tmp: array<char>) returns (n: nat)
    requires |Digits(v)| <= tmp.Length && width <= tmp.Length
    modifies tmp
    ensures n == |Dec(v, width)| <= tmp.Length && forall i :: 0 <= i < n ==> tmp[i] == Dec(v, width)[n - 1 - i]
  {
    hide Digits;
    n := WholeDigits(v, tmp);
    ghost var d := Digits(v);
    while n < width && n < tmp.Length
      invariant |d| <= n <= tmp.Length && (n > |d| ==> n <= width)
      invariant forall i :: 0 <= i < n ==> tmp[i] == if i < |d| then d[|d| - 1 - i] else '0'
    {
      tmp[n] := '0';
      n := n + 1;
    }
  }

  method EmitU32(buf: array<char>, o: nat, v: nat, width: nat) returns (n: nat)
    requires buf.Length == FILE_CAP && o < FILE_CAP && v < 0x1_0000_0000 && width <= 4
    modifies buf
    ensures n < FILE_CAP && buf[..n] == Put(old(buf[..o]), Dec(v, width))
  {
    hide Digits, Dec;
    var tmp := new char[12];
    DigitsLen(v, 10) by { TenTen(); }
    var k := DecDigits(v, width, tmp);
    ghost var d := Dec(v, width);
    n := o;
    while k > 0 && n + 1 < FILE_CAP
      invariant 0 <= k <= |d| && n == o + |d| - k < FILE_CAP
      invariant buf[..n] == old(buf[..o]) + d[..|d| - k]
      modifies buf
    {
      k := k - 1;
      buf[n] := tmp[k];
      n := n + 1;
    }
    assert d[..|d|] == d;
  }

  lemma TenTen()
    ensures Ten(10) == 10_000_000_000
  {
    assert Ten(4) == 10_000;
    assert Ten(8) == 100_000_000;
  }

  method SaveLine(buf: array<char>, o: nat, e: Event) returns (n: nat)
    requires buf.Length == FILE_CAP && o < FILE_CAP && Stored(e)
    modifies buf
    ensures n < FILE_CAP && buf[..n] == Put(old(buf[..o]), Line(e))
  {
    hide Put, Dec;
    ghost var out := buf[..o];
    ghost var y, m, d := Dec(e.year, 4), Dec(e.month, 2), Dec(e.day, 2);
    n := EmitU32(buf, o, e.year, 4);
    n := PutChar(buf, n, '-');
    PutPut(out, y, "-");
    n := EmitU32(buf, n, e.month, 2);
    PutPut(out, y + "-", m);
    n := PutChar(buf, n, '-');
    PutPut(out, y + "-" + m, "-");
    n := EmitU32(buf, n, e.day, 2);
    PutPut(out, y + "-" + m + "-", d);
    n := PutChar(buf, n, '\t');
    PutPut(out, y + "-" + m + "-" + d, "\t");
    n := PutString(buf, n, e.text);
    PutPut(out, y + "-" + m + "-" + d + "\t", e.text);
    n := PutChar(buf, n, '\n');
    PutPut(out, y + "-" + m + "-" + d + "\t" + e.text, "\n");
  }

  method ParseU32(buf: string, at: nat, len: nat) returns (ok: bool, v: nat)
    requires at + len <= |buf|
    ensures ok == Parsed(buf[at..at + len]).Some? && (ok ==> Parsed(buf[at..at + len]) == Some(v))
  {
    ok, v := false, 0;
    if len == 0 { return; }
    ghost var s := buf[at..at + len];
    for i := 0 to len
      invariant AllDigits(s[..i]) && v == Num(s[..i])
    {
      assert s[i] == buf[at + i];
      if buf[at + i] < '0' || buf[at + i] > '9' { return; }
      assert s[..i + 1][..i] == s[..i];
      v := 10 * v + (buf[at + i] as int - '0' as int);
    }
    assert s[..len] == s;
    ok := true;
  }

  method CopyText(text: string) returns (s: string)
    ensures s == Cut(CString(text))
  {
    var i := 0;
    CStringAt(text);
    while i < TEXT_CAP && i < |text| && text[i] != NUL
      invariant i <= |CString(text)| && i <= TEXT_CAP
    {
      i := i + 1;
    }
    s := text[..i];
  }

  /** The C string is the longest prefix without a terminator. */
  lemma {:induction false} CStringAt(s: string)
    ensures CString(s) == s[..|CString(s)|] && (|CString(s)| < |s| ==> s[|CString(s)|] == NUL)
    decreases |s|
  {
    if s != "" && s[0] != NUL { CStringAt(s[1..]); }
  }

  /** The first `n` characters are the text up to its terminator, or its first 56. */
  predicate IsCut(text: string, n: nat)
    requires n <= |text|
  {
    n <= TEXT_CAP && NUL !in text[..n] && (n == TEXT_CAP || n == |text| || text[n] == NUL)
  }

  lemma CutIs(text: string)
    ensures var t := Cut(CString(text)); |t| <= |text| && t == text[..|t|] && IsCut(text, |t|)
  {
    hide CString;
    CStringAt(text);
  }

  // ----- what a file says -----

  /** The line is a date in four, two and two digits, a tab and a text `t`, and `e` is the event of that date
      and of the text up to its terminator or its 56th character. */
  predicate SaysBy(line: string, e: Event, y: string, m: string, d: string, t: string)
  {
    && line == y + "-" + m + "-" + d + "\t" + t && |y| == 4 && |m| == 2 && |d| == 2
    && AllDigits(y) && AllDigits(m) && AllDigits(d)
    && e.year == Num(y) && e.month == Num(m) && e.day == Num(d) && ValidDate(e.year, e.month, e.day)
    && 0 < |e.text| <= |t| && e.text == t[..|e.text|] && IsCut(t, |e.text|)
  }

  ghost predicate Says(line: string, e: Event)
  {
    exists y: string, m: string, d: string, t: string :: SaysBy(line, e, y, m, d, t)
  }

  /** Cutting first and ending at the terminator then is the same as ending there first. */
  lemma CutText(t: string)
    ensures var r := Cut(CString(Cut(t))); |r| <= |t| && r == t[..|r|] && IsCut(t, |r|)
    ensures Cut(CString(Cut(t))) == "" <==> CString(Cut(t)) == ""
  {
    hide CString;
    CutIs(Cut(t));
    var k := |Cut(CString(Cut(t)))|;
    assert Cut(t)[..k] == t[..k];
  }

  lemma CutOnce(t: string, n: nat, k: nat)
    requires n <= k <= |t| && IsCut(t, n) && IsCut(t, k)
    ensures n == k
  {
  }

  lemma TwoDigits(s: string)
    requires AllDigits(s) && |s| == 2
    ensures Num(s) % 256 == Num(s)
  {
    hide Num;
    NumBound(s);
    TenValues();
  }

  lemma LineParts(line: string, y: string, m: string, d: string, t: string)
    requires line == y + "-" + m + "-" + d + "\t" + t && |y| == 4 && |m| == 2 && |d| == 2
    ensures |line| >= 11 && line[4] == '-' && line[7] == '-' && line[10] == '\t'
    ensures line[..4] == y && line[5..7] == m && line[8..10] == d && line[11..] == t
  {
  }

  lemma PartsLine(line: string)
    requires |line| >= 11 && line[4] == '-' && line[7] == '-' && line[10] == '\t'
    ensures line == line[..4] + "-" + line[5..7] + "-" + line[8..10] + "\t" + line[11..]
  {
  }

  lemma SaidAdded(es: seq<Event>, line: string, e: Event, y: string, m: string, d: string, t: string)
    requires |es| < MAX_EVENTS && SaysBy(line, e, y, m, d, t)
    ensures AddLine(es, line) == es + [e]
  {
    hide Num, CString, Cut, IsCut;
    LineParts(line, y, m, d, t);
    TwoDigits(m);
    TwoDigits(d);
    CutText(t);
    var r := Cut(CString(Cut(t)));
    if |r| <= |e.text| { CutOnce(t, |r|, |e.text|); } else { CutOnce(t, |e.text|, |r|); }
  }

  lemma AddedSaid(es: seq<Event>, line: string) returns (e: Event)
    requires AddLine(es, line) != es
    ensures AddLine(es, line) == es + [e] && Says(line, e) && |es| < MAX_EVENTS
  {
    hide Num, CString, Cut, IsCut;
    var y, m, d, t := line[..4], line[5..7], line[8..10], line[11..];
    PartsLine(line);
    TwoDigits(m);
    TwoDigits(d);
    e := Event(Num(y), Num(m), Num(d), Cut(CString(Cut(t))));
    CutText(t);
    assert SaysBy(line, e, y, m, d, t);
  }

  /** Loading a line adds exactly the event it says, and nothing if it says none or the table is full. */
  lemma LineGrammar(es: seq<Event>, line: string, e: Event)
    ensures AddLine(es, line) == es + [e] <==> |es| < MAX_EVENTS && Says(line, e)
    ensures AddLine(es, line) == es <==> |es| >= MAX_EVENTS || forall x :: !Says(line, x)
  {
    hide AddLine, SaysBy;
    if AddLine(es, line) != es {
      var x := AddedSaid(es, line);
      assert (es + [x])[|es|] == x && (es + [e])[|es|] == e;
    }
    if |es| < MAX_EVENTS {
      forall x | Says(line, x) ensures AddLine(es, line) == es + [x] {
        var y, m, d, t :| SaysBy(line, x, y, m, d, t);
        SaidAdded(es, line, x, y, m, d, t);
      }
    }
  }

  /** A file is loaded line by line: the first line, then the rest of the file onto what it gave. */
  lemma LoadLines(es: seq<Event>, line: string, rest: string)
    requires '\n' !in line
    ensures LoadFrom(line + "\n" + rest, 0, es) == LoadFrom(rest, 0, AddLine(es, line))
    ensures LoadFrom(line, 0, es) == if line == "" then es else AddLine(es, line)
  {
    hide AddLine, LineEnd;
    var buf, n := line + "\n" + rest, |line|;
    assert buf[..n] == buf[0..n] == line && buf[n] == '\n' && buf[n + 1..] == rest;
    LineEndIs(buf, 0, n);
    LoadStep(buf, 0, es, n);
    LoadShift(buf, n + 1, 0, AddLine(es, line));
    if line != "" {
      var k := LineEnd(line, 0);
      assert k == |line| && line[0..k] == line;
    }
  }

  lemma {:induction false} LoadShift(buf: string, k: nat, i: nat, es: seq<Event>)
    requires k <= |buf| && i <= |buf| - k
    ensures LoadFrom(buf, k + i, es) == LoadFrom(buf[k..], i, es)
    decreases |buf| - i
  {
    hide AddLine, LineEnd;
    var rest := buf[k..];
    if i < |rest| {
      LineEndShift(buf, k, i);
      var n := LineEnd(rest, i);
      assert buf[k + i..k + n] == rest[i..n];
      LoadShift(buf, k, if n < |rest| then n + 1 else n, AddLine(es, rest[i..n]));
    }
  }

  lemma {:induction false} LineEndShift(buf: string, k: nat, i: nat)
    requires k <= |buf| && i <= |buf| - k
    ensures LineEnd(buf, k + i) == k + LineEnd(buf[k..], i)
    decreases |buf| - i
  {
    if i < |buf| - k { LineEndShift(buf, k, i + 1); }
  }

  predicate On(e: Event, year: nat, month: nat, day: nat) { e.year == year && e.month == month && e.day == day }

  /** The events of other days, in order. */
  function Without(es: seq<Event>, year: nat, month: nat, day: nat): (r: seq<Event>)
    ensures |r| <= |es|
  {
    if es == [] then []
    else
      var rest := Without(es[..|es| - 1], year, month, day);
      if On(es[|es| - 1], year, month, day) then rest else rest + [es[|es| - 1]]
  }

  lemma WithoutNone(year: nat, month: nat, day: nat)
    ensures Without([], year, month, day) == []
  {
  }

  lemma WithoutStep(es: seq<Event>, i: nat, year: nat, month: nat, day: nat)
    requires i < |es|
    ensures Without(es[..i + 1], year, month, day) ==
            Without(es[..i], year, month, day) + if On(es[i], year, month, day) then [] else [es[i]]
  {
    assert es[..i + 1][..i] == es[..i];
  }

  /** Removing a day's events removes those and no others: every other event keeps its multiplicity. */
  lemma {:induction false} WithoutExact(es: seq<Event>, year: nat, month: nat, day: nat, e: Event)
    ensures multiset(Without(es, year, month, day))[e] ==
            if e.year == year && e.month == month && e.day == day then 0 else multiset(es)[e]
  {
    if es != [] {
      var n := |es| - 1;
      WithoutExact(es[..n], year, month, day, e);
      assert es == es[..n] + [es[n]];
    }
  }

  /** And those that stay keep their order: what stays of a table stays of its parts, one after the other. */
  lemma {:induction false} WithoutParts(a: seq<Event>, b: seq<Event>, year: nat, month: nat, day: nat)
    ensures Without(a + b, year, month, day) == Without(a, year, month, day) + Without(b, year, month, day)
    decreases |b|
  {
    if b == [] {
      assert a + b == a;
    } else {
      var n := |b| - 1;
      assert (a + b)[..|a + b| - 1] == a + b[..n];
      WithoutParts(a, b[..n], year, month, day);
    }
  }

  /** Some event is on that day. */
  predicate Has(es: seq<Event>, year: nat, month: nat, day: nat)
  {
    exists i :: 0 <= i < |es| && es[i].year == year && es[i].month == month && es[i].day == day
  }

  /** Adding an event makes its own day, and no other, one that has an event. */
  lemma AddedHas(es: seq<Event>, year: nat, month: nat, day: nat, text: string, y: nat, m: nat, d: nat)
    requires Accepts(es, year, month, day, text)
    ensures Has(Added(es, year, month, day, text), y, m, d) <==>
              Has(es, y, m, d) || (y == year && m == month && d == day)
  {
    var after := Added(es, year, month, day, text);
    assert after[|es|] == Event(year, month, day, Cut(CString(text)));
    if Has(es, y, m, d) {
      var i :| 0 <= i < |es| && es[i].year == y && es[i].month == m && es[i].day == d;
      assert after[i] == es[i];
    }
    if Has(after, y, m, d) {
      var i :| 0 <= i < |after| && after[i].year == y && after[i].month == m && after[i].day == d;
      assert i < |es| ==> after[i] == es[i];
    }
  }

  /** Removing a day's events leaves it without one and every other day as it was. */
  lemma WithoutHas(es: seq<Event>, year: nat, month: nat, day: nat, y: nat, m: nat, d: nat)
    ensures Has(Without(es, year, month, day), y, m, d) <==>
              Has(es, y, m, d) && !(y == year && m == month && d == day)
  {
    hide Without;
    var rest := Without(es, year, month, day);
    if Has(rest, y, m, d) {
      var i :| 0 <= i < |rest| && rest[i].year == y && rest[i].month == m && rest[i].day == d;
      WithoutExact(es, year, month, day, rest[i]);
      Member(es, rest[i]);
    }
    if Has(es, y, m, d) && !(y == year && m == month && d == day) {
      var i :| 0 <= i < |es| && es[i].year == y && es[i].month == m && es[i].day == d;
      WithoutExact(es, year, month, day, es[i]);
      Member(rest, es[i]);
    }
  }

  lemma Member(es: seq<Event>, e: Event)
    ensures multiset(es)[e] > 0 <==> exists i :: 0 <= i < |es| && es[i] == e
  {
    assert e in multiset(es) <==> e in es;
  }

  lemma {:induction false} WithoutStored(es: seq<Event>, year: nat, month: nat, day: nat)
    requires forall i :: 0 <= i < |es| ==> Stored(es[i])
    ensures forall i :: 0 <= i < |Without(es, year, month, day)| ==> Stored(Without(es, year, month, day)[i])
  {
    if es != [] { WithoutStored(es[..|es| - 1], year, month, day); }
  }

  class EventStore {
    var events: array<Event>
    var count: nat

    ghost predicate Valid()
      reads this, events
    {
      events.Length == MAX_EVENTS && count <= MAX_EVENTS && Table(events[..count])
    }

    ghost function Contents(): (es: seq<Event>)
      requires Valid()
      reads this, events
    {
      events[..count]
    }

    constructor ()
      ensures Valid() && fresh(events) && Contents() == []
    {
      events := new Event[MAX_EVENTS](i => Event(0, 0, 0, ""));
      count := 0;
    }

    method AddEvent(year: nat, month: nat, day: nat, text: string) returns (ok: bool)
      requires Valid() && year < 0x1_0000_0000
      modifies this`count, events
      ensures Valid() && Contents() == Added(old(Contents()), year, month, day, text)
      ensures ok == Accepts(old(Contents()), year, month, day, text)
      ensures ok <==>
                ValidDate(year, month, day) && text != "" && text[0] != NUL && |old(Contents())| < MAX_EVENTS
      ensures !ok ==> Contents() == old(Contents())
      ensures ok ==> exists n :: 0 < n <= |text| && IsCut(text, n)
                                && Contents() == old(Contents()) + [Event(year, month, day, text[..n])]
    {
      if !ValidDate(year, month, day) || text == "" || text[0] == NUL || count >= MAX_EVENTS { return false; }
      var s := CopyText(text);
      CutIs(text);
      events[count] := Event(year, month, day, s);
      count := count + 1;
      ok := true;
    }

    /** Compact the table in place. */
    method RemoveEvents(year: nat, month: nat, day: nat) returns (removed: nat)
      requires Valid()
      modifies this`count, events
      ensures Valid() && removed == |old(Contents())| - |Contents()|
      ensures Contents() == if ValidDate(year, month, day) then Without(old(Contents()), year, month, day)
              else old(Contents())
    {
      hide Without;
      removed := 0;
      if !ValidDate(year, month, day) { return; }
      ghost var es := Contents();
      WithoutNone(year, month, day);
      var i, j := 0, 0;
      while i < count
        invariant 0 <= j <= i <= count == |es| && removed == i - j
        invariant events[..j] == Without(es[..i], year, month, day)
        invariant events[i..count] == es[i..]
        modifies events
      {
        var e := events[i];
        ghost var done, rest := events[..j], events[i..count];
        assert e == rest[0] && rest[1..] == es[i + 1..];
        WithoutStep(es, i, year, month, day);
        if On(e, year, month, day) {
          removed := removed + 1;
        } else {
          if j != i { events[j] := e; }
          j := j + 1;
          assert events[..j] == done + [e];
        }
        i := i + 1;
        assert events[i..count] == rest[1..];
      }
      assert es[..i] == es;
      WithoutStored(es, year, month, day);
      count := j;
    }

    method HasEvent(year: nat, month: nat, day: nat) returns (has: bool)
      requires Valid()
      ensures has <==> ValidDate(year, month, day) && Has(Contents(), year, month, day)
    {
      has := false;
      if !ValidDate(year, month, day) { return; }
      for i := 0 to count
        invariant forall k :: 0 <= k < i ==> !On(events[k], year, month, day)
      {
        if On(events[i], year, month, day) {
          assert Contents()[i] == events[i];
          return true;
        }
      }
    }

    /** The file's contents. */
    method Save() returns (file: string)
      requires Valid()
      ensures file == SaveFile(Contents())
    {
      hide Line, Put;
      var buf := new char[FILE_CAP];
      var o: nat, i := 0, 0;
      ghost var es := Contents();
      while i < count && o + LINE_MAX < FILE_CAP
        invariant i <= count && o < FILE_CAP && SaveFile(es) == SaveFrom(es, i, buf[..o])
        modifies buf
      {
        o := SaveLine(buf, o, events[i]);
        i := i + 1;
      }
      file := buf[..o];
    }

    method Load(file: string)
      requires Valid()
      modifies this`count, events
      ensures Valid() && Contents() == LoadFile(file)
    {
      hide AddLine, LineEnd;
      var buf := if |file| > FILE_CAP then file[..FILE_CAP] else file;
      count := 0;
      var i := 0;
      while i < |buf|
        invariant Valid() && i <= |buf| && LoadFile(file) == LoadFrom(buf, i, Contents())
      {
        var lend := FindEnd(buf, i);
        LoadLine(buf[i..lend]);
        i := if lend < |buf| then lend + 1 else lend;
      }
    }

    method LoadLine(line: string)
      requires Valid()
      modifies this`count, events
      ensures Valid() && Contents() == AddLine(old(Contents()), line)
    {
      hide Num, Added;
      if |line| >= 11 && line[4] == '-' && line[7] == '-' && line[10] == '\t' {
        assert line[0..4] == line[..4];
        var okY, yy := ParseU32(line, 0, 4);
        var okM, mm := ParseU32(line, 5, 2);
        var okD, dd := ParseU32(line, 8, 2);
        if okY && okM && okD && ValidDate(yy, mm % 256, dd % 256) {
          var text := line[11..];
          if |text| > TEXT_CAP { text := text[..TEXT_CAP]; }
          NumBound(line[..4]);
          TenValues();
          var added := AddEvent(yy, mm % 256, dd % 256, text);
        }
      }
    }
  }

  method FindEnd(buf: string, i: nat) returns (n: nat)
    requires i <= |buf|
    ensures n == LineEnd(buf, i)
  {
    n := i;
    while n < |buf| && buf[n] != '\n'
      invariant i <= n <= |buf| && LineEnd(buf, n) == LineEnd(buf, i)
    {
      n := n + 1;
    }
  }
}
