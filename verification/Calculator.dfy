/** The calculator's key-driven state machine and the left fold it computes.

    `Press` is the effect of one key on the display, accumulator and flags. The class
    `Keypad` carries the keys out on a character buffer. */
module Calculator {
  import opened Bits
  import opened Fixed

  const DISPLAY_CAP: nat := 16

  datatype Op = Add | Sub | Mul | Div
  datatype Key = Digit(d: char) | Dot | OpKey(op: Op) | Equals | Clear | ClearEntry

  /** `op` is the operator waiting for its right operand; `starting` says that the next digit starts a
      new operand. */
  datatype Calc = Calc(text: string, acc: int, op: Option<Op>, starting: bool, error: bool)

  // ----- one key -----

  function Combine(op: Op, a: int, b: int): (r: Option<int>)
  {
    match op
    case Add => if InI64(a + b) then Some(a + b) else None
    case Sub => if InI64(a - b) then Some(a - b) else None
    case Mul => MulFixed(a, b)
    case Div => if b == 0 then None else DivFixed(a, b)
  }

  function Trip(c: Calc): (r: Calc) { c.(error := true, text := "ERR") }

  predicate Fits(v: int) { |Text(v)| <= DISPLAY_CAP }

  function Show(c: Calc, v: int): (r: Calc) { if Fits(v) then c.(text := Text(v)) else Trip(c) }

  /** The value the pending operation yields for the right operand `rhs`. */
  function Outcome(c: Calc, rhs: int): (r: Option<int>)
  {
    if c.op.None? then Some(rhs) else Combine(c.op.value, c.acc, rhs)
  }

  function Apply(c: Calc, rhs: int): (r: Calc)
  {
    match Outcome(c, rhs)
    case None => Trip(c).(acc := 0, op := None, starting := true)
    case Some(v) => Show(c.(acc := v, op := None), v)
  }

  function FracCount(t: string): (n: nat)
  {
    if t == "" then 0
    else FracCount(t[..|t| - 1]) + if t[|t| - 1] != '.' && '.' in t[..|t| - 1] then 1 else 0
  }

  function TypeDigit(t: string, d: char): (r: string)
  {
    if |t| >= DISPLAY_CAP || ('.' in t && FracCount(t) >= FRAC_DIGITS) then t else t + [d]
  }

  function TypeDot(t: string): (r: string)
  {
    if '.' in t then t
    else
      var u := if t == "" then "0" else t;
      if |u| >= DISPLAY_CAP then u else u + "."
  }

  function Typing(c: Calc): (t: string) { if c.starting then "" else c.text }

  function Press(c: Calc, k: Key): (r: Calc)
  {
    match k
    case Clear => Calc("0", 0, None, true, false)
    case ClearEntry => c.(error := false, text := "0", starting := true)
    case _ =>
      if c.error then c
      else match k
        case Digit(d) => c.(text := TypeDigit(Typing(c), d), starting := false)
        case Dot => c.(text := TypeDot(Typing(c)), starting := false)
        case OpKey(op) =>
          (match ReadFixed(c.text)
           case None => Trip(c)
           case Some(rhs) => var a := Apply(c, rhs); if a.error then a else a.(op := Some(op), starting := true))
        case Equals =>
          (match ReadFixed(c.text)
           case None => Trip(c)
           case Some(rhs) => Apply(c, rhs).(op := None, starting := true))
        case _ => c
  }

  function PressAll(c: Calc, ks: seq<Key>): (r: Calc)
    decreases |ks|
  {
    if ks == [] then c else PressAll(Press(c, ks[0]), ks[1..])
  }

  lemma {:induction false} PressOn(c: Calc, a: seq<Key>, b: seq<Key>)
    ensures PressAll(c, a + b) == PressAll(PressAll(c, a), b)
    decreases |a|
  {
    hide Press;
    if a == [] {
      assert a + b == b;
    } else {
      assert (a + b)[1..] == a[1..] + b;
      PressOn(Press(c, a[0]), a[1..], b);
    }
  }

  // ----- typing an operand -----

  predicate EntryKey(k: Key) { k.Dot? || (k.Digit? && IsDigit(k.d)) }
  predicate Operand(ks: seq<Key>) { ks != [] && forall i :: 0 <= i < |ks| ==> EntryKey(ks[i]) }

  function TypeKey(t: string, k: Key): (r: string) { if k.Digit? then TypeDigit(t, k.d) else TypeDot(t) }

  function TypeAll(t: string, ks: seq<Key>): (r: string)
    decreases |ks|
  {
    if ks == [] then t else TypeAll(TypeKey(t, ks[0]), ks[1..])
  }

  lemma {:induction false} TypedKeys(c: Calc, ks: seq<Key>)
    requires !c.error && forall i :: 0 <= i < |ks| ==> EntryKey(ks[i])
    ensures PressAll(c, ks) == if ks == [] then c else c.(text := TypeAll(Typing(c), ks), starting := false)
    decreases |ks|
  {
    hide TypeDigit, TypeDot;
    if ks != [] {
      TypedKeys(Press(c, ks[0]), ks[1..]);
    }
  }

  /** What typing leaves on the display: digits, and perhaps a point and at most six more. */
  predicate EntryText(t: string, whole: string, dot: bool, frac: string)
  {
    && AllDigits(whole) && AllDigits(frac) && |frac| <= FRAC_DIGITS && (frac != "" ==> dot) && (dot ==> whole != "")
    && t == whole + (if dot then "." + frac else "") && |t| <= DISPLAY_CAP
  }

  lemma NoPoint(s: string)
    requires AllDigits(s)
    ensures '.' !in s
  {
  }

  lemma {:induction false} FracCountIs(whole: string, frac: string)
    requires AllDigits(whole) && AllDigits(frac)
    ensures '.' in whole + ("." + frac) && FracCount(whole + ("." + frac)) == |frac|
    decreases |frac|
  {
    var t := whole + ("." + frac);
    assert t[|whole|] == '.';
    if frac == "" {
      assert t[..|t| - 1] == whole;
      NoPoint(whole);
      CountNone(whole);
    } else {
      assert t[..|t| - 1] == whole + ("." + frac[..|frac| - 1]);
      FracCountIs(whole, frac[..|frac| - 1]);
      assert t[|t| - 1] == frac[|frac| - 1];
    }
  }

  lemma {:induction false} CountNone(s: string)
    requires AllDigits(s)
    ensures FracCount(s) == 0
  {
    if s != "" {
      CountNone(s[..|s| - 1]);
      NoPoint(s[..|s| - 1]);
    }
  }

  /** One more key keeps the shape of an entry and drops no digit once it is on the display. */
  lemma TypeStep(t: string, whole: string, dot: bool, frac: string, k: Key) returns (w: string, d: bool, f: string)
    requires EntryText(t, whole, dot, frac) && EntryKey(k)
    ensures EntryText(TypeKey(t, k), w, d, f) && t <= TypeKey(t, k)
    ensures k.Digit? && !dot && |t| < DISPLAY_CAP ==> w == whole + [k.d] && !d && f == ""
    ensures k.Digit? && dot && |t| < DISPLAY_CAP && |frac| < FRAC_DIGITS ==> w == whole && d && f == frac + [k.d]
    ensures k.Dot? && !dot && whole != "" && |t| < DISPLAY_CAP ==> w == whole && d && f == ""
    ensures k.Dot? && t == "" ==> w == "0" && d && f == ""
  {
    hide FracCount;
    w, d, f := whole, dot, frac;
    if dot {
      assert t == whole + ("." + frac);
      FracCountIs(whole, frac);
      if k.Digit? && |t| < DISPLAY_CAP && |frac| < FRAC_DIGITS {
        f := frac + [k.d];
        assert t + [k.d] == whole + ("." + f);
      }
    } else {
      assert t == whole;
      NoPoint(whole);
      if k.Dot? {
        w := if whole == "" then "0" else whole;
        d := |w| < DISPLAY_CAP;
        assert TypeKey(t, k) == w + if d then "." + "" else "";
      } else if |t| < DISPLAY_CAP {
        w := whole + [k.d];
      }
    }
  }

  lemma {:induction false} TypeShape(t: string, whole: string, dot: bool, frac: string,
                                     ks: seq<Key>) returns (w: string, d: bool, f: string)
    requires EntryText(t, whole, dot, frac) && forall i :: 0 <= i < |ks| ==> EntryKey(ks[i])
    ensures EntryText(TypeAll(t, ks), w, d, f) && t <= TypeAll(t, ks)
    decreases |ks|
  {
    hide EntryText, TypeKey;
    w, d, f := whole, dot, frac;
    if ks != [] {
      w, d, f := TypeStep(t, whole, dot, frac, ks[0]);
      w, d, f := TypeShape(TypeKey(t, ks[0]), w, d, f, ks[1..]);
    }
  }

  /** The value of a typed operand, or None if it is out of range. */
  function Entered(ks: seq<Key>): (r: Option<int>) { ReadFixed(TypeAll("", ks)) }

  /** Whatever was typed reads as exactly what the display spells. */
  lemma EnteredExact(ks: seq<Key>) returns (whole: string, dot: bool, frac: string)
    requires Operand(ks)
    ensures EntryText(TypeAll("", ks), whole, dot, frac) && whole != ""
    ensures Entered(ks) == if Num(whole) * SCALE + FracNum(frac) > MAX_I64 then None
            else Some(Num(whole) * SCALE + FracNum(frac))
  {
    hide ReadFixed, Num, FracNum, TypeAll;
    assert EntryText("", "", false, "");
    whole, dot, frac := TypeShape("", "", false, "", ks);
    TypedSomething(ks);
    ReadSpelled(false, whole, frac, dot);
    assert "" + whole + (if dot then "." + frac else "") == TypeAll("", ks);
  }

  lemma TypedSomething(ks: seq<Key>)
    requires Operand(ks)
    ensures TypeAll("", ks) != ""
  {
    hide FracCount;
    assert EntryText("", "", false, "");
    var w, d, f := TypeStep("", "", false, "", ks[0]);
    assert TypeKey("", ks[0]) != "";
    w, d, f := TypeShape(TypeKey("", ks[0]), w, d, f, ks[1..]);
  }

  function KeysFor(s: string): (ks: seq<Key>) { if s == "" then [] else KeysFor(s[..|s| - 1]) + [Digit(s[|s| - 1])] }

  lemma {:induction false} TypeOn(t: string, a: seq<Key>, b: seq<Key>)
    ensures TypeAll(t, a + b) == TypeAll(TypeAll(t, a), b)
    decreases |a|
  {
    hide TypeKey;
    if a == [] {
      assert a + b == b;
    } else {
      assert (a + b)[1..] == a[1..] + b;
      TypeOn(TypeKey(t, a[0]), a[1..], b);
    }
  }

  lemma {:induction false} TypeWhole(s: string)
    requires AllDigits(s) && |s| <= DISPLAY_CAP
    ensures TypeAll("", KeysFor(s)) == s
  {
    if s != "" {
      var front := s[..|s| - 1];
      TypeWhole(front);
      TypeOn("", KeysFor(front), [Digit(s[|s| - 1])]);
      NoPoint(front);
      assert TypeAll(front, [Digit(s[|s| - 1])]) == TypeKey(front, Digit(s[|s| - 1]));
      assert s == front + [s[|s| - 1]];
    }
  }

  lemma {:induction false} TypeFrac(whole: string, s: string)
    requires AllDigits(whole) && AllDigits(s) && |s| <= FRAC_DIGITS && |whole| + 1 + |s| <= DISPLAY_CAP
    ensures TypeAll(whole + ".", KeysFor(s)) == whole + ("." + s)
  {
    hide FracCount;
    if s == "" {
      assert whole + "." == whole + ("." + s);
    } else {
      var front := s[..|s| - 1];
      TypeFrac(whole, front);
      TypeOn(whole + ".", KeysFor(front), [Digit(s[|s| - 1])]);
      FracCountIs(whole, front);
      var t := whole + ("." + front);
      assert TypeAll(t, [Digit(s[|s| - 1])]) == TypeKey(t, Digit(s[|s| - 1]));
      assert t + [s[|s| - 1]] == whole + ("." + s);
    }
  }

  lemma TypedText(whole: string, frac: string)
    requires AllDigits(whole) && whole != "" && AllDigits(frac) && |frac| <= FRAC_DIGITS
    requires |whole| + 1 + |frac| <= DISPLAY_CAP
    ensures TypeAll("", KeysFor(whole) + ([Dot] + KeysFor(frac))) == whole + ("." + frac)
  {
    hide FracCount, KeysFor, TypeDigit;
    TypeWhole(whole);
    NoPoint(whole);
    TypeOn("", KeysFor(whole), [Dot] + KeysFor(frac));
    TypeOn(whole, [Dot], KeysFor(frac));
    assert TypeAll(whole, [Dot]) == TypeKey(whole, Dot);
    TypeFrac(whole, frac);
  }

  // ----- chains of operations -----

  datatype Term = Term(op: Op, keys: seq<Key>)

  predicate Terms(ts: seq<Term>) { forall i :: 0 <= i < |ts| ==> Operand(ts[i].keys) }

  /** A value that can be shown. */
  function Shown(v: Option<int>): (r: Option<int>) { if v.Some? && Fits(v.value) then v else None }

  function Then(acc: Option<int>, op: Op, rhs: Option<int>): (r: Option<int>)
  {
    if acc.None? || rhs.None? then None else Shown(Combine(op, acc.value, rhs.value))
  }

  /** The operations from left to right; None from the first that is rejected or does not fit. */
  function Fold(acc: Option<int>, ts: seq<Term>): (r: Option<int>)
    decreases |ts|
  {
    if ts == [] then acc else Fold(Then(acc, ts[0].op, Entered(ts[0].keys)), ts[1..])
  }

  function TermKeys(ts: seq<Term>): (ks: seq<Key>)
    decreases |ts|
  {
    if ts == [] then [Equals] else [OpKey(ts[0].op)] + (ts[0].keys + TermKeys(ts[1..]))
  }

  lemma {:induction false} FoldNone(ts: seq<Term>)
    ensures Fold(None, ts).None?
    decreases |ts|
  {
    if ts != [] { FoldNone(ts[1..]); }
  }

  /** An error stays on the display whatever is pressed other than C and CE. */
  lemma {:induction false} ErrorStays(c: Calc, ks: seq<Key>)
    requires c.error && forall i :: 0 <= i < |ks| ==> !ks[i].Clear? && !ks[i].ClearEntry?
    ensures PressAll(c, ks) == c
    decreases |ks|
  {
    if ks != [] { ErrorStays(c, ks[1..]); }
  }

  /** After C no earlier key matters. */
  lemma ClearForgets(before: seq<Key>, after: seq<Key>, c: Calc, d: Calc)
    ensures PressAll(c, before + ([Clear] + after)) == PressAll(d, [Clear] + after)
  {
    hide Press;
    PressOn(c, before, [Clear] + after);
    PressOn(PressAll(c, before), [Clear], after);
    PressOn(d, [Clear], after);
    ClearedAlike(PressAll(c, before), d);
  }

  lemma ClearedAlike(c: Calc, d: Calc)
    ensures PressAll(c, [Clear]) == PressAll(d, [Clear])
  {
  }

  /** CE takes back the operand being typed and nothing else: typing `wrong`, CE, `right` and going on
      is typing `right` and going on. */
  lemma ClearEntryRetypes(c: Calc, wrong: seq<Key>, right: seq<Key>, rest: seq<Key>)
    requires !c.error && c.starting && Operand(right) && forall i :: 0 <= i < |wrong| ==> EntryKey(wrong[i])
    ensures PressAll(c, wrong + ([ClearEntry] + (right + rest))) == PressAll(c, right + rest)
  {
    hide Press, TypeAll;
    PressOn(c, wrong, [ClearEntry] + (right + rest));
    var d := PressAll(c, wrong);
    PressOn(d, [ClearEntry], right + rest);
    TypedKeys(c, wrong);
    var e := PressAll(d, [ClearEntry]);
    EntryCleared(d);
    PressOn(e, right, rest);
    PressOn(c, right, rest);
    TypedKeys(e, right);
    TypedKeys(c, right);
  }

  lemma EntryCleared(c: Calc)
    ensures PressAll(c, [ClearEntry]) == c.(error := false, text := "0", starting := true)
  {
  }

  /** CE after an error keeps the running expression exactly when the error came from reading the
      display. A rejected operation has already lost the accumulator and the operator. */
  lemma ClearEntryAfterError(c: Calc, k: Key)
    requires !c.error && c.op.Some? && (k.OpKey? || k.Equals?) && Press(c, k).error
    ensures var r := Press(Press(c, k), ClearEntry);
            && !r.error && (r.acc == c.acc && r.op == c.op <==> ReadFixed(c.text).None?)
            && (ReadFixed(c.text).Some? && Outcome(c, ReadFixed(c.text).value).None? ==> r.acc == 0 && r.op.None?)
  {
    hide ReadFixed, Combine, Text;
  }

  lemma {:induction false} PlainKeys(ts: seq<Term>)
    requires Terms(ts)
    ensures forall i :: 0 <= i < |TermKeys(ts)| ==> !TermKeys(ts)[i].Clear? && !TermKeys(ts)[i].ClearEntry?
    decreases |ts|
  {
    if ts != [] {
      PlainKeys(ts[1..]);
      var k, rest := ts[0].keys, TermKeys(ts[1..]);
      var ks := [OpKey(ts[0].op)] + (k + rest);
      forall i | 0 <= i < |ks| ensures !ks[i].Clear? && !ks[i].ClearEntry? {
        if 1 <= i < 1 + |k| { assert ks[i] == k[i - 1] && EntryKey(k[i - 1]); }
        if i >= 1 + |k| { assert ks[i] == rest[i - 1 - |k|]; }
      }
    }
  }

  /** The operand just typed and the operation waiting for it, as one value. */
  function Waiting(c: Calc): (r: Option<int>)
  {
    match ReadFixed(c.text)
    case None => None
    case Some(rhs) => Shown(Outcome(c, rhs))
  }

  /** The display shows `v`, or ERR if there is none. */
  predicate Displays(c: Calc, v: Option<int>)
  {
    if v.Some? then !c.error && c.text == Text(v.value) && c.acc == v.value && c.op.None?
    else c.error && c.text == "ERR"
  }

  lemma OpStep(c: Calc, op: Op)
    requires !c.error
    ensures var r := Press(c, OpKey(op));
            if Waiting(c).Some? then r == Calc(Text(Waiting(c).value), Waiting(c).value, Some(op), true, false)
            else r.error && r.text == "ERR"
  {
    hide ReadFixed, Text, Combine;
  }

  lemma EqualsStep(c: Calc)
    requires !c.error
    ensures Displays(Press(c, Equals), Waiting(c)) && (Waiting(c).Some? ==> Press(c, Equals).starting)
  {
    hide ReadFixed, Text, Combine;
  }

  /** From a typed operand on, the remaining keys compute the fold of the remaining terms. */
  lemma {:induction false} RestShows(c: Calc, ts: seq<Term>)
    requires !c.error && Terms(ts)
    ensures Displays(PressAll(c, TermKeys(ts)), Fold(Waiting(c), ts))
    decreases |ts|
  {
    hide Press, Waiting, Fits, Combine, ReadFixed;
    if ts == [] {
      EqualsStep(c);
      assert PressAll(c, [Equals]) == Press(c, Equals);
    } else {
      var op, k, rest := ts[0].op, ts[0].keys, TermKeys(ts[1..]);
      OpStep(c, op);
      var a := Press(c, OpKey(op));
      assert ([OpKey(op)] + (k + rest))[1..] == k + rest;
      assert PressAll(c, TermKeys(ts)) == PressAll(a, k + rest);
      PressOn(a, k, rest);
      if Waiting(c).None? {
        FailShows(a, ts);
      } else {
        TypedKeys(a, k);
        var b := PressAll(a, k);
        TypedWaiting(b, op, Waiting(c).value, k);
        RestShows(b, ts[1..]);
      }
    }
  }

  lemma FailShows(a: Calc, ts: seq<Term>)
    requires a.error && a.text == "ERR" && Terms(ts) && ts != []
    ensures PressAll(PressAll(a, ts[0].keys), TermKeys(ts[1..])) == a && Fold(None, ts).None?
  {
    hide Press;
    FoldNone(ts);
    forall i | 0 <= i < |ts[0].keys| ensures !ts[0].keys[i].Clear? && !ts[0].keys[i].ClearEntry? {
      assert EntryKey(ts[0].keys[i]);
    }
    ErrorStays(a, ts[0].keys);
    PlainKeys(ts[1..]);
    ErrorStays(a, TermKeys(ts[1..]));
  }

  lemma TypedWaiting(b: Calc, op: Op, acc: int, k: seq<Key>)
    requires b.op == Some(op) && b.acc == acc && b.text == TypeAll("", k)
    ensures Waiting(b) == Then(Some(acc), op, Entered(k))
  {
    hide ReadFixed, Fits, Combine;
  }

  lemma ChainFold(c: Calc, first: seq<Key>, ts: seq<Term>)
    requires Operand(first) && Terms(ts)
    ensures Displays(PressAll(c, [Clear] + (first + TermKeys(ts))), Fold(Shown(Entered(first)), ts))
  {
    hide Fits, ReadFixed, Combine;
    var z := Calc("0", 0, None, true, false);
    var ks := [Clear] + (first + TermKeys(ts));
    assert ks[1..] == first + TermKeys(ts);
    assert PressAll(c, ks) == PressAll(z, first + TermKeys(ts));
    PressOn(z, first, TermKeys(ts));
    TypedKeys(z, first);
    RestShows(PressAll(z, first), ts);
  }

  // ----- what the chain means -----

  /** `v` is the quotient of `x` by `y`, truncated toward zero. */
  predicate Truncated(v: int, x: int, y: int)
  {
    && Abs(v) * Abs(y) <= Abs(x) < (Abs(v) + 1) * Abs(y)
    && (v > 0 ==> (x < 0) == (y < 0)) && (v < 0 ==> (x < 0) != (y < 0))
  }

  /** `v` is what the key `sym` makes of `a` and `b`, all three in millionths. */
  predicate Result(sym: char, a: int, b: int, v: int)
  {
    if sym == '+' then v - b == a
    else if sym == '-' then v + b == a
    else if sym == '*' then Truncated(v, a * b, SCALE)
    else sym == '/' && b != 0 && Truncated(v, a * SCALE, b)
  }

  /** The calculator goes through with it: the result is within 64 bits, and so is what it forms on the
      way, for a product that of the left factor's millionths with the right factor. */
  predicate Accepted(sym: char, a: int, b: int)
  {
    if sym == '+' then MIN_I64 <= a + b <= MAX_I64
    else if sym == '-' then MIN_I64 <= a - b <= MAX_I64
    else if sym == '*' then InI64(Quot(a * b, SCALE)) && InI64((a - Quot(a, SCALE) * SCALE) * b)
    else b != 0 && InI64(a * SCALE)
  }

  /** One step: its result, or nothing from the first that is not accepted or longer than the display. */
  ghost predicate StepGives(acc: Option<int>, sym: char, rhs: Option<int>, r: Option<int>)
  {
    if acc.None? || rhs.None? then r.None?
    else if r.Some? then
      Accepted(sym, acc.value, rhs.value) && Result(sym, acc.value, rhs.value, r.value) && |Text(r.value)| <= 16
    else
      !Accepted(sym, acc.value, rhs.value) || exists v :: Result(sym, acc.value, rhs.value, v) && |Text(v)| > 16
  }

  function SymbolOf(op: Op): (c: char)
  {
    match op case Add => '+' case Sub => '-' case Mul => '*' case Div => '/'
  }

  lemma QuotTruncated(x: int, y: int)
    requires y != 0
    ensures Truncated(Quot(x, y), x, y)
  {
    hide Quot, Abs;
    QuotExact(x, y);
  }

  /** A pending operation gives that step. */
  lemma CombineGives(op: Op, a: int, b: int)
    ensures StepGives(Some(a), SymbolOf(op), Some(b), Shown(Combine(op, a, b)))
  {
    hide Text, Quot, Truncated, MulFixed;
    match op
    case Add => assert Result('+', a, b, a + b);
    case Sub => assert Result('-', a, b, a - b);
    case Mul =>
      MulExact(a, b);
      QuotTruncated(a * b, SCALE);
      assert Result('*', a, b, Quot(a * b, SCALE));
    case Div =>
      if b != 0 {
        QuotTruncated(a * SCALE, b);
        assert Result('/', a, b, Quot(a * SCALE, b));
      }
  }

  lemma TruncatedUnique(v: int, w: int, x: int, y: int)
    requires Truncated(v, x, y) && Truncated(w, x, y)
    ensures v == w
  {
    hide Abs;
    SizeUnique(Abs(v), Abs(w), Abs(x), Abs(y));
    SameSize(v, w, (x < 0) == (y < 0));
  }

  lemma SizeUnique(a: nat, b: nat, x: nat, m: nat)
    requires a * m <= x < (a + 1) * m && b * m <= x < (b + 1) * m
    ensures a == b
  {
    if a < b { TimesMono(a + 1, b, m); }
    if b < a { TimesMono(b + 1, a, m); }
  }

  lemma SameSize(v: int, w: int, positive: bool)
    requires Abs(v) == Abs(w) && (v > 0 ==> positive) && (v < 0 ==> !positive)
    requires (w > 0 ==> positive) && (w < 0 ==> !positive)
    ensures v == w
  {
  }

  /** And a step gives one thing only. */
  lemma StepUnique(acc: Option<int>, sym: char, rhs: Option<int>, r: Option<int>, s: Option<int>)
    requires StepGives(acc, sym, rhs, r) && StepGives(acc, sym, rhs, s)
    ensures r == s
  {
    hide Text, Quot, Truncated, Accepted;
    if acc.Some? && rhs.Some? {
      var a, b := acc.value, rhs.value;
      forall v, w | Result(sym, a, b, v) && Result(sym, a, b, w) ensures v == w {
        if sym == '*' { TruncatedUnique(v, w, a * b, SCALE); }
        if sym == '/' { TruncatedUnique(v, w, a * SCALE, b); }
      }
    }
  }

  function OpOf(k: char): (r: Option<Op>)
  {
    if k == '+' then Some(Add) else if k == '-' then Some(Sub)
    else if k == '*' then Some(Mul) else if k == '/' then Some(Div) else None
  }

  /** The keys of the model, as the characters the keyboard and the buttons send. */
  function KeyOf(k: char): (r: Option<Key>)
  {
    if IsDigit(k) then Some(Digit(k)) else if k == '.' then Some(Dot)
    else if OpOf(k).Some? then Some(OpKey(OpOf(k).value))
    else if k == '=' then Some(Equals) else if k == 'C' || k == 'c' then Some(Clear)
    else if k == 'e' || k == 'E' then Some(ClearEntry) else None
  }

  /** An operand as it is typed, behind the key of its operator. */
  datatype Typed = Typed(sym: char, text: string)

  predicate Entry(s: string) { s != "" && forall i :: 0 <= i < |s| ==> IsDigit(s[i]) || s[i] == '.' }

  predicate AllTyped(ts: seq<Typed>)
  {
    forall i :: 0 <= i < |ts| ==> ts[i].sym in "+-*/" && Entry(ts[i].text)
  }

  /** The keys of a text; characters that are no keys of the model are left out. */
  function KeysOf(s: string): (ks: seq<Key>)
  {
    if s == "" then [] else KeyList(s[0]) + KeysOf(s[1..])
  }

  function KeyList(c: char): (ks: seq<Key>) { if KeyOf(c).Some? then [KeyOf(c).value] else [] }

  function Rest(ts: seq<Typed>): (s: string)
    decreases |ts|
  {
    if ts == [] then "=" else [ts[0].sym] + (ts[0].text + Rest(ts[1..]))
  }

  /** The chain of steps, left to right. */
  ghost predicate ChainGives(acc: Option<int>, ts: seq<Typed>, r: Option<int>)
    decreases |ts|
  {
    if ts == [] then r == acc
    else exists m :: StepGives(acc, ts[0].sym, Entered(KeysOf(ts[0].text)), m) && ChainGives(m, ts[1..], r)
  }

  /** The first operand, if it was in range and fits. */
  ghost predicate FirstGives(first: string, r: Option<int>)
  {
    var v := Entered(KeysOf(first));
    if v.Some? && |Text(v.value)| <= 16 then r == v else r.None?
  }

  function TermsOf(ts: seq<Typed>): (r: seq<Term>)
    requires AllTyped(ts)
    decreases |ts|
  {
    if ts == [] then [] else [Term(OpOf(ts[0].sym).value, KeysOf(ts[0].text))] + TermsOf(ts[1..])
  }

  lemma {:induction false} KeysOfParts(a: string, b: string)
    ensures KeysOf(a + b) == KeysOf(a) + KeysOf(b)
    decreases |a|
  {
    hide KeysOf;
    if a == "" {
      assert a + b == b;
      KeysOfStep(a);
    } else {
      assert (a + b)[1..] == a[1..] + b;
      KeysOfParts(a[1..], b);
      KeysOfStep(a);
      KeysOfStep(a + b);
    }
  }

  lemma KeysOfStep(s: string)
    ensures s == "" ==> KeysOf(s) == []
    ensures s != "" ==> KeysOf(s) == KeyList(s[0]) + KeysOf(s[1..])
  {
    hide KeyOf;
  }

  lemma {:induction false} EntryKeys(s: string)
    requires forall i :: 0 <= i < |s| ==> IsDigit(s[i]) || s[i] == '.'
    ensures |KeysOf(s)| == |s| && forall i :: 0 <= i < |s| ==> EntryKey(KeysOf(s)[i])
  {
    if s != "" { EntryKeys(s[1..]); }
  }

  lemma {:induction false} DigitKeys(s: string)
    requires AllDigits(s)
    ensures KeysOf(s) == KeysFor(s)
    decreases |s|
  {
    hide KeysOf;
    if s == "" {
      KeysOfStep(s);
    } else {
      var front, last := s[..|s| - 1], s[|s| - 1];
      DigitKeys(front);
      assert s == front + [last];
      KeysOfParts(front, [last]);
      KeysOfStep([last]);
      KeysOfStep("");
      assert [last][1..] == "";
    }
  }

  /** Typing a number that fits the display, with or without a point, enters that number. */
  lemma TypedNumber(whole: string, dot: bool, frac: string)
    requires EntryText(whole + (if dot then "." + frac else ""), whole, dot, frac) && whole != ""
    ensures var v := Num(whole) * SCALE + FracNum(frac);
            Entered(KeysOf(whole + (if dot then "." + frac else ""))) == if v > MAX_I64 then None else Some(v)
  {
    hide ReadFixed, Num, FracNum, TypeAll, KeysOf;
    var t := whole + (if dot then "." + frac else "");
    TypedShows(t, whole, dot, frac);
    ReadSpelled(false, whole, frac, dot);
    assert "" + whole + (if dot then "." + frac else "") == t;
  }

  lemma TypedShows(t: string, whole: string, dot: bool, frac: string)
    requires EntryText(t, whole, dot, frac) && whole != ""
    ensures TypeAll("", KeysOf(t)) == t
  {
    hide KeysFor, TypeAll, KeysOf;
    DigitKeys(whole);
    if dot {
      DigitKeys(frac);
      KeysOfParts(whole, "." + frac);
      KeysOfParts(".", frac);
      PointKey();
      TypedText(whole, frac);
    } else {
      TypeWhole(whole);
      assert t == whole;
    }
  }

  /** Where an entry starts, as after C, CE, an operator, '=' or a root, a number typed replaces what is shown
      and touches nothing else. */
  lemma FreshNumber(c: Calc, t: string, whole: string, dot: bool, frac: string)
    requires !c.error && c.starting && EntryText(t, whole, dot, frac) && whole != ""
    ensures PressAll(c, KeysOf(t)) == c.(text := t, starting := false)
  {
    hide Press, TypeAll, KeysOf;
    TypedShows(t, whole, dot, frac);
    assert Entry(t) by { EntryChars(t, whole, dot, frac); }
    EntryKeys(t);
    TypedKeys(c, KeysOf(t));
  }

  lemma EntryChars(t: string, whole: string, dot: bool, frac: string)
    requires EntryText(t, whole, dot, frac) && whole != ""
    ensures Entry(t)
  {
  }

  lemma PointKey()
    ensures KeysOf(".") == [Dot]
  {
    assert "."[1..] == "";
  }

  lemma {:induction false} RestKeys(ts: seq<Typed>)
    requires AllTyped(ts)
    ensures KeysOf(Rest(ts)) == TermKeys(TermsOf(ts)) && Terms(TermsOf(ts))
    decreases |ts|
  {
    if ts == [] {
      assert "="[1..] == "";
    } else {
      hide KeysOf;
      var t, rest := ts[0], Rest(ts[1..]);
      RestKeys(ts[1..]);
      EntryKeys(t.text);
      KeysOfParts([t.sym], t.text + rest);
      KeysOfParts(t.text, rest);
      SymbolKeys(t.sym);
      var all := TermsOf(ts);
      assert all[0].keys == KeysOf(t.text) && all[1..] == TermsOf(ts[1..]);
      forall i | 0 <= i < |all| ensures Operand(all[i].keys) {
        if i > 0 { assert all[i] == TermsOf(ts[1..])[i - 1]; }
      }
    }
  }

  lemma SymbolKeys(sym: char)
    requires sym in "+-*/"
    ensures OpOf(sym).Some? && SymbolOf(OpOf(sym).value) == sym && KeysOf([sym]) == [OpKey(OpOf(sym).value)]
  {
    assert [sym][1..] == "";
  }

  lemma {:induction false} FoldGives(acc: Option<int>, ts: seq<Typed>)
    requires AllTyped(ts)
    ensures ChainGives(acc, ts, Fold(acc, TermsOf(ts)))
    decreases |ts|
  {
    hide Combine, StepGives, Shown, Entered, KeysOf, OpOf, SymbolOf;
    if ts != [] {
      SymbolKeys(ts[0].sym);
      var op, rhs := OpOf(ts[0].sym).value, Entered(KeysOf(ts[0].text));
      var m := Then(acc, op, rhs);
      if acc.Some? && rhs.Some? { CombineGives(op, acc.value, rhs.value); } else { NoStep(acc, ts[0].sym, rhs); }
      assert TermsOf(ts)[1..] == TermsOf(ts[1..]);
      FoldGives(m, ts[1..]);
    }
  }

  lemma NoStep(acc: Option<int>, sym: char, rhs: Option<int>)
    requires acc.None? || rhs.None?
    ensures StepGives(acc, sym, rhs, None)
  {
  }

  /** Typing operands joined by + - * / and ending in '=' after C shows the left-to-right chain of
      their values, or ERR from the first step that is not accepted or does not fit. */
  lemma ChainShows(c: Calc, first: string, ts: seq<Typed>) returns (start: Option<int>, r: Option<int>)
    requires Entry(first) && AllTyped(ts)
    ensures FirstGives(first, start) && ChainGives(start, ts, r)
    ensures Displays(PressAll(c, KeysOf("C" + (first + Rest(ts)))), r)
  {
    hide Fold, TermsOf, Rest, TermKeys, Entered, StepGives, ReadFixed, Text, Displays;
    start := Shown(Entered(KeysOf(first)));
    r := Fold(start, TermsOf(ts));
    FoldGives(start, ts);
    RestKeys(ts);
    KeysOfParts("C", first + Rest(ts));
    KeysOfParts(first, Rest(ts));
    EntryKeys(first);
    assert KeysOf("C") == [Clear] by { assert "C"[1..] == ""; }
    ChainFold(c, KeysOf(first), TermsOf(ts));
  }

  /** The chain gives one thing only. */
  lemma {:induction false} ChainUnique(acc: Option<int>, ts: seq<Typed>, r: Option<int>, s: Option<int>)
    requires ChainGives(acc, ts, r) && ChainGives(acc, ts, s)
    ensures r == s
    decreases |ts|
  {
    hide StepGives, Entered, KeysOf;
    if ts != [] {
      var rhs := Entered(KeysOf(ts[0].text));
      var m :| StepGives(acc, ts[0].sym, rhs, m) && ChainGives(m, ts[1..], r);
      var n :| StepGives(acc, ts[0].sym, rhs, n) && ChainGives(n, ts[1..], s);
      StepUnique(acc, ts[0].sym, rhs, m, n);
      ChainUnique(m, ts[1..], r, s);
    }
  }

  // ----- going on after '=' -----

  lemma ShortFraction(f: string)
    requires AllDigits(f) && |f| <= 1
    ensures FracNum(f) % 100_000 == 0
  {
    if |f| == 1 {
      assert f[..0] == "";
      var d := DigitVal(f[0]);
      assert FracNum(f) == 100_000 * d;
    }
  }

  /** -9223372036854.775808, the one value without a negation, is too long to show. */
  lemma MinTooLong()
    ensures !Fits(MIN_I64)
  {
    hide Num, Digits, Pad, Trim, FracNum, Ten;
    var n := 9_223_372_036_854;
    TextSpells(MIN_I64);
    var whole, frac := Digits(n), Fraction(MIN_I64);
    assert Abs(MIN_I64) / SCALE == n;
    DigitsSpell(n);
    TenThirteen();
    DigitsLong(n, 12) by { assert Ten(13) == 10 * Ten(12) by { TenStep(12); } }
    assert FracNum(frac) == 775_808;
    if |frac| <= 1 { ShortFraction(frac); }
    SpelledLen(true, whole, frac);
  }

  lemma TenStep(k: nat)
    ensures Ten(k + 1) == 10 * Ten(k)
  {
  }

  /** An operator pressed on a shown result takes that result, exactly, as its left operand. */
  lemma ResultCarriesOn(c: Calc, v: int, op: Op)
    requires InI64(v) && Fits(v) && Displays(c, Some(v))
    ensures Press(c, OpKey(op)) == Calc(Text(v), v, Some(op), true, false)
  {
    hide ReadFixed, Text;
    MinTooLong();
    RoundTrip(v);
    OpStep(c, op);
  }

  /** In any state, '=' and the operators apply the pending operation to the value shown, just typed or not,
      and make the result the one shown and the left operand. */
  lemma KeyGives(c: Calc, v: int, op: Op) returns (r: Option<int>)
    requires !c.error && ReadFixed(c.text) == Some(v)
    ensures if c.op.None? then r == if |Text(v)| <= 16 then Some(v) else None
            else StepGives(Some(c.acc), SymbolOf(c.op.value), Some(v), r)
    ensures r.None? ==> Press(c, Equals).error && Press(c, OpKey(op)).error
    ensures r.Some? ==> Press(c, Equals) == Calc(Text(r.value), r.value, None, true, false)
    ensures r.Some? ==> Press(c, OpKey(op)) == Calc(Text(r.value), r.value, Some(op), true, false)
  {
    hide ReadFixed, Text, StepGives, Combine, SymbolOf, Press;
    r := Waiting(c);
    if c.op.Some? { CombineGives(c.op.value, c.acc, v); }
    EqualsStep(c);
    OpStep(c, op);
  }

  // ----- the square-root key -----

  /** The key's effect: the root of the value in millionths of millionths, cut off at 2147.483648. */
  ghost function PressSqrt(c: Calc): (r: Calc)
  {
    if c.error then c
    else
      match ReadFixed(c.text)
      case None => Trip(c)
      case Some(v) =>
        if v < 0 || v * SCALE > MAX_I64 then Trip(c) else Show(c, Min(Root(v * SCALE), ROOT_CAP)).(starting := true)
  }

  /** The key shows ERR exactly for a negative value or one that leaves 64 bits when scaled. Otherwise the
      display shows the square root, to the millionth below, exactly if the cut-off is not reached. The
      pending operation waits. */
  lemma SqrtKey(c: Calc, v: int)
    requires !c.error && ReadFixed(c.text) == Some(v)
    ensures var r := PressSqrt(c);
            if v < 0 || v * SCALE > MAX_I64 then r.error && r.text == "ERR"
            else !r.error && (r.text == Text(Root(v * SCALE)) <==> v * SCALE < (ROOT_CAP + 1) * (ROOT_CAP + 1))
    ensures PressSqrt(c).acc == c.acc && PressSqrt(c).op == c.op
  {
    hide Root, Text, ReadFixed;
    if v >= 0 && v * SCALE <= MAX_I64 { SqrtShows(c, v); }
  }

  lemma SqrtShows(c: Calc, v: nat)
    requires !c.error && ReadFixed(c.text) == Some(v) && v * SCALE <= MAX_I64
    ensures var r := PressSqrt(c);
            !r.error && (r.text == Text(Root(v * SCALE)) <==> v * SCALE < (ROOT_CAP + 1) * (ROOT_CAP + 1))
  {
    hide Root, Text, ReadFixed;
    var n, m := Root(v * SCALE), Min(Root(v * SCALE), ROOT_CAP);
    SqrtExactIff(v * SCALE);
    RootFits(m);
    RootInRange(v * SCALE);
    if Text(m) == Text(n) {
      RoundTrip(m);
      RoundTrip(n);
    }
  }

  lemma RootInRange(v: nat)
    requires v <= MAX_I64
    ensures Root(v) <= MAX_I64
  {
    hide Root;
    RootUnique(Root(v), MAX_I64, v);
  }

  lemma RootFits(m: nat)
    requires m <= ROOT_CAP
    ensures Fits(m)
  {
    hide Digits, Trim, Pad, Ten;
    TenFour();
    DigitsLen(m / SCALE, 4);
    SpelledLen(false, Digits(m / SCALE), Fraction(m));
  }

  lemma TenFour()
    ensures Ten(4) == 10_000
  {
  }

  // ----- the keypad -----

  lemma CombineInRange(op: Op, a: int, b: int)
    requires Combine(op, a, b).Some?
    ensures InI64(Combine(op, a, b).value)
  {
    hide Quot, MulFixed;
    match op
    case Mul => MulExact(a, b);
    case Div => DivExact(a, b);
    case _ =>
  }

  /** Pressing an operator or '=' does not have to negate -2^63. */
  predicate Negatable(c: Calc)
  {
    c.error || ReadFixed(c.text).None? || Outcome(c, ReadFixed(c.text).value) != Some(MIN_I64)
  }

  class Keypad {
    var display: array<char>
    var displayLen: nat
    var accumulator: int
    var pendingOp: Option<Op>
    var freshEntry: bool
    var error: bool

    ghost predicate Valid()
      reads this
    {
      display.Length == DISPLAY_CAP + 1 && displayLen <= DISPLAY_CAP
    }

    ghost function State(): (c: Calc)
      requires Valid()
      reads this, display
    {
      Calc(display[..displayLen], accumulator, pendingOp, freshEntry, error)
    }

    constructor ()
      ensures Valid() && fresh(display) && State() == Calc("", 0, None, true, false)
    {
      display := new char[DISPLAY_CAP + 1];
      displayLen, accumulator, pendingOp, freshEntry, error := 0, 0, None, true, false;
    }

    method SetDisplayLiteral(s: string)
      requires Valid()
      modifies this`displayLen, display
      ensures Valid() && State() == old(State()).(text := s[..Min(DISPLAY_CAP, |s|)])
    {
      var n := 0;
      while n < DISPLAY_CAP && n < |s|
        invariant n <= |s| && n <= DISPLAY_CAP && display[..n] == s[..n]
        modifies display
      {
        display[n] := s[n];
        n := n + 1;
      }
      display[n] := '\0';
      displayLen := n;
    }

    method TripErr()
      requires Valid()
      modifies this`displayLen, this`error, display
      ensures Valid() && State() == Trip(old(State()))
    {
      error := true;
      SetDisplayLiteral("ERR");
      assert "ERR"[..3] == "ERR";
    }

    method SetDisplayFixed(v: int)
      requires Valid() && MIN_I64 < v <= MAX_I64
      modifies this`displayLen, this`error, display
      ensures Valid() && State() == Show(old(State()), v)
    {
      hide Text;
      var n := FormatFixed(v, display, DISPLAY_CAP);
      if n == 0 {
        assert display[..displayLen] == old(display[..displayLen]) by {
          SliceOf(display[..], old(display[..]), displayLen);
        }
        TripErr();
        return;
      }
      displayLen := n;
    }

    method ApplyPending(rhs: int)
      requires Valid() && MIN_I64 < rhs <= MAX_I64 && Outcome(State(), rhs) != Some(MIN_I64)
      modifies this, display
      ensures Valid() && display == old(display) && State() == Apply(old(State()), rhs)
      ensures old(pendingOp).Some? && !old(error) ==>
                StepGives(Some(old(accumulator)), SymbolOf(old(pendingOp).value), Some(rhs),
                          if error then None else Some(accumulator))
    {
      hide Text, MulFixed, DivFixed, StepGives, SymbolOf;
      if pendingOp.None? {
        accumulator := rhs;
        SetDisplayFixed(rhs);
        return;
      }
      var result := Combine(pendingOp.value, accumulator, rhs);
      if result.None? {
        CombineGives(pendingOp.value, accumulator, rhs);
        TripErr();
        accumulator, pendingOp, freshEntry := 0, None, true;
        return;
      }
      CombineGives(pendingOp.value, accumulator, rhs);
      CombineInRange(pendingOp.value, accumulator, rhs);
      accumulator, pendingOp := result.value, None;
      SetDisplayFixed(result.value);
    }

    method HandleDigit(d: char)
      requires Valid()
      modifies this, display
      ensures Valid() && display == old(display) && State() == Press(old(State()), Digit(d))
    {
      if error { return; }
      if freshEntry {
        displayLen, display[0], freshEntry := 0, '\0', false;
      }
      ghost var t := display[..displayLen];
      assert t == Typing(old(State()));
      if displayLen >= DISPLAY_CAP { return; }
      var seenDot, fracCount := CountFrac();
      if seenDot && fracCount >= FRAC_DIGITS { return; }
      display[displayLen] := d;
      displayLen := displayLen + 1;
      display[displayLen] := '\0';
      assert display[..displayLen] == t + [d];
    }

    /** Whether the entry has a point, and how many digits follow it. */
    method CountFrac() returns (seenDot: bool, fracCount: nat)
      requires Valid()
      ensures seenDot == ('.' in display[..displayLen]) && fracCount == FracCount(display[..displayLen])
    {
      seenDot, fracCount := false, 0;
      for i := 0 to displayLen
        invariant seenDot == ('.' in display[..i]) && fracCount == FracCount(display[..i])
      {
        assert display[..i + 1] == display[..i] + [display[i]] && display[..i + 1][..i] == display[..i];
        if display[i] == '.' { seenDot := true; } else if seenDot { fracCount := fracCount + 1; }
      }
    }

    method HandleDot()
      requires Valid()
      modifies this, display
      ensures Valid() && display == old(display) && State() == Press(old(State()), Dot)
    {
      if error { return; }
      if freshEntry {
        displayLen, display[0], freshEntry := 0, '\0', false;
      }
      ghost var t := display[..displayLen];
      assert t == Typing(old(State()));
      for i := 0 to displayLen
        invariant '.' !in display[..i] && display[..displayLen] == t
      {
        if display[i] == '.' { return; }
        assert display[..i + 1] == display[..i] + [display[i]];
      }
      if displayLen == 0 {
        display[0] := '0';
        displayLen := 1;
      }
      ghost var u := display[..displayLen];
      assert u == if t == "" then "0" else t;
      if displayLen >= DISPLAY_CAP { return; }
      display[displayLen] := '.';
      displayLen := displayLen + 1;
      display[displayLen] := '\0';
      assert display[..displayLen] == u + ".";
    }

    method HandleOp(op: Op)
      requires Valid() && Negatable(State())
      modifies this, display
      ensures Valid() && display == old(display) && State() == Press(old(State()), OpKey(op))
    {
      hide ReadFixed, Text, Combine;
      if error { return; }
      var rhs, ovf := ReadDisplayAsFixed(display, displayLen);
      if ovf {
        TripErr();
        return;
      }
      ApplyPending(rhs);
      if error { return; }
      pendingOp, freshEntry := Some(op), true;
    }

    method HandleEquals()
      requires Valid() && Negatable(State())
      modifies this, display
      ensures Valid() && display == old(display) && State() == Press(old(State()), Equals)
    {
      hide ReadFixed, Text, Combine;
      if error { return; }
      var rhs, ovf := ReadDisplayAsFixed(display, displayLen);
      if ovf {
        TripErr();
        return;
      }
      ApplyPending(rhs);
      pendingOp, freshEntry := None, true;
    }

    method HandleClear()
      requires Valid()
      modifies this, display
      ensures Valid() && display == old(display) && State() == Press(old(State()), Clear)
    {
      accumulator, pendingOp, freshEntry, error := 0, None, true, false;
      SetDisplayLiteral("0");
      assert "0"[..1] == "0";
    }

    method HandleClearEntry()
      requires Valid()
      modifies this, display
      ensures Valid() && display == old(display) && State() == Press(old(State()), ClearEntry)
    {
      error := false;
      SetDisplayLiteral("0");
      assert "0"[..1] == "0";
      freshEntry := true;
    }

    method HandleSqrt()
      requires Valid()
      modifies this, display
      ensures Valid() && display == old(display) && State() == PressSqrt(old(State()))
    {
      hide ReadFixed, Text, Root;
      if error { return; }
      var cur, ovf := ReadDisplayAsFixed(display, displayLen);
      if ovf || cur < 0 || cur * SCALE > MAX_I64 {
        TripErr();
        return;
      }
      var r := IntSqrt(cur * SCALE);
      SetDisplayFixed(r);
      freshEntry := true;
    }

    method DispatchKey(k: char)
      requires Valid() && KeyOf(k).Some? && (KeyOf(k).value.OpKey? || KeyOf(k).value.Equals? ==> Negatable(State()))
      modifies this, display
      ensures Valid() && display == old(display) && State() == Press(old(State()), KeyOf(k).value)
    {
      hide ReadFixed, Press;
      if '0' <= k <= '9' {
        HandleDigit(k);
      } else if k == '.' {
        HandleDot();
      } else if OpOf(k).Some? {
        HandleOp(OpOf(k).value);
      } else if k == '=' {
        HandleEquals();
      } else if k == 'C' || k == 'c' {
        HandleClear();
      } else {
        HandleClearEntry();
      }
    }
  }

  lemma SliceOf(a: string, b: string, n: nat)
    requires a == b && n <= |a|
    ensures a[..n] == b[..n]
  {
  }
}
