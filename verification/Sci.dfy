/** The System Control Interrupt: write-1-clear status registers, the handler that latches and
    masks what fired, and the worker that takes the latched record.

    `Next` interleaves single register accesses of the handler with the hardware raising status
    bits and the worker taking the record. Every raise carries a number, and `place` says where
    it is; the invariant says that nothing is lost, doubled or invented. */
module Sci {
  import opened Bits
  import opened PkgLength

  type Word = x: nat | x < 0x1_0000

  /** A status bit: of a PM1 event register, or bit `bit` of byte `byte` of a GPE block. */
  datatype Source = Pm(reg: nat, bit: nat) | Gpe(block: nat, byte: nat, bit: nat)

  /** One or two PM1 status registers; status and enable bytes of the two GPE blocks. */
  datatype Hw = Hw(pm: seq<Word>, sts: seq<seq<Byte>>, en: seq<seq<Byte>>)

  datatype Pending = Pending(powerButton: bool, gpe0: nat, gpe1: nat)

  const NOTHING := Pending(false, 0, 0)
  const PWR_BIT: nat := 8

  /** A block's record is 32 bits wide, so it has room for four status bytes. */
  predicate HwOk(hw: Hw)
  {
    && 1 <= |hw.pm| <= 2 && |hw.sts| == 2 && |hw.en| == 2
    && |hw.sts[0]| == |hw.en[0]| <= 4 && |hw.sts[1]| == |hw.en[1]| <= 4
  }

  predicate Known(hw: Hw, x: Source)
    requires HwOk(hw)
  {
    match x
    case Pm(k, n) => k < |hw.pm| && n < 16
    case Gpe(b, i, n) => b < 2 && i < |hw.sts[b]| && n < 8
  }

  predicate Status(hw: Hw, x: Source)
    requires HwOk(hw) && Known(hw, x)
  {
    match x
    case Pm(k, n) => Bit(hw.pm[k], n)
    case Gpe(b, i, n) => Bit(hw.sts[b][i], n)
  }

  predicate Enabled(hw: Hw, x: Source)
    requires HwOk(hw) && Known(hw, x) && x.Gpe?
  {
    Bit(hw.en[x.block][x.byte], x.bit)
  }

  /** The handler reports power-button bits and GPE bits; other PM1 bits it leaves alone. */
  predicate Reportable(x: Source) { x.Pm? ==> x.bit == PWR_BIT }

  /** Both PM1 registers report into the same flag. */
  predicate Same(x: Source, y: Source) { if x.Pm? then y.Pm? else x == y }

  predicate Has(p: Pending, x: Source)
  {
    match x
    case Pm(k, n) => n == PWR_BIT && p.powerButton
    case Gpe(b, i, n) => Bit(if b == 0 then p.gpe0 else p.gpe1, 8 * i + n)
  }

  function Merge(a: Pending, b: Pending): (r: Pending)
  {
    Pending(a.powerButton || b.powerButton, Or(a.gpe0, b.gpe0), Or(a.gpe1, b.gpe1))
  }

  function Latch(p: Pending, block: nat, i: nat, v: Byte): (r: Pending)
  {
    if block == 0 then p.(gpe0 := Or(p.gpe0, Shl(v, 8 * i))) else p.(gpe1 := Or(p.gpe1, Shl(v, 8 * i)))
  }

  /** Write-1-clear, and masking: the bits of `x` that `m` does not have. */
  function Without(x: nat, m: nat): (r: nat)
    ensures r <= x
  {
    And(x, Inv(m, 16))
  }

  lemma WithoutBits(x: nat, m: nat)
    ensures forall n: nat :: n < 16 ==> (Bit(Without(x, m), n) <==> Bit(x, n) && !Bit(m, n))
  {
    hide Bit, And, Inv;
    forall n: nat | n < 16 ensures Bit(And(x, Inv(m, 16)), n) <==> Bit(x, n) && !Bit(m, n) {
      BitAnd(x, Inv(m, 16), n);
      BitInv(m, 16, n);
    }
  }

  function WithBit(x: nat, k: nat): (r: nat) { Or(x, Shl(1, k)) }

  lemma WithBitBits(x: nat, k: nat)
    ensures forall n: nat :: Bit(WithBit(x, k), n) <==> Bit(x, n) || n == k
  {
    hide And, Or, Shl;
    forall n: nat ensures Bit(Or(x, Shl(1, k)), n) <==> Bit(x, n) || n == k {
      BitOr(x, Shl(1, k), n);
      BitShl(1, k, n);
      if n > k { BitOne(n - k); }
    }
  }

  lemma BitOne(n: nat)
    requires n > 0
    ensures !Bit(1, n)
  {
    assert Bit(1, n) == Bit(0, n - 1);
    BitZero(n - 1);
  }

  lemma WithBitBound(x: nat, k: nat, n: nat)
    requires x < Pow2(n) && k < n
    ensures WithBit(x, k) < Pow2(n)
  {
    hide Bit, Or, Shl, Pow2, WithBit;
    WithBitBits(x, k);
    forall i: nat | i >= n ensures !Bit(WithBit(x, k), i) { HighBitsClear(x, n, i); }
    BitsBound(WithBit(x, k), n);
  }

  function PutPm(hw: Hw, k: nat, v: Word): (r: Hw)
    requires HwOk(hw) && k < |hw.pm|
    ensures Like(hw, r)
  {
    hw.(pm := hw.pm[k := v])
  }

  function PutSts(hw: Hw, b: nat, i: nat, v: Byte): (r: Hw)
    requires HwOk(hw) && b < 2 && i < |hw.sts[b]|
    ensures Like(hw, r)
  {
    var row: seq<Byte> := hw.sts[b][i := v];
    hw.(sts := hw.sts[b := row])
  }

  function PutEn(hw: Hw, b: nat, i: nat, v: Byte): (r: Hw)
    requires HwOk(hw) && b < 2 && i < |hw.sts[b]|
    ensures Like(hw, r)
  {
    var row: seq<Byte> := hw.en[b][i := v];
    hw.(en := hw.en[b := row])
  }

  /** The same registers. */
  predicate Like(a: Hw, b: Hw)
    requires HwOk(a)
  {
    HwOk(b) && |b.pm| == |a.pm| && |b.sts[0]| == |a.sts[0]| && |b.sts[1]| == |a.sts[1]|
  }

  function Raised(hw: Hw, x: Source): (r: Hw)
    requires HwOk(hw) && Known(hw, x)
    ensures Like(hw, r)
  {
    Pow2Values();
    match x
    case Pm(k, n) => WithBitBound(hw.pm[k], n, 16); PutPm(hw, k, WithBit(hw.pm[k], n))
    case Gpe(b, i, n) => WithBitBound(hw.sts[b][i], n, 8); PutSts(hw, b, i, WithBit(hw.sts[b][i], n))
  }

  // ----- the machine -----

  /** The next register access of the handler, with what it has read so far. */
  datatype Pc =
    | Off
    | ReadPm(k: nat) | ClearPm(k: nat)
    | ReadSts(block: nat, i: nat) | ClearSts(block: nat, i: nat, v: Byte)
    | ReadEn(block: nat, i: nat, v: Byte) | WriteEn(block: nat, i: nat, v: Byte, e: Byte)
    | Report

  datatype Place = InStatus | InHandler | InPending | InTaken(j: nat)

  /** `local` is the handler's own record. `raises` numbers the raises so far, `place` says where
      each is, and the raises below `mark` came before the handler was last entered. */
  datatype System = System(
    hw: Hw, pc: Pc, local: Pending, pending: Pending, taken: seq<Pending>,
    raises: seq<Source>, place: seq<Place>, mark: nat)

  datatype Label = Raise(x: Source) | Enter | Handler | Take

  function AfterPm(hw: Hw, k: nat): (pc: Pc) { if k + 1 < |hw.pm| then ReadPm(k + 1) else ReadSts(0, 0) }

  predicate PcOk(hw: Hw, pc: Pc)
    requires HwOk(hw)
  {
    match pc
    case Off => true
    case ReadPm(k) => k < |hw.pm|
    case ClearPm(k) => k < |hw.pm|
    case ReadSts(b, i) => b < 2 && i <= |hw.sts[b]|
    case ClearSts(b, i, v) => b < 2 && i < |hw.sts[b]|
    case ReadEn(b, i, v) => b < 2 && i < |hw.sts[b]|
    case WriteEn(b, i, v, e) => b < 2 && i < |hw.sts[b]| && e == hw.en[b][i]
    case Report => true
  }

  predicate Ok(s: System) { HwOk(s.hw) && PcOk(s.hw, s.pc) && |s.place| == |s.raises| && s.mark <= |s.raises| }

  /** The bits the handler's next access clears. */
  predicate Clears(pc: Pc, x: Source)
  {
    match pc
    case ClearPm(k) => x == Pm(k, PWR_BIT)
    case ClearSts(b, i, v) => x.Gpe? && x.block == b && x.byte == i && Bit(v, x.bit)
    case _ => false
  }

  /** The raises that are in `from` move to `to`, if they are among those picked. */
  function Moved(s: System, from: Place, to: Place, clearing: bool): (r: seq<Place>)
    requires |s.place| == |s.raises|
    ensures |r| == |s.place|
  {
    seq(|s.place|, t requires 0 <= t < |s.place| =>
      if s.place[t] == from && (clearing ==> Clears(s.pc, s.raises[t])) then to else s.place[t])
  }

  function HandlerStep(s: System): (r: System)
    requires Ok(s)
    ensures Ok(r)
  {
    var hw := s.hw;
    match s.pc
    case Off => s
    case ReadPm(k) =>
      if Bit(hw.pm[k], PWR_BIT) then s.(local := s.local.(powerButton := true), pc := ClearPm(k))
      else s.(pc := AfterPm(hw, k))
    case ClearPm(k) =>
      s.(hw := PutPm(hw, k, Without(hw.pm[k], 0x100)), place := Moved(s, InStatus, InHandler, true),
          pc := AfterPm(hw, k))
    case ReadSts(b, i) =>
      if i == |hw.sts[b]| then s.(pc := if b == 0 then ReadSts(1, 0) else Report)
      else if hw.sts[b][i] != 0 then s.(local := Latch(s.local, b, i, hw.sts[b][i]), pc := ClearSts(b, i, hw.sts[b][i]))
      else s.(pc := ReadSts(b, i + 1))
    case ClearSts(b, i, v) =>
      s.(hw := PutSts(hw, b, i, Without(hw.sts[b][i], v)), place := Moved(s, InStatus, InHandler, true),
          pc := ReadEn(b, i, v))
    case ReadEn(b, i, v) => s.(pc := WriteEn(b, i, v, hw.en[b][i]))
    case WriteEn(b, i, v, e) => s.(hw := PutEn(hw, b, i, Without(e, v)), pc := ReadSts(b, i + 1))
    case Report =>
      s.(pending := Merge(s.pending, s.local), place := Moved(s, InHandler, InPending, false), pc := Off)
  }

  function Next(s: System, l: Label): (r: System)
    requires Ok(s)
    ensures Ok(r)
  {
    match l
    case Raise(x) =>
      if Known(s.hw, x) then s.(hw := Raised(s.hw, x), raises := s.raises + [x], place := s.place + [InStatus]) else s
    case Enter => if s.pc.Off? then s.(pc := ReadPm(0), local := NOTHING, mark := |s.raises|) else s
    case Handler => HandlerStep(s)
    case Take =>
      s.(taken := s.taken + [s.pending], pending := NOTHING, place := Moved(s, InPending, InTaken(|s.taken|), false))
  }

  function Run(s: System, ls: seq<Label>): (r: System)
    requires Ok(s)
    ensures Ok(r)
  {
    if ls == [] then s else Next(Run(s, ls[..|ls| - 1]), ls[|ls| - 1])
  }

  // ----- what the bits of each register become -----

  lemma RaisedStatus(hw: Hw, x: Source, y: Source)
    requires HwOk(hw) && Known(hw, x) && Known(hw, y)
    ensures Status(Raised(hw, x), y) <==> Status(hw, y) || x == y
    ensures y.Gpe? ==> Enabled(Raised(hw, x), y) == Enabled(hw, y)
  {
    hide WithBit, Bit;
    if x.Pm? { WithBitBits(hw.pm[x.reg], x.bit); } else { WithBitBits(hw.sts[x.block][x.byte], x.bit); }
  }

  lemma PwrMask(n: nat)
    ensures Bit(0x100, n) <==> n == PWR_BIT
  {
    assert Shl(1, 8) == 0x100 by { ShlIsTimes(1, 8); Pow2Values(); }
    BitShl(1, 8, n);
    if n > 8 { BitOne(n - 8); }
  }

  /** A clearing access clears exactly its bits and touches no enable bit. */
  lemma ClearedStatus(s: System, y: Source)
    requires Ok(s) && (s.pc.ClearPm? || s.pc.ClearSts?) && Known(s.hw, y)
    ensures var r := HandlerStep(s);
            && (Status(r.hw, y) <==> Status(s.hw, y) && !Clears(s.pc, y))
            && (y.Gpe? ==> Enabled(r.hw, y) == Enabled(s.hw, y))
  {
    hide Bit, Without, Moved;
    if s.pc.ClearPm? {
      WithoutBits(s.hw.pm[s.pc.k], 0x100);
      if y.Pm? { PwrMask(y.bit); }
    } else {
      WithoutBits(s.hw.sts[s.pc.block][s.pc.i], s.pc.v);
    }
  }

  predicate Masks(pc: Pc, x: Source)
  {
    match pc
    case ReadEn(b, i, v) => x.Gpe? && x.block == b && x.byte == i && Bit(v, x.bit)
    case WriteEn(b, i, v, e) => x.Gpe? && x.block == b && x.byte == i && Bit(v, x.bit)
    case _ => false
  }

  lemma MaskedEnable(s: System, y: Source)
    requires Ok(s) && s.pc.WriteEn? && Known(s.hw, y)
    ensures var r := HandlerStep(s);
            && Status(r.hw, y) == Status(s.hw, y)
            && (y.Gpe? ==> (Enabled(r.hw, y) <==> Enabled(s.hw, y) && !Masks(s.pc, y)))
  {
    hide Bit, Without;
    WithoutBits(s.pc.e, s.pc.v);
  }

  lemma MergeHas(a: Pending, b: Pending, x: Source)
    ensures Has(Merge(a, b), x) <==> Has(a, x) || Has(b, x)
  {
    hide Bit, Or;
    if x.Gpe? {
      BitOr(a.gpe0, b.gpe0, 8 * x.byte + x.bit);
      BitOr(a.gpe1, b.gpe1, 8 * x.byte + x.bit);
    }
  }

  lemma NothingHas(x: Source)
    ensures !Has(NOTHING, x)
  {
    if x.Gpe? { BitZero(8 * x.byte + x.bit); }
  }

  /** Byte `i` of a block lands on bits `8 * i` to `8 * i + 7` of the record. */
  lemma LatchHas(p: Pending, b: nat, i: nat, v: Byte, x: Source)
    requires b < 2 && (x.Gpe? ==> x.block < 2 && x.bit < 8)
    ensures Has(Latch(p, b, i, v), x) <==> Has(p, x) || (x.Gpe? && x.block == b && x.byte == i && Bit(v, x.bit))
  {
    hide Bit, Or, Shl;
    if x.Gpe? && x.block == b {
      var k := 8 * x.byte + x.bit;
      BitOr(if b == 0 then p.gpe0 else p.gpe1, Shl(v, 8 * i), k);
      BitShl(v, 8 * i, k);
      if k >= 8 * i + 8 {
        Pow2Values();
        HighBitsClear(v, 8, k - 8 * i);
      }
    }
  }

  // ----- the invariant -----

  /** The handler is past the register of `x`. */
  predicate Passed(pc: Pc, x: Source)
  {
    match pc
    case Off => true
    case ReadPm(k) => x.Pm? && x.reg < k
    case ClearPm(k) => x.Pm? && x.reg < k
    case ReadSts(b, i) => x.Pm? || x.block < b || (x.block == b && x.byte < i)
    case ClearSts(b, i, v) => x.Pm? || x.block < b || (x.block == b && x.byte < i)
    case ReadEn(b, i, v) => x.Pm? || x.block < b || (x.block == b && x.byte <= i)
    case WriteEn(b, i, v, e) => x.Pm? || x.block < b || (x.block == b && x.byte <= i)
    case Report => true
  }

  /** The bit of raise `t` is set where the raise is. */
  predicate Shown(s: System, t: nat)
    requires Ok(s) && t < |s.raises| && Known(s.hw, s.raises[t])
  {
    var x := s.raises[t];
    match s.place[t]
    case InStatus => Status(s.hw, x)
    case InHandler => s.pc != Off && Has(s.local, x)
    case InPending => Has(s.pending, x)
    case InTaken(j) => j < |s.taken| && Has(s.taken[j], x)
  }

  /** Raise `t` is accounted for: shown where it is; if acknowledged, a bit that is reported, and
      masked or about to be; and acknowledged if the handler has passed its register since. */
  predicate Accounted(s: System, t: nat)
    requires Ok(s) && t < |s.raises|
  {
    var x := s.raises[t];
    && Known(s.hw, x) && Shown(s, t)
    && (s.place[t] != InStatus ==> Reportable(x) && (x.Gpe? ==> !Enabled(s.hw, x) || Masks(s.pc, x)))
    && (t < s.mark && Reportable(x) && s.place[t] == InStatus ==>
        !Passed(s.pc, x) && (s.pc.ClearSts? && x.Gpe? && x.block == s.pc.block && x.byte == s.pc.i ==> Clears(s.pc, x)))
  }

  ghost predicate Waiting(s: System, x: Source)
    requires Ok(s)
  {
    exists t :: 0 <= t < |s.raises| && s.raises[t] == x && s.place[t] == InStatus
  }

  ghost predicate Acked(s: System, x: Source)
    requires Ok(s)
  {
    exists t :: 0 <= t < |s.raises| && s.raises[t] == x && s.place[t] != InStatus
  }

  /** Some raise that reports like `x` is at `p`. */
  ghost predicate Behind(s: System, x: Source, p: Place)
    requires Ok(s)
  {
    exists t :: 0 <= t < |s.raises| && Same(s.raises[t], x) && s.place[t] == p
  }

  /** Every set bit of `x` stands for a raise that is there, and only acknowledged bits have been masked. */
  ghost predicate Founded(s: System, orig: Hw, x: Source)
    requires Ok(s) && Known(s.hw, x) && Like(s.hw, orig)
  {
    && (Status(s.hw, x) ==> Waiting(s, x))
    && (Clears(s.pc, x) ==> Status(s.hw, x) && Has(s.local, x))
    && (Has(s.pending, x) ==> Behind(s, x, InPending))
    && (s.pc != Off && Has(s.local, x) ==> Behind(s, x, InHandler) || Clears(s.pc, x) || (s.pc.ClearPm? && x.Pm?))
    && (forall j :: 0 <= j < |s.taken| && Has(s.taken[j], x) ==> Behind(s, x, InTaken(j)))
    && (Masks(s.pc, x) ==> Acked(s, x))
    && (x.Gpe? ==> (Enabled(s.hw, x) ==> Enabled(orig, x)) && (Enabled(orig, x) && !Enabled(s.hw, x) ==> Acked(s, x)))
  }

  ghost predicate Sound(s: System, orig: Hw)
  {
    && Ok(s) && Like(s.hw, orig)
    && (forall t :: 0 <= t < |s.raises| ==> Accounted(s, t))
    && (forall x :: Known(s.hw, x) ==> Founded(s, orig, x))
  }

  // ----- raising -----

  lemma RaiseAccounted(s: System, orig: Hw, x: Source, t: nat)
    requires Sound(s, orig) && Known(s.hw, x) && t < |s.raises| + 1
    ensures Accounted(Next(s, Raise(x)), t)
  {
    hide Bit, Has, Raised, Passed;
    if t < |s.raises| {
      assert Accounted(s, t);
      RaisedStatus(s.hw, x, s.raises[t]);
    } else {
      RaisedStatus(s.hw, x, x);
    }
  }

  lemma RaiseFounded(s: System, orig: Hw, x: Source, y: Source)
    requires Sound(s, orig) && Known(s.hw, x) && Known(s.hw, y)
    ensures Founded(Next(s, Raise(x)), orig, y)
  {
    hide Bit, Has, Raised, Passed, Accounted;
    RaisedStatus(s.hw, x, y);
    var r := Next(s, Raise(x));
    assert r.raises[|s.raises|] == x && r.place[|s.raises|] == InStatus;
    assert forall t :: 0 <= t < |s.raises| ==> r.raises[t] == s.raises[t] && r.place[t] == s.place[t];
  }

  lemma RaiseKeeps(s: System, orig: Hw, x: Source)
    requires Sound(s, orig)
    ensures Sound(Next(s, Raise(x)), orig)
  {
    hide Accounted, Founded, Raised;
    var r := Next(s, Raise(x));
    if Known(s.hw, x) {
      forall t | 0 <= t < |r.raises| ensures Accounted(r, t) { RaiseAccounted(s, orig, x, t); }
      forall y | Known(r.hw, y) ensures Founded(r, orig, y) { RaiseFounded(s, orig, x, y); }
    }
  }

  // ----- the steps that move raises on -----

  /** Nothing is behind a bit at `p` any more only if it has moved. */
  lemma BehindMoved(s: System, r: System, x: Source, p: Place, q: Place)
    requires Ok(s) && Ok(r) && r.raises == s.raises && Behind(s, x, p)
    requires forall t :: 0 <= t < |s.raises| && Same(s.raises[t], x) && s.place[t] == p ==> r.place[t] == q
    ensures Behind(r, x, q)
  {
    var t :| 0 <= t < |s.raises| && Same(s.raises[t], x) && s.place[t] == p;
    assert Same(r.raises[t], x) && r.place[t] == q;
  }

  lemma EnterKeeps(s: System, orig: Hw)
    requires Sound(s, orig)
    ensures Sound(Next(s, Enter), orig)
  {
    hide Bit, Has;
    var r := Next(s, Enter);
    if s.pc.Off? {
      forall t | 0 <= t < |r.raises| ensures Accounted(r, t) { assert Accounted(s, t); }
      forall x | Known(r.hw, x) ensures Founded(r, orig, x) {
        assert Founded(s, orig, x);
        NothingHas(x);
      }
    }
  }

  lemma TakeAccounted(s: System, orig: Hw, t: nat)
    requires Sound(s, orig) && t < |s.raises|
    ensures Accounted(Next(s, Take), t)
  {
    hide Bit, Has, Passed;
    assert Accounted(s, t);
  }

  lemma TakeFounded(s: System, orig: Hw, x: Source)
    requires Sound(s, orig) && Known(s.hw, x)
    ensures Founded(Next(s, Take), orig, x)
  {
    hide Bit, Has, Passed, Accounted, Behind, Status, Enabled, Clears, Masks;
    var r := Next(s, Take);
    assert Founded(s, orig, x);
    NothingHas(x);
    KeptWitness(s, r, x);
    if Behind(s, x, InHandler) { BehindMoved(s, r, x, InHandler, InHandler); }
    forall j | 0 <= j < |r.taken| && Has(r.taken[j], x) ensures Behind(r, x, InTaken(j)) {
      if j < |s.taken| { BehindMoved(s, r, x, InTaken(j), InTaken(j)); }
          else { BehindMoved(s, r, x, InPending, InTaken(j)); }
    }
  }

  /** A step that changes no status place keeps what waits and what is acknowledged. */
  lemma KeptWitness(s: System, r: System, x: Source)
    requires Ok(s) && Ok(r) && r.raises == s.raises
    requires forall t :: 0 <= t < |s.raises| ==> (r.place[t] == InStatus <==> s.place[t] == InStatus)
    ensures Waiting(s, x) ==> Waiting(r, x)
    ensures Acked(s, x) ==> Acked(r, x)
  {
    if Waiting(s, x) {
      var t :| 0 <= t < |s.raises| && s.raises[t] == x && s.place[t] == InStatus;
      assert r.raises[t] == x && r.place[t] == InStatus;
    }
    if Acked(s, x) {
      var t :| 0 <= t < |s.raises| && s.raises[t] == x && s.place[t] != InStatus;
      assert r.raises[t] == x && r.place[t] != InStatus;
    }
  }

  lemma TakeKeeps(s: System, orig: Hw)
    requires Sound(s, orig)
    ensures Sound(Next(s, Take), orig)
  {
    hide Accounted, Founded, Known, Moved;
    var r := Next(s, Take);
    forall t | 0 <= t < |r.raises| ensures Accounted(r, t) { TakeAccounted(s, orig, t); }
    forall x | Known(r.hw, x) ensures Founded(r, orig, x) { TakeFounded(s, orig, x); }
  }

  lemma ReportKeeps(s: System, orig: Hw)
    requires Sound(s, orig) && s.pc.Report?
    ensures Sound(HandlerStep(s), orig)
  {
    hide Bit, Has, Status, Enabled, Known, Merge;
    var r := HandlerStep(s);
    forall t | 0 <= t < |r.raises| ensures Accounted(r, t) {
      assert Accounted(s, t);
      MergeHas(s.pending, s.local, s.raises[t]);
    }
    forall x | Known(r.hw, x) ensures Founded(r, orig, x) {
      assert Founded(s, orig, x);
      MergeHas(s.pending, s.local, x);
      ReportFounded(s, orig, x);
    }
  }

  lemma ReportFounded(s: System, orig: Hw, x: Source)
    requires Sound(s, orig) && s.pc.Report? && Known(s.hw, x)
    ensures Founded(HandlerStep(s), orig, x)
  {
    hide Bit, Has, Status, Enabled, Known, Merge, Accounted, Behind;
    var r := HandlerStep(s);
    assert Founded(s, orig, x);
    MergeHas(s.pending, s.local, x);
    KeptWitness(s, r, x);
    if Has(s.pending, x) { BehindMoved(s, r, x, InPending, InPending); }
    if Has(s.local, x) { BehindMoved(s, r, x, InHandler, InPending); }
    forall j | 0 <= j < |r.taken| && Has(r.taken[j], x) ensures Behind(r, x, InTaken(j)) {
      BehindMoved(s, r, x, InTaken(j), InTaken(j));
    }
  }

  // ----- the handler's reads -----

  lemma ReadPmKeeps(s: System, orig: Hw)
    requires Sound(s, orig) && s.pc.ReadPm?
    ensures Sound(HandlerStep(s), orig)
  {
    hide Bit;
    var r := HandlerStep(s);
    forall t | 0 <= t < |r.raises| ensures Accounted(r, t) { assert Accounted(s, t); }
    forall x | Known(r.hw, x) ensures Founded(r, orig, x) { assert Founded(s, orig, x); }
  }

  lemma ReadStsAccounted(s: System, orig: Hw, t: nat)
    requires Sound(s, orig) && s.pc.ReadSts? && t < |s.raises|
    ensures Accounted(HandlerStep(s), t)
  {
    hide Bit, Latch, Has;
    assert Accounted(s, t);
    var b, i, x := s.pc.block, s.pc.i, s.raises[t];
    if i < |s.hw.sts[b]| {
      LatchHas(s.local, b, i, s.hw.sts[b][i], x);
      if x.Gpe? { BitZero(x.bit); }
    }
  }

  lemma ReadStsFounded(s: System, orig: Hw, x: Source)
    requires Sound(s, orig) && s.pc.ReadSts? && Known(s.hw, x)
    ensures Founded(HandlerStep(s), orig, x)
  {
    hide Bit, Latch, Has, Accounted, Behind, Passed;
    assert Founded(s, orig, x);
    var b, i := s.pc.block, s.pc.i;
    if i < |s.hw.sts[b]| { LatchHas(s.local, b, i, s.hw.sts[b][i], x); }
    var r := HandlerStep(s);
    KeptWitness(s, r, x);
    if Behind(s, x, InHandler) { BehindMoved(s, r, x, InHandler, InHandler); }
    if Behind(s, x, InPending) { BehindMoved(s, r, x, InPending, InPending); }
    forall j | 0 <= j < |r.taken| && Has(r.taken[j], x) ensures Behind(r, x, InTaken(j)) {
      BehindMoved(s, r, x, InTaken(j), InTaken(j));
    }
  }

  lemma ReadStsKeeps(s: System, orig: Hw)
    requires Sound(s, orig) && s.pc.ReadSts?
    ensures Sound(HandlerStep(s), orig)
  {
    hide Accounted, Founded, Known, Latch, Bit;
    var r := HandlerStep(s);
    forall t | 0 <= t < |r.raises| ensures Accounted(r, t) { ReadStsAccounted(s, orig, t); }
    forall x | Known(r.hw, x) ensures Founded(r, orig, x) { ReadStsFounded(s, orig, x); }
  }

  lemma ReadEnKeeps(s: System, orig: Hw)
    requires Sound(s, orig) && s.pc.ReadEn?
    ensures Sound(HandlerStep(s), orig)
  {
    hide Bit, Has;
    var r := HandlerStep(s);
    forall t | 0 <= t < |r.raises| ensures Accounted(r, t) { assert Accounted(s, t); }
    forall x | Known(r.hw, x) ensures Founded(r, orig, x) { assert Founded(s, orig, x); }
  }

  // ----- the handler's writes -----

  lemma ClearAccounted(s: System, orig: Hw, t: nat)
    requires Sound(s, orig) && (s.pc.ClearPm? || s.pc.ClearSts?) && t < |s.raises|
    ensures Accounted(HandlerStep(s), t)
  {
    hide Bit, Without, Has;
    assert Accounted(s, t);
    ClearedStatus(s, s.raises[t]);
    assert Founded(s, orig, s.raises[t]);
  }

  lemma ClearFounded(s: System, orig: Hw, x: Source)
    requires Sound(s, orig) && (s.pc.ClearPm? || s.pc.ClearSts?) && Known(s.hw, x)
    ensures Founded(HandlerStep(s), orig, x)
  {
    hide Bit, Without, Has, Accounted, Passed, Behind, Waiting, Acked;
    var r := HandlerStep(s);
    assert Founded(s, orig, x);
    ClearedStatus(s, x);
    ClearWitness(s, r, x);
    if Behind(s, x, InHandler) { BehindMoved(s, r, x, InHandler, InHandler); }
    if Behind(s, x, InPending) { BehindMoved(s, r, x, InPending, InPending); }
    forall j | 0 <= j < |r.taken| && Has(r.taken[j], x) ensures Behind(r, x, InTaken(j)) {
      BehindMoved(s, r, x, InTaken(j), InTaken(j));
    }
    if s.pc.ClearPm? && x.Pm? {
      var y := Pm(s.pc.k, PWR_BIT);
      assert Founded(s, orig, y);
      ClearWitness(s, r, y);
      BehindSame(r, y, x);
    }
  }

  lemma BehindSame(r: System, y: Source, x: Source)
    requires Ok(r) && Behind(r, y, InHandler) && Same(y, x)
    ensures Behind(r, x, InHandler)
  {
    var t :| 0 <= t < |r.raises| && Same(r.raises[t], y) && r.place[t] == InHandler;
    assert Same(r.raises[t], x);
  }

  lemma ClearWitness(s: System, r: System, x: Source)
    requires Ok(s) && (s.pc.ClearPm? || s.pc.ClearSts?) && r == HandlerStep(s)
    ensures Waiting(s, x) && !Clears(s.pc, x) ==> Waiting(r, x)
    ensures Waiting(s, x) && Clears(s.pc, x) ==> Behind(r, x, InHandler) && Acked(r, x)
    ensures Acked(s, x) ==> Acked(r, x)
  {
    hide Without, Clears, Status, Enabled;
    if Waiting(s, x) {
      var t :| 0 <= t < |s.raises| && s.raises[t] == x && s.place[t] == InStatus;
      assert r.raises[t] == x && r.place[t] == if Clears(s.pc, x) then InHandler else InStatus;
    }
    if Acked(s, x) {
      var t :| 0 <= t < |s.raises| && s.raises[t] == x && s.place[t] != InStatus;
      assert r.raises[t] == x && r.place[t] != InStatus;
    }
  }

  lemma ClearKeeps(s: System, orig: Hw)
    requires Sound(s, orig) && (s.pc.ClearPm? || s.pc.ClearSts?)
    ensures Sound(HandlerStep(s), orig)
  {
    hide Accounted, Founded, Known, Without, Bit;
    var r := HandlerStep(s);
    forall t | 0 <= t < |r.raises| ensures Accounted(r, t) { ClearAccounted(s, orig, t); }
    forall x | Known(r.hw, x) ensures Founded(r, orig, x) { KnownKept(s, x); ClearFounded(s, orig, x); }
  }

  lemma KnownKept(s: System, x: Source)
    requires Ok(s)
    ensures Known(HandlerStep(s).hw, x) == Known(s.hw, x)
  {
    hide Without, Latch, Merge;
  }

  lemma WriteEnKeeps(s: System, orig: Hw)
    requires Sound(s, orig) && s.pc.WriteEn?
    ensures Sound(HandlerStep(s), orig)
  {
    hide Bit, Has, Without;
    var r := HandlerStep(s);
    forall t | 0 <= t < |r.raises| ensures Accounted(r, t) {
      assert Accounted(s, t);
      MaskedEnable(s, s.raises[t]);
    }
    forall x | Known(r.hw, x) ensures Founded(r, orig, x) {
      assert Founded(s, orig, x);
      MaskedEnable(s, x);
    }
  }

  // ----- every run -----

  lemma NextKeeps(s: System, orig: Hw, l: Label)
    requires Sound(s, orig)
    ensures Sound(Next(s, l), orig)
  {
    hide Sound;
    match l
    case Raise(x) => RaiseKeeps(s, orig, x);
    case Enter => EnterKeeps(s, orig);
    case Take => TakeKeeps(s, orig);
    case Handler =>
      match s.pc
      case Off =>
      case ReadPm(k) => ReadPmKeeps(s, orig);
      case ClearPm(k) => ClearKeeps(s, orig);
      case ReadSts(b, i) => ReadStsKeeps(s, orig);
      case ClearSts(b, i, v) => ClearKeeps(s, orig);
      case ReadEn(b, i, v) => ReadEnKeeps(s, orig);
      case WriteEn(b, i, v, e) => WriteEnKeeps(s, orig);
      case Report => ReportKeeps(s, orig);
  }

  /** Nothing latched, nothing taken, and every set status bit raised. */
  ghost predicate Initial(s: System)
  {
    && Ok(s) && s.pc.Off? && s.pending == NOTHING && s.taken == [] && s.mark == 0
    && (forall t :: 0 <= t < |s.raises| ==>
          s.place[t] == InStatus && Known(s.hw, s.raises[t]) && Status(s.hw, s.raises[t]))
    && (forall x :: Known(s.hw, x) && Status(s.hw, x) ==> Waiting(s, x))
  }

  lemma InitialSound(s: System)
    requires Initial(s)
    ensures Sound(s, s.hw)
  {
    hide Bit, Has;
    forall t | 0 <= t < |s.raises| ensures Accounted(s, t) { }
    forall x | Known(s.hw, x) ensures Founded(s, s.hw, x) { NothingHas(x); }
  }

  lemma {:induction false} RunSound(s: System, ls: seq<Label>)
    requires Initial(s)
    ensures Sound(Run(s, ls), s.hw)
  {
    hide Sound;
    if ls == [] {
      InitialSound(s);
    } else {
      RunSound(s, ls[..|ls| - 1]);
      NextKeeps(Run(s, ls[..|ls| - 1]), s.hw, ls[|ls| - 1]);
    }
  }

  /** Each raise is where its bit is set, and only reportable bits are acknowledged. */
  ghost predicate NothingLost(r: System)
    requires Ok(r)
  {
    forall t :: 0 <= t < |r.raises| ==>
      Known(r.hw, r.raises[t]) && Shown(r, t) && (r.place[t] != InStatus ==> Reportable(r.raises[t]))
  }

  /** Each set bit of the latch or of a taken record stands for a raise that is there. */
  ghost predicate NothingInvented(r: System)
    requires Ok(r)
  {
    && (forall x :: Known(r.hw, x) && Has(r.pending, x) ==> Behind(r, x, InPending))
    && (forall x, j :: Known(r.hw, x) && 0 <= j < |r.taken| && Has(r.taken[j], x) ==> Behind(r, x, InTaken(j)))
  }

  /** An enable bit is clear if it was clear or its event has been acknowledged. */
  ghost predicate ExactlyAckedMasked(r: System, orig: Hw)
    requires Ok(r) && Like(r.hw, orig)
  {
    forall x :: Known(r.hw, x) && x.Gpe? ==> (Enabled(r.hw, x) <==> Enabled(orig, x) && !Acked(r, x))
  }

  /** In every interleaving no raise is lost, doubled or invented; and between handler calls the
      enable bits are the original ones less those of acknowledged events. */
  lemma EveryRun(s: System, ls: seq<Label>)
    requires Initial(s)
    ensures Like(Run(s, ls).hw, s.hw) && NothingLost(Run(s, ls)) && NothingInvented(Run(s, ls))
    ensures Run(s, ls).pc.Off? ==> ExactlyAckedMasked(Run(s, ls), s.hw)
  {
    hide Bit, Has, Status;
    RunSound(s, ls);
    var r := Run(s, ls);
    forall t | 0 <= t < |r.raises|
      ensures Known(r.hw, r.raises[t]) && Shown(r, t) && (r.place[t] != InStatus ==> Reportable(r.raises[t]))
    {
      assert Accounted(r, t);
    }
    forall x | Known(r.hw, x) ensures Founded(r, s.hw, x) { }
    if r.pc.Off? {
      forall x | Known(r.hw, x) && x.Gpe? ensures Enabled(r.hw, x) <==> Enabled(s.hw, x) && !Acked(r, x) {
        AckedIsMasked(r, s.hw, x);
      }
    }
  }

  lemma AckedIsMasked(r: System, orig: Hw, x: Source)
    requires Sound(r, orig) && r.pc.Off? && Known(r.hw, x) && x.Gpe?
    ensures Enabled(r.hw, x) <==> Enabled(orig, x) && !Acked(r, x)
  {
    hide Bit, Has, Status;
    assert Founded(r, orig, x);
    if Acked(r, x) {
      var t :| 0 <= t < |r.raises| && r.raises[t] == x && r.place[t] != InStatus;
      assert Accounted(r, t);
    }
  }

  /** Once the handler has returned, every reportable bit raised before it was entered is latched
      or taken, so the next take delivers it. */
  lemma HandledIsDelivered(s: System, ls: seq<Label>, t: nat)
    requires Initial(s) && Run(s, ls).pc.Off? && t < Run(s, ls).mark && Reportable(Run(s, ls).raises[t])
    ensures var r := Run(s, ls);
            var n := Next(r, Take);
            && (r.place[t].InPending? || r.place[t].InTaken?)
            && n.place[t].InTaken? && n.place[t].j < |n.taken| && Has(n.taken[n.place[t].j], r.raises[t])
  {
    hide Bit, Has;
    RunSound(s, ls);
    var r := Run(s, ls);
    assert Accounted(r, t);
    TakeKeeps(r, s.hw);
    assert Accounted(Next(r, Take), t);
  }

  /** A taken raise stays in its record, and records stay as they are: nothing is delivered twice. */
  lemma TakenStays(s: System, l: Label, t: nat)
    requires Ok(s) && t < |s.raises| && s.place[t].InTaken?
    ensures var r := Next(s, l);
            t < |r.raises| && r.raises[t] == s.raises[t] && r.place[t] == s.place[t] && s.taken <= r.taken
  {
    hide Raised, Without, Latch, Merge;
  }

  // ----- the driver -----

  ghost predicate Reached(s: System, r: System)
    requires Ok(s)
  {
    exists ls: seq<Label> :: Run(s, ls) == r
  }

  lemma ReachedSelf(s: System)
    requires Ok(s)
    ensures Reached(s, s)
  {
    assert Run(s, []) == s;
  }

  lemma ReachedNext(s: System, r: System, l: Label)
    requires Ok(s) && Ok(r) && Reached(s, r)
    ensures Reached(s, Next(r, l))
  {
    hide Next;
    var ls: seq<Label> :| Run(s, ls) == r;
    assert (ls + [l])[..|ls|] == ls;
    assert Run(s, ls + [l]) == Next(r, l);
  }

  lemma PwrTest(a: Word)
    ensures And(a, 0x100) != 0 <==> Bit(a, PWR_BIT)
  {
    hide And, Bit;
    var x := And(a, 0x100);
    forall n: nat ensures Bit(x, n) <==> Bit(a, n) && n == PWR_BIT {
      BitAnd(a, 0x100, n);
      PwrMask(n);
    }
    BitZero(PWR_BIT);
    if !Bit(a, PWR_BIT) {
      forall n: nat ensures Bit(x, n) == Bit(0, n) { BitZero(n); }
      BitsDetermine(x, 0);
    }
  }

  class Driver {
    var hw: Hw
    var pending: Pending
    var active: bool
    ghost var sys: System

    /** `sys` is the machine of which `hw` and `pending` are the visible part. */
    ghost predicate Valid()
      reads this
    {
      Ok(sys) && sys.hw == hw && sys.pending == pending
    }

    /** Between two accesses: the hardware raises bits and the worker takes records, any number of times. */
    method Meanwhile(ghost start: System)
      requires Valid() && Ok(start) && Reached(start, sys)
      modifies this`hw, this`pending, this`sys
      ensures Valid() && Reached(start, sys) && Like(old(hw), hw)
      ensures sys.pc == old(sys.pc) && sys.local == old(sys.local) && sys.mark == old(sys.mark)
      ensures |old(sys.raises)| <= |sys.raises|
    {
      hide Reached, Raised, Moved;
      var n: int := *;
      while n > 0
        invariant Valid() && Reached(start, sys) && Like(old(hw), hw)
        invariant sys.pc == old(sys.pc) && sys.local == old(sys.local) && sys.mark == old(sys.mark)
        invariant |old(sys.raises)| <= |sys.raises|
      {
        var x: Source := *;
        var take: bool := *;
        if take {
          ReachedNext(start, sys, Take);
          sys := Next(sys, Take);
          pending := NOTHING;
        } else if Known(hw, x) {
          ReachedNext(start, sys, Raise(x));
          sys := Next(sys, Raise(x));
          hw := Raised(hw, x);
        }
        n := n - 1;
      }
    }

    /** One PM1 status register: note the button and clear its bit. */
    method ScanPm(k: nat, noted: bool, ghost start: System) returns (pwrbtn: bool)
      requires Valid() && Ok(start) && Reached(start, sys) && sys.pc == ReadPm(k) && sys.local == Pending(noted, 0, 0)
      modifies this`hw, this`pending, this`sys
      ensures Valid() && Reached(start, sys) && Like(old(hw), hw) && sys.mark == old(sys.mark)
      ensures sys.pc == AfterPm(hw, k) && sys.local == Pending(pwrbtn, 0, 0)
    {
      hide Reached, Bit, Without, Moved, And;
      pwrbtn := noted;
      Meanwhile(start);
      var a := hw.pm[k];
      PwrTest(a);
      ReachedNext(start, sys, Handler);
      sys := Next(sys, Handler);
      if And(a, 0x100) != 0 {
        pwrbtn := true;
        Meanwhile(start);
        ReachedNext(start, sys, Handler);
        sys := Next(sys, Handler);
        hw := PutPm(hw, k, Without(hw.pm[k], 0x100));
      }
    }

    /** The status bytes of one GPE block: note, clear and mask every set bit. */
    method ScanGpe(b: nat, ghost start: System) returns (gpe: nat)
      requires Valid() && Ok(start) && Reached(start, sys) && b < 2 && sys.pc == ReadSts(b, 0)
      requires (if b == 0 then sys.local.gpe0 else sys.local.gpe1) == 0
      modifies this`hw, this`pending, this`sys
      ensures Valid() && Reached(start, sys) && Like(old(hw), hw) && sys.mark == old(sys.mark)
      ensures sys.pc == if b == 0 then ReadSts(1, 0) else Report
      ensures sys.local == if b == 0 then old(sys.local).(gpe0 := gpe) else old(sys.local).(gpe1 := gpe)
    {
      hide Reached, Bit, Without, Moved, And, Or, Shl;
      gpe := 0;
      var half := |hw.sts[b]|;
      var i := 0;
      while i < half
        invariant Valid() && Reached(start, sys) && Like(old(hw), hw) && sys.mark == old(sys.mark)
        invariant i <= half && sys.pc == ReadSts(b, i)
        invariant sys.local == if b == 0 then old(sys.local).(gpe0 := gpe) else old(sys.local).(gpe1 := gpe)
      {
        Meanwhile(start);
        var v := hw.sts[b][i];
        ReachedNext(start, sys, Handler);
        sys := Next(sys, Handler);
        if v != 0 {
          gpe := Or(gpe, Shl(v, 8 * i));
          AckGpe(b, i, v, start);
        }
        i := i + 1;
      }
      ReachedNext(start, sys, Handler);
      sys := Next(sys, Handler);
    }

    /** Clear the status bits `v` of one byte, then its enable bits. */
    method AckGpe(b: nat, i: nat, v: Byte, ghost start: System)
      requires Valid() && Ok(start) && Reached(start, sys) && sys.pc == ClearSts(b, i, v)
      modifies this`hw, this`pending, this`sys
      ensures Valid() && Reached(start, sys) && Like(old(hw), hw) && sys.mark == old(sys.mark)
      ensures sys.pc == ReadSts(b, i + 1) && sys.local == old(sys.local)
    {
      hide Reached, Bit, Without, Moved;
      Meanwhile(start);
      ReachedNext(start, sys, Handler);
      sys := Next(sys, Handler);
      hw := PutSts(hw, b, i, Without(hw.sts[b][i], v));
      Meanwhile(start);
      var e := hw.en[b][i];
      ReachedNext(start, sys, Handler);
      sys := Next(sys, Handler);
      Meanwhile(start);
      ReachedNext(start, sys, Handler);
      sys := Next(sys, Handler);
      hw := PutEn(hw, b, i, Without(e, v));
    }

    /** The interrupt handler is a path of the machine from one idle state to the next, and it
        covers every bit raised before the call. */
    method SciHandler()
      requires Valid() && sys.pc.Off?
      modifies this`hw, this`pending, this`sys
      ensures Valid() && sys.pc.Off? && Reached(old(sys), sys)
      ensures if active then |old(sys.raises)| <= sys.mark else sys == old(sys)
    {
      hide Reached, Bit, Or, Moved;
      ghost var start := sys;
      ReachedSelf(sys);
      if !active { return; }
      ReachedNext(start, sys, Enter);
      sys := Next(sys, Enter);
      var pwrbtn := ScanPm(0, false, start);
      if |hw.pm| > 1 {
        pwrbtn := ScanPm(1, pwrbtn, start);
      }
      var gpe0 := ScanGpe(0, start);
      var gpe1 := ScanGpe(1, start);
      Meanwhile(start);
      pending := Merge(pending, Pending(pwrbtn, gpe0, gpe1));
      ReachedNext(start, sys, Handler);
      sys := Next(sys, Handler);
    }

    method AcpiSciTakePending() returns (out: Pending)
      requires Valid()
      modifies this`pending, this`sys
      ensures Valid() && out == old(pending) && pending == NOTHING && sys == Next(old(sys), Take)
    {
      out := pending;
      pending := NOTHING;
      sys := Next(sys, Take);
    }
  }
}
