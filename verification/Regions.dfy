/** OperationRegion access and the bit-field engine on top of it.

    A region space is a byte store reached in little-endian units. `FieldRead` and
    `FieldWrite` follow the unit-splitting loops; the lemmas say that, bit by bit,
    they read and replace one slice of the flat store. */
module Regions {
  import opened Bits
  import opened PkgLength
  import opened Names

  datatype Space = SystemMemory | SystemIO | EmbeddedControl | Unserved

  /** The bytes behind each served space. The direct map carries seven bytes past its
      nominal end, because a wide access may start just below it. */
  datatype World = World(mem: seq<Byte>, io: seq<Byte>, ec: seq<Byte>, ecPresent: bool)

  const DIRECT_MAP: nat := 0x4000_0000
  const IO_PORTS: nat := 0x1_0000

  predicate WorldOk(w: World)
  {
    |w.mem| == DIRECT_MAP + 7 && |w.io| == IO_PORTS + 3 && |w.ec| == 256
  }

  type AccessBytes = x: nat | x == 0 || x == 1 || x == 2 || x == 4 || x == 8

  datatype RegionInfo = RegionInfo(space: Space, base: U64)
  datatype FieldInfo = FieldInfo(region: Path, bitOffset: nat, bitWidth: nat, accessBytes: AccessBytes)

  // ----- one unit -----

  predicate IsUnit(n: nat) { n == 1 || n == 2 || n == 4 || n == 8 }

  function Put(s: seq<Byte>, at: nat, b: seq<Byte>): (r: seq<Byte>)
    requires at + |b| <= |s|
    ensures |r| == |s|
  {
    s[..at] + b + s[at + |b|..]
  }

  /** Byte `i` of an EmbeddedControl access goes to address `(address + i) mod 256`. */
  function EcAssemble(ec: seq<Byte>, address: nat, i: nat, n: nat): (r: nat)
    requires |ec| == 256 && i <= n
    decreases n - i
  {
    if i == n then 0 else Or(Shl(ec[(address + i) % 256], 8 * i), EcAssemble(ec, address, i + 1, n))
  }

  function EcScatter(ec: seq<Byte>, address: nat, i: nat, n: nat, v: nat): (r: seq<Byte>)
    requires |ec| == 256 && i <= n
    ensures |r| == 256
    decreases n - i
  {
    if i == n then ec
    else EcScatter(ec[(address + i) % 256 := And(Shr(v, 8 * i), 0xFF) % 256], address, i + 1, n, v)
  }

  predicate EcRange(w: World, address: nat, n: nat)
  {
    w.ecPresent && n != 0 && n <= 8 && (address + n) % TWO64 <= 0x100
  }

  function ReadUnit(w: World, space: Space, addr: U64, n: nat): (r: Option<nat>)
    requires WorldOk(w) && IsUnit(n)
  {
    match space
    case SystemMemory => if addr >= DIRECT_MAP then None else Some(Le(w.mem[addr..addr + n]))
    case SystemIO => var port := addr % IO_PORTS; Some(Le(w.io[port..port + Min(n, 4)]))
    case EmbeddedControl => if EcRange(w, addr, n) then Some(EcAssemble(w.ec, addr, 0, n)) else None
    case Unserved => None
  }

  function WriteUnit(w: World, space: Space, addr: U64, n: nat, v: nat): (r: Option<World>)
    requires WorldOk(w) && IsUnit(n)
    ensures r.Some? ==> WorldOk(r.value)
  {
    match space
    case SystemMemory => if addr >= DIRECT_MAP then None else Some(w.(mem := Put(w.mem, addr, ToLe(v, n))))
    case SystemIO =>
      var port := addr % IO_PORTS;
      Some(w.(io := Put(w.io, port, ToLe(v, Min(n, 4)))))
    case EmbeddedControl => if EcRange(w, addr, n) then Some(w.(ec := EcScatter(w.ec, addr, 0, n, v))) else None
    case Unserved => None
  }

  // ----- the field loops -----

  function Acc(f: FieldInfo): (n: nat)
    ensures IsUnit(n)
  {
    if f.accessBytes == 0 then 1 else f.accessBytes
  }

  /** Where in its unit a bit of the region lies. */
  function Lo(bit: nat, acc: nat): (r: nat)
    requires acc > 0
    ensures r < 8 * acc
  {
    bit % (8 * acc)
  }

  function UnitAddr(base: U64, bit: nat, acc: nat): (a: U64)
    requires acc > 0
  {
    (base + bit / (8 * acc) * acc) % TWO64
  }

  /** Left shift of a 64-bit word. */
  function Shl64(x: nat, n: nat): (r: U64)
  {
    LowBound(Shl(x, n), 64);
    Pow2Values();
    Low(Shl(x, n), 64)
  }

  lemma OrBound(a: U64, b: U64)
    ensures Or(a, b) < TWO64
  {
    Pow2Values();
    OpsBound(a, b, 64);
  }

  function Take(bit: nat, acc: nat, left: nat): (n: nat)
    requires acc > 0
    ensures n <= left && (left > 0 ==> n > 0) && Lo(bit, acc) + n <= 8 * acc
  {
    Min(8 * acc - Lo(bit, acc), left)
  }

  /** The read loop from `got` bits on. */
  function ReadFrom(w: World, space: Space, base: U64, acc: nat, width: nat, got: nat, bit: nat,
                    result: U64): (r: Option<U64>)
    requires WorldOk(w) && IsUnit(acc)
    decreases width - got
  {
    if got >= width then Some(result)
    else match ReadUnit(w, space, UnitAddr(base, bit, acc), acc)
      case None => None
      case Some(raw) =>
        var take := Take(bit, acc, width - got);
        var piece := Shl64(And(Shr(raw, Lo(bit, acc)), Mask(take)), got);
        OrBound(result, piece);
        ReadFrom(w, space, base, acc, width, got + take, (bit + take) % 0x1_0000_0000, Or(result, piece))
  }

  /** The bytes one step of the write loop puts back into a unit. */
  function Merge(raw: nat, v: nat, done: nat, lo: nat, put: nat): (r: nat)
  {
    Or(And(raw, Inv(Shl64(Mask(put), lo), 64)), Shl64(And(Shr(v, done), Mask(put)), lo))
  }

  /** The write loop from `done` bits on; a unit that cannot be read is taken as zero. */
  function WriteFrom(w: World, space: Space, base: U64, acc: nat, width: nat, v: nat, done: nat, bit: nat): (r: World)
    requires WorldOk(w) && IsUnit(acc)
    ensures WorldOk(r)
    decreases width - done
  {
    if done >= width then w
    else
      var addr := UnitAddr(base, bit, acc);
      var put := Take(bit, acc, width - done);
      var cur := if put == 8 * acc then Some(0) else ReadUnit(w, space, addr, acc);
      var raw := Merge(if cur.Some? then cur.value else 0, v, done, Lo(bit, acc), put);
      match WriteUnit(w, space, addr, acc, raw)
      case None => w
      case Some(w') => WriteFrom(w', space, base, acc, width, v, done + put, (bit + put) % 0x1_0000_0000)
  }

  function FieldRead(regions: map<Path, RegionInfo>, f: FieldInfo, w: World): (r: Option<U64>)
    requires WorldOk(w)
  {
    if f.region !in regions || f.bitWidth == 0 || f.bitWidth > 64 then None
    else ReadFrom(w, regions[f.region].space, regions[f.region].base, Acc(f), f.bitWidth, 0, f.bitOffset, 0)
  }

  function FieldWrite(regions: map<Path, RegionInfo>, f: FieldInfo, v: nat, w: World): (r: World)
    requires WorldOk(w)
    ensures WorldOk(r)
  {
    if f.region !in regions || f.bitWidth == 0 || f.bitWidth > 64 then w
    else WriteFrom(w, regions[f.region].space, regions[f.region].base, Acc(f), f.bitWidth, v, 0, f.bitOffset)
  }

  /** The region spaces as the driver sees them: one shared, updatable world. */
  class Bus {
    var world: World

    constructor (w: World)
      requires WorldOk(w)
      ensures world == w
    {
      world := w;
    }

    /** Read a FieldUnit: split into access-sized units and assemble up to 64 bits. */
    method ReadField(regions: map<Path, RegionInfo>, f: FieldInfo) returns (ok: bool, out: U64)
      requires WorldOk(world)
      ensures ok == FieldRead(regions, f, world).Some?
      ensures ok ==> FieldRead(regions, f, world) == Some(out)
    {
      hide ReadUnit, UnitAddr, Take, Shl64, And, Shr, Mask, Or;
      ok, out := false, 0;
      if f.region !in regions || f.bitWidth == 0 || f.bitWidth > 64 { return; }
      var ri := regions[f.region];
      var acc := Acc(f);
      var got := 0;
      var bit := f.bitOffset;
      var result: U64 := 0;
      while got < f.bitWidth
        invariant got <= f.bitWidth
        invariant FieldRead(regions, f, world) == ReadFrom(world, ri.space, ri.base, acc, f.bitWidth, got, bit, result)
      {
        var raw := ReadUnit(world, ri.space, UnitAddr(ri.base, bit, acc), acc);
        if raw.None? { return; }
        var take := Take(bit, acc, f.bitWidth - got);
        var piece := Shl64(And(Shr(raw.value, Lo(bit, acc)), Mask(take)), got);
        OrBound(result, piece);
        result := Or(result, piece);
        got := got + take;
        bit := (bit + take) % 0x1_0000_0000;
      }
      return true, result;
    }

    /** Write a FieldUnit: read-modify-write on partial units, whole units written outright. */
    method WriteField(regions: map<Path, RegionInfo>, f: FieldInfo, v: nat)
      requires WorldOk(world)
      modifies this
      ensures WorldOk(world)
      ensures world == FieldWrite(regions, f, v, old(world))
    {
      hide ReadUnit, WriteUnit, UnitAddr, Take, Merge, Lo, WriteFrom;
      if f.region !in regions || f.bitWidth == 0 || f.bitWidth > 64 { return; }
      var ri := regions[f.region];
      var acc := Acc(f);
      var done := 0;
      var bit := f.bitOffset;
      while done < f.bitWidth
        invariant done <= f.bitWidth && WorldOk(world)
        invariant FieldWrite(regions, f, v, old(world)) ==
                  WriteFrom(world, ri.space, ri.base, acc, f.bitWidth, v, done, bit)
      {
        var addr := UnitAddr(ri.base, bit, acc);
        var put := Take(bit, acc, f.bitWidth - done);
        var raw := 0;
        if put != 8 * acc {
          var cur := ReadUnit(world, ri.space, addr, acc);
          if cur.Some? { raw := cur.value; }
        }
        WriteOnce(world, ri.space, ri.base, acc, f.bitWidth, v, done, bit);
        raw := Merge(raw, v, done, Lo(bit, acc), put);
        var w' := WriteUnit(world, ri.space, addr, acc, raw);
        if w'.None? { return; }
        world := w'.value;
        done := done + put;
        bit := (bit + put) % 0x1_0000_0000;
      }
      WriteEnd(world, ri.space, ri.base, acc, f.bitWidth, v, done, bit);
    }
  }

  /** The unit contents a write step merges into: read back unless the whole unit is replaced. */
  function Background(w: World, space: Space, addr: U64, acc: nat, put: nat): (raw: nat)
    requires WorldOk(w) && IsUnit(acc)
  {
    var cur := if put == 8 * acc then Some(0) else ReadUnit(w, space, addr, acc);
    if cur.Some? then cur.value else 0
  }

  lemma WriteOnce(w: World, space: Space, base: U64, acc: nat, width: nat, v: nat, done: nat, bit: nat)
    requires WorldOk(w) && IsUnit(acc) && done < width
    ensures var addr := UnitAddr(base, bit, acc);
            var put := Take(bit, acc, width - done);
            var raw := Merge(Background(w, space, addr, acc, put), v, done, Lo(bit, acc), put);
            var x := WriteUnit(w, space, addr, acc, raw);
            WriteFrom(w, space, base, acc, width, v, done, bit) ==
            if x.None? then w
            else WriteFrom(x.value, space, base, acc, width, v, done + put, (bit + put) % 0x1_0000_0000)
  {
    hide ReadUnit, WriteUnit, UnitAddr, Take, Merge, Lo;
  }

  lemma WriteEnd(w: World, space: Space, base: U64, acc: nat, width: nat, v: nat, done: nat, bit: nat)
    requires WorldOk(w) && IsUnit(acc) && done >= width
    ensures WriteFrom(w, space, base, acc, width, v, done, bit) == w
  {
  }

  // ----- flat stores -----

  function Store(w: World, space: Space): (s: seq<Byte>)
  {
    match space
    case SystemMemory => w.mem
    case SystemIO => w.io
    case EmbeddedControl => w.ec
    case Unserved => []
  }

  function WithStore(w: World, space: Space, s: seq<Byte>): (r: World)
  {
    match space
    case SystemMemory => w.(mem := s)
    case SystemIO => w.(io := s)
    case EmbeddedControl => w.(ec := s)
    case Unserved => w
  }

  /** A unit that starts inside a little-endian store. */
  predicate Flat(w: World, space: Space, addr: nat, n: nat)
  {
    match space
    case SystemMemory => addr < DIRECT_MAP
    case SystemIO => addr < IO_PORTS
    case EmbeddedControl => w.ecPresent && addr + n <= 0x100
    case Unserved => false
  }

  /** How many of a unit's bytes one access moves: a port access moves at most four. */
  function Moved(space: Space, n: nat): (m: nat)
    ensures m <= n && (n > 0 ==> m > 0)
  {
    if space == SystemIO then Min(n, 4) else n
  }

  /** The access reaches this bit of its unit. */
  predicate Served(space: Space, acc: nat, bit: nat)
    requires acc > 0
  {
    Lo(bit, acc) < 8 * Moved(space, acc)
  }

  lemma EcAssembleStep(ec: seq<Byte>, address: nat, i: nat, n: nat)
    requires |ec| == 256 && i <= n && address + n <= 256
    ensures EcAssemble(ec, address, i, n) ==
            if i == n then 0 else Or(Shl(ec[address + i], 8 * i), EcAssemble(ec, address, i + 1, n))
  {
    hide Or, Shl;
  }

  lemma {:induction false} EcWindowBit(ec: seq<Byte>, address: nat, i: nat, n: nat, k: nat)
    requires |ec| == 256 && i <= n && address + n <= 256
    ensures Bit(EcAssemble(ec, address, i, n), k) <==> 8 * i <= k < 8 * n && Bit(ec[address + k / 8], k % 8)
    decreases n - i
  {
    hide Bit, Shl, Or, EcAssemble;
    EcAssembleStep(ec, address, i, n);
    if i == n {
      BitZero(k);
    } else {
      var b := ec[address + i];
      BitOr(Shl(b, 8 * i), EcAssemble(ec, address, i + 1, n), k);
      BitShl(b, 8 * i, k);
      EcWindowBit(ec, address, i + 1, n, k);
      if k >= 8 * i + 8 {
        Pow2Values();
        HighBitsClear(b, 8, k - 8 * i);
      }
    }
  }

  /** Assembling byte transactions little-endian is reading the window as one number. */
  lemma EcAssembleIsLe(ec: seq<Byte>, address: nat, n: nat)
    requires |ec| == 256 && address + n <= 256
    ensures EcAssemble(ec, address, 0, n) == Le(ec[address..address + n])
  {
    var s := ec[address..address + n];
    forall k: nat ensures Bit(EcAssemble(ec, address, 0, n), k) == Bit(Le(s), k) {
      EcWindowBit(ec, address, 0, n, k);
      BitLe(s, k);
    }
    BitsDetermine(EcAssemble(ec, address, 0, n), Le(s));
  }

  lemma {:induction false} EcScatterAt(ec: seq<Byte>, address: nat, i: nat, n: nat, v: nat, j: nat)
    requires |ec| == 256 && i <= n && address + n <= 256 && j < 256
    ensures EcScatter(ec, address, i, n, v)[j] ==
            if address + i <= j < address + n then Shr(v, 8 * (j - address)) % 256 else ec[j]
    decreases n - i
  {
    hide And, Shr, Shl;
    if i < n {
      LowBits(Shr(v, 8 * i), 8, 0xFF, 256) by { Pow2Values(); assert Mask(8) == 255; }
      EcScatterAt(ec[address + i := Shr(v, 8 * i) % 256], address, i + 1, n, v, j);
    }
  }

  lemma {:induction false} ToLeAt(v: nat, n: nat, i: nat)
    requires i < n
    ensures ToLe(v, n)[i] == Shr(v, 8 * i) % 256
    decreases n
  {
    hide Shr, Shl, Low;
    if i == 0 {
      ShrNone(v);
    } else {
      ToLeAt(v / 256, n - 1, i - 1);
      ShrCompose(v, 8, 8 * (i - 1));
      ByteShifts(v);
    }
  }

  lemma ShrNone(x: nat)
    ensures Shr(x, 0) == x
  {
  }

  lemma {:induction false} ShrCompose(x: nat, a: nat, b: nat)
    ensures Shr(x, a + b) == Shr(Shr(x, a), b)
    decreases a
  {
    if a > 0 { ShrCompose(x / 2, a - 1, b); }
  }

  lemma EcScatterIsPut(ec: seq<Byte>, address: nat, n: nat, v: nat)
    requires |ec| == 256 && address + n <= 256
    ensures EcScatter(ec, address, 0, n, v) == Put(ec, address, ToLe(v, n))
  {
    forall j | 0 <= j < 256
      ensures EcScatter(ec, address, 0, n, v)[j] == Put(ec, address, ToLe(v, n))[j]
    {
      EcScatterAt(ec, address, 0, n, v, j);
      if address <= j < address + n { ToLeAt(v, n, j - address); }
    }
  }

  /** A flat unit reads and writes as a window of its store, whatever the space. */
  lemma FlatRead(w: World, space: Space, addr: U64, n: nat)
    requires WorldOk(w) && IsUnit(n) && Flat(w, space, addr, n)
    ensures var m := Moved(space, n);
            addr + m <= |Store(w, space)| && ReadUnit(w, space, addr, n) == Some(Le(Store(w, space)[addr..addr + m]))
  {
    hide Le, EcAssemble;
    if space == EmbeddedControl { EcAssembleIsLe(w.ec, addr, n); }
  }

  lemma FlatWrite(w: World, space: Space, addr: U64, n: nat, v: nat)
    requires WorldOk(w) && IsUnit(n) && Flat(w, space, addr, n)
    ensures var m := Moved(space, n);
            && addr + m <= |Store(w, space)|
            && WriteUnit(w, space, addr, n, v) == Some(WithStore(w, space, Put(Store(w, space), addr, ToLe(v, m))))
  {
    hide Le, EcScatter, ToLe, Put;
    if space == EmbeddedControl { EcScatterIsPut(w.ec, addr, n, v); }
  }

  /** Bit `k` of the store as one flat number. */
  predicate StoreBit(s: seq<Byte>, k: nat) { Bit(Le(s), k) }

  lemma WindowBit(s: seq<Byte>, addr: nat, n: nat, j: nat)
    requires addr + n <= |s|
    ensures Bit(Le(s[addr..addr + n]), j) <==> j < 8 * n && StoreBit(s, 8 * addr + j)
  {
    BitLe(s[addr..addr + n], j);
    BitLe(s, 8 * addr + j);
    assert (8 * addr + j) / 8 == addr + j / 8 && (8 * addr + j) % 8 == j % 8;
  }

  lemma PutBit(s: seq<Byte>, addr: nat, n: nat, v: nat, k: nat)
    requires addr + n <= |s|
    ensures StoreBit(Put(s, addr, ToLe(v, n)), k) <==>
              if 8 * addr <= k < 8 * (addr + n) then Bit(v, k - 8 * addr) else StoreBit(s, k)
  {
    var t := Put(s, addr, ToLe(v, n));
    BitLe(t, k);
    BitLe(s, k);
    if 8 * addr <= k < 8 * (addr + n) {
      var j := k - 8 * addr;
      BitLe(ToLe(v, n), j);
      ToLeRoundTrip(v, n);
      BitLow(v, 8 * n, j);
      assert k / 8 == addr + j / 8 && k % 8 == j % 8;
      assert t[k / 8] == ToLe(v, n)[j / 8];
    } else if k < 8 * |s| {
      assert t[k / 8] == s[k / 8];
    }
  }

  // ----- what the loops compute -----

  /** Every unit the loops touch between bits `from` and `to` of the field's region is flat. */
  ghost predicate Covered(w: World, space: Space, base: U64, acc: nat, from: nat, to: nat)
    requires IsUnit(acc)
  {
    && to <= 0x1_0000_0000
    && forall bit :: from <= bit < to ==>
         base + bit / (8 * acc) * acc < TWO64 && Flat(w, space, UnitAddr(base, bit, acc), acc)
  }

  lemma CoveredAt(w: World, space: Space, base: U64, acc: nat, from: nat, to: nat, bit: nat)
    requires IsUnit(acc) && Covered(w, space, base, acc, from, to)
    ensures to <= 0x1_0000_0000
    ensures from <= bit < to ==> base + bit / (8 * acc) * acc < TWO64 && Flat(w, space, UnitAddr(base, bit, acc), acc)
  {
  }

  /** A later bit of the same unit. */
  lemma LoStep(bit: nat, acc: nat, d: nat)
    requires IsUnit(acc) && Lo(bit, acc) + d < 8 * acc
    ensures Lo(bit + d, acc) == Lo(bit, acc) + d
  {
    var u := 8 * acc;
    ModUnique(bit + d, u, bit / u, bit % u + d);
  }

  lemma UnitOf(base: U64, bit: nat, acc: nat)
    requires IsUnit(acc) && base + bit / (8 * acc) * acc < TWO64
    ensures 8 * UnitAddr(base, bit, acc) + Lo(bit, acc) == 8 * base + bit
  {
  }

  /** The bits one read step adds are those of the next `take` bits of the store that were moved. */
  lemma ReadStepBit(raw: nat, s: seq<Byte>, at: nat, lo: nat, m: nat, take: nat, got: nat, i: nat)
    requires at + m <= |s| && raw == Le(s[at..at + m]) && got + take <= 64
    ensures Bit(Shl64(And(Shr(raw, lo), Mask(take)), got), i) <==>
              got <= i < got + take && lo + (i - got) < 8 * m && StoreBit(s, 8 * at + lo + (i - got))
  {
    hide Bit, Shl, And, Shr, Mask, Le, Low;
    var x := And(Shr(raw, lo), Mask(take));
    BitLow(Shl(x, got), 64, i);
    BitShl(x, got, i);
    if i >= got {
      BitAnd(Shr(raw, lo), Mask(take), i - got);
      BitShr(raw, lo, i - got);
      BitMask(take, i - got);
      WindowBit(s, at, m, i - got + lo);
    }
  }

  /** Invariant of the read loop: the served bits below `got` are already the store's. */
  ghost predicate ReadSoFar(s: seq<Byte>, space: Space, acc: nat, base: nat, off: nat, got: nat, result: nat)
    requires acc > 0
  {
    forall i: nat :: Bit(result, i) <==> i < got && Served(space, acc, off + i) && StoreBit(s, 8 * base + off + i)
  }

  lemma ReadNothing(s: seq<Byte>, space: Space, acc: nat, base: nat, off: nat)
    requires acc > 0
    ensures ReadSoFar(s, space, acc, base, off, 0, 0)
  {
    forall i: nat ensures !Bit(0, i) { BitZero(i); }
  }

  lemma ReadStep(s: seq<Byte>, space: Space, acc: nat, base: nat, off: nat, got: nat, result: nat, raw: nat, at: nat,
                 take: nat)
    requires IsUnit(acc) && at + Moved(space, acc) <= |s| && raw == Le(s[at..at + Moved(space, acc)])
    requires Lo(off + got, acc) + take <= 8 * acc && got + take <= 64
    requires 8 * at + Lo(off + got, acc) == 8 * base + off + got
    requires ReadSoFar(s, space, acc, base, off, got, result)
    ensures ReadSoFar(s, space, acc, base, off, got + take,
                      Or(result, Shl64(And(Shr(raw, Lo(off + got, acc)), Mask(take)), got)))
  {
    hide Bit, Or, Shl64, And, Shr, Mask, Le, StoreBit, Lo, Moved;
    var lo := Lo(off + got, acc);
    var piece := Shl64(And(Shr(raw, lo), Mask(take)), got);
    forall i: nat
      ensures Bit(Or(result, piece), i) <==>
                i < got + take && Served(space, acc, off + i) && StoreBit(s, 8 * base + off + i)
    {
      BitOr(result, piece, i);
      ReadStepBit(raw, s, at, lo, Moved(space, acc), take, got, i);
      if got <= i < got + take { LoStep(off + got, acc, i - got); }
    }
  }

  lemma {:induction false} ReadLoop(w: World, space: Space, base: U64, acc: nat, width: nat, off: nat, got: nat,
                                    result: U64)
    requires WorldOk(w) && IsUnit(acc) && got <= width <= 64
    requires Covered(w, space, base, acc, off, off + width)
    requires ReadSoFar(Store(w, space), space, acc, base, off, got, result)
    ensures var r := ReadFrom(w, space, base, acc, width, got, (off + got) % 0x1_0000_0000, result);
            r.Some? && ReadSoFar(Store(w, space), space, acc, base, off, width, r.value)
    decreases width - got
  {
    hide ReadUnit, UnitAddr, ReadSoFar, Flat, Store, Shl64, And, Shr, Mask, Or, Le, Covered, Lo, Take, Moved;
    CoveredAt(w, space, base, acc, off, off + width, off);
    if got < width {
      var bit := off + got;
      assert bit % 0x1_0000_0000 == bit;
      CoveredAt(w, space, base, acc, off, off + width, bit);
      UnitOf(base, bit, acc);
      var at := UnitAddr(base, bit, acc);
      FlatRead(w, space, at, acc);
      var take := Take(bit, acc, width - got);
      var raw := Le(Store(w, space)[at..at + Moved(space, acc)]);
      ReadStep(Store(w, space), space, acc, base, off, got, result, raw, at, take);
      var piece := Shl64(And(Shr(raw, Lo(bit, acc)), Mask(take)), got);
      OrBound(result, piece);
      ReadLoop(w, space, base, acc, width, off, got + take, Or(result, piece));
    }
  }

  /** The flat slice of `width` bits starting at bit `start` of a store. */
  function Slice(s: seq<Byte>, start: nat, width: nat): (r: nat) { Low(Shr(Le(s), start), width) }

  /** `r` is made of `width` bits of the store. */
  ghost predicate SliceOf(s: seq<Byte>, start: nat, width: nat, r: nat)
  {
    forall i: nat :: Bit(r, i) <==> i < width && StoreBit(s, start + i)
  }

  lemma SliceBits(s: seq<Byte>, start: nat, width: nat, r: nat)
    ensures r == Slice(s, start, width) <==> SliceOf(s, start, width, r)
  {
    hide Bit, Low, Shr, Le;
    forall i: nat ensures Bit(Slice(s, start, width), i) <==> i < width && StoreBit(s, start + i) {
      BitLow(Shr(Le(s), start), width, i);
      BitShr(Le(s), start, i);
    }
    if SliceOf(s, start, width, r) { BitsDetermine(r, Slice(s, start, width)); }
  }

  /** The access reaches every bit from `from` to `to` of the region. */
  ghost predicate AllServed(space: Space, acc: nat, from: nat, to: nat)
    requires acc > 0
  {
    forall bit :: from <= bit < to ==> Served(space, acc, bit)
  }

  /** The field is known, and every unit it touches is reachable. */
  ghost predicate Reached(regions: map<Path, RegionInfo>, f: FieldInfo, w: World)
  {
    && f.region in regions && 1 <= f.bitWidth <= 64
    && Covered(w, regions[f.region].space, regions[f.region].base, Acc(f), f.bitOffset, f.bitOffset + f.bitWidth)
  }

  /** Every bit of the field is reachable as well. */
  ghost predicate Usable(regions: map<Path, RegionInfo>, f: FieldInfo, w: World)
  {
    Reached(regions, f, w) && AllServed(regions[f.region].space, Acc(f), f.bitOffset, f.bitOffset + f.bitWidth)
  }

  function FieldStart(regions: map<Path, RegionInfo>, f: FieldInfo): (k: nat)
    requires f.region in regions
  {
    8 * regions[f.region].base + f.bitOffset
  }

  /** What a field read returns, bit by bit: the served bits of its region, zero for the others. */
  lemma FieldReadBits(regions: map<Path, RegionInfo>, f: FieldInfo, w: World)
    requires WorldOk(w) && Reached(regions, f, w)
    ensures var ri := regions[f.region];
            && FieldRead(regions, f, w).Some?
            && ReadSoFar(Store(w, ri.space), ri.space, Acc(f), ri.base, f.bitOffset, f.bitWidth,
               FieldRead(regions, f, w).value)
  {
    hide ReadFrom, ReadSoFar, Store, Covered;
    var ri := regions[f.region];
    ReadNothing(Store(w, ri.space), ri.space, Acc(f), ri.base, f.bitOffset);
    CoveredAt(w, ri.space, ri.base, Acc(f), f.bitOffset, f.bitOffset + f.bitWidth, f.bitOffset);
    assert f.bitOffset % 0x1_0000_0000 == f.bitOffset;
    ReadLoop(w, ri.space, ri.base, Acc(f), f.bitWidth, f.bitOffset, 0, 0);
  }

  /** A field read is the flat bit slice of its region. */
  lemma FieldReadIsSlice(regions: map<Path, RegionInfo>, f: FieldInfo, w: World)
    requires WorldOk(w) && Usable(regions, f, w)
    ensures FieldRead(regions, f, w) ==
            Some(Slice(Store(w, regions[f.region].space), FieldStart(regions, f), f.bitWidth))
  {
    hide Bit, FieldRead, Slice, StoreBit, Store, Covered, Served;
    var ri := regions[f.region];
    FieldReadBits(regions, f, w);
    SliceBits(Store(w, ri.space), FieldStart(regions, f), f.bitWidth, FieldRead(regions, f, w).value);
  }

  /** So the declared access size does not matter. */
  lemma AccessSizeIrrelevant(regions: map<Path, RegionInfo>, f: FieldInfo, g: FieldInfo, w: World)
    requires WorldOk(w) && Usable(regions, f, w) && Usable(regions, g, w)
    requires g == f.(accessBytes := g.accessBytes)
    ensures FieldRead(regions, f, w) == FieldRead(regions, g, w)
  {
    hide FieldRead, Slice, Store, Usable;
    FieldReadIsSlice(regions, f, w);
    FieldReadIsSlice(regions, g, w);
  }

  // ----- writing -----

  /** One write step keeps the unit's other bits and puts `put` bits of `v` at `lo`. */
  lemma MergeBit(raw: nat, v: nat, done: nat, lo: nat, put: nat, j: nat)
    requires lo + put <= 64 && j < 64
    ensures Bit(Merge(raw, v, done, lo, put), j) <==>
              if lo <= j < lo + put then Bit(v, done + (j - lo)) else Bit(raw, j)
  {
    hide Bit, Shl, And, Or, Shr, Mask, Low, Inv;
    var hole := Shl64(Mask(put), lo);
    var x := And(Shr(v, done), Mask(put));
    BitOr(And(raw, Inv(hole, 64)), Shl64(x, lo), j);
    BitAnd(raw, Inv(hole, 64), j);
    BitInv(hole, 64, j);
    BitLow(Shl(Mask(put), lo), 64, j);
    BitShl(Mask(put), lo, j);
    BitLow(Shl(x, lo), 64, j);
    BitShl(x, lo, j);
    if j >= lo {
      BitMask(put, j - lo);
      BitAnd(Shr(v, done), Mask(put), j - lo);
      BitShr(v, done, j - lo);
    }
  }

  /** `t` is `s` with the bits `start + from .. start + to` taken from bits `from .. to` of `v`. */
  ghost predicate Replaced(s: seq<Byte>, t: seq<Byte>, start: nat, from: nat, to: nat, v: nat)
  {
    && |t| == |s|
    && forall k: nat :: StoreBit(t, k) <==>
         if start + from <= k < start + to then Bit(v, k - start) else StoreBit(s, k)
  }

  lemma ReplacedBit(s: seq<Byte>, t: seq<Byte>, start: nat, from: nat, to: nat, v: nat, k: nat)
    requires Replaced(s, t, start, from, to, v)
    ensures StoreBit(t, k) <==> if start + from <= k < start + to then Bit(v, k - start) else StoreBit(s, k)
  {
  }

  /** The same for the served bits alone: the others stay as they were. */
  ghost predicate Written(s: seq<Byte>, t: seq<Byte>, space: Space, acc: nat, base: nat, off: nat,
                          from: nat, to: nat, v: nat)
    requires acc > 0
  {
    && |t| == |s|
    && forall k: nat :: StoreBit(t, k) <==>
         if 8 * base + off + from <= k < 8 * base + off + to && Served(space, acc, k - 8 * base)
         then Bit(v, k - (8 * base + off)) else StoreBit(s, k)
  }

  lemma WriteStep(s: seq<Byte>, space: Space, acc: nat, base: nat, off: nat, done: nat, put: nat, raw: nat, v: nat,
                  at: nat)
    requires IsUnit(acc) && at + Moved(space, acc) <= |s|
    requires Lo(off + done, acc) + put <= 8 * acc && 8 * at + Lo(off + done, acc) == 8 * base + off + done
    requires put == 8 * acc || raw == Le(s[at..at + Moved(space, acc)])
    ensures var m := Merge(raw, v, done, Lo(off + done, acc), put);
            Written(s, Put(s, at, ToLe(m, Moved(space, acc))), space, acc, base, off, done, done + put, v)
  {
    hide Bit, StoreBit, Merge, Put, ToLe, Le, Lo, Moved;
    var lo, n := Lo(off + done, acc), Moved(space, acc);
    var m := Merge(raw, v, done, lo, put);
    var start := 8 * base + off;
    forall k: nat ensures StoreBit(Put(s, at, ToLe(m, n)), k) <==>
                            if start + done <= k < start + (done + put) && Served(space, acc, k - 8 * base)
                            then Bit(v, k - start) else StoreBit(s, k)
    {
      PutBit(s, at, n, m, k);
      if start + done <= k < start + (done + put) { LoStep(off + done, acc, k - start - done); }
      if 8 * at <= k < 8 * (at + n) {
        MergeBit(raw, v, done, lo, put, k - 8 * at);
        if put != 8 * acc { WindowBit(s, at, n, k - 8 * at); }
      }
    }
  }

  lemma WrittenCompose(s: seq<Byte>, t: seq<Byte>, u: seq<Byte>, space: Space, acc: nat, base: nat, off: nat,
                       a: nat, b: nat, c: nat, v: nat)
    requires acc > 0 && a <= b <= c
    requires Written(s, t, space, acc, base, off, a, b, v) && Written(t, u, space, acc, base, off, b, c, v)
    ensures Written(s, u, space, acc, base, off, a, c, v)
  {
    hide Bit, StoreBit, Served;
  }

  lemma WrittenReplaced(s: seq<Byte>, t: seq<Byte>, space: Space, acc: nat, base: nat, off: nat, width: nat, v: nat)
    requires acc > 0 && Written(s, t, space, acc, base, off, 0, width, v) && AllServed(space, acc, off, off + width)
    ensures Replaced(s, t, 8 * base + off, 0, width, v)
  {
    hide Bit, StoreBit, Served;
  }

  lemma CoveredKept(w: World, x: World, space: Space, base: U64, acc: nat, from: nat, to: nat)
    requires IsUnit(acc) && Covered(w, space, base, acc, from, to) && x.ecPresent == w.ecPresent
    ensures Covered(x, space, base, acc, from, to)
  {
    hide UnitAddr;
    forall bit | from <= bit < to
      ensures base + bit / (8 * acc) * acc < TWO64 && Flat(x, space, UnitAddr(base, bit, acc), acc)
    {
      CoveredAt(w, space, base, acc, from, to, bit);
    }
  }

  lemma WriteUnitStep(w: World, space: Space, base: U64, acc: nat, off: nat, done: nat, width: nat, v: nat)
    requires WorldOk(w) && IsUnit(acc) && done < width <= 64
    requires Covered(w, space, base, acc, off, off + width)
    ensures var bit := off + done;
            var addr := UnitAddr(base, bit, acc);
            var put := Take(bit, acc, width - done);
            var m := Merge(Background(w, space, addr, acc, put), v, done, Lo(bit, acc), put);
            && addr + Moved(space, acc) <= |Store(w, space)|
            && var t := Put(Store(w, space), addr, ToLe(m, Moved(space, acc)));
               && WriteUnit(w, space, addr, acc, m) == Some(WithStore(w, space, t))
               && Written(Store(w, space), t, space, acc, base, off, done, done + put, v)
  {
    hide ReadUnit, WriteUnit, UnitAddr, Flat, Store, Covered, Lo, Take, Merge, Written, Put, ToLe, Le, Moved;
    var bit := off + done;
    CoveredAt(w, space, base, acc, off, off + width, bit);
    UnitOf(base, bit, acc);
    var addr := UnitAddr(base, bit, acc);
    var put := Take(bit, acc, width - done);
    var raw := Background(w, space, addr, acc, put);
    FlatRead(w, space, addr, acc);
    FlatWrite(w, space, addr, acc, Merge(raw, v, done, Lo(bit, acc), put));
    WriteStep(Store(w, space), space, acc, base, off, done, put, raw, v, addr);
  }

  lemma {:induction false} WriteLoop(w: World, space: Space, base: U64, acc: nat, width: nat, off: nat, v: nat,
                                     done: nat)
    requires WorldOk(w) && IsUnit(acc) && done <= width <= 64
    requires Covered(w, space, base, acc, off, off + width)
    ensures var r := WriteFrom(w, space, base, acc, width, v, done, (off + done) % 0x1_0000_0000);
            && r == WithStore(w, space, Store(r, space))
            && Written(Store(w, space), Store(r, space), space, acc, base, off, done, width, v)
    decreases width - done
  {
    hide ReadUnit, WriteUnit, UnitAddr, Flat, Covered, Lo, Take, Merge, Written, Put, ToLe, Le, Bit, Moved;
    CoveredAt(w, space, base, acc, off, off + width, off);
    if done == width {
      SameWritten(Store(w, space), space, acc, base, off, done, v);
    } else {
      var bit := off + done;
      assert bit % 0x1_0000_0000 == bit by { CoveredAt(w, space, base, acc, off, off + width, bit); }
      WriteUnitStep(w, space, base, acc, off, done, width, v);
      var addr := UnitAddr(base, bit, acc);
      var put := Take(bit, acc, width - done);
      var m := Merge(Background(w, space, addr, acc, put), v, done, Lo(bit, acc), put);
      var t := Put(Store(w, space), addr, ToLe(m, Moved(space, acc)));
      var x := WithStore(w, space, t);
      CoveredKept(w, x, space, base, acc, off, off + width);
      WriteLoop(x, space, base, acc, width, off, v, done + put);
      var r := WriteFrom(w, space, base, acc, width, v, done, (off + done) % 0x1_0000_0000);
      WrittenCompose(Store(w, space), t, Store(r, space), space, acc, base, off, done, done + put, width, v);
    }
  }

  lemma SameWritten(s: seq<Byte>, space: Space, acc: nat, base: nat, off: nat, at: nat, v: nat)
    requires acc > 0
    ensures Written(s, s, space, acc, base, off, at, at, v)
  {
    hide StoreBit;
  }

  /** What a field write leaves, bit by bit: the served bits of the field are the value's, every
      other bit of every space is as it was. */
  lemma FieldWriteBits(regions: map<Path, RegionInfo>, f: FieldInfo, v: nat, w: World)
    requires WorldOk(w) && Reached(regions, f, w)
    ensures var ri := regions[f.region];
            var r := FieldWrite(regions, f, v, w);
            && r == WithStore(w, ri.space, Store(r, ri.space))
            && Written(Store(w, ri.space), Store(r, ri.space), ri.space, Acc(f), ri.base, f.bitOffset, 0, f.bitWidth, v)
  {
    hide Written, WriteFrom, Store, WithStore, Covered;
    var ri := regions[f.region];
    CoveredAt(w, ri.space, ri.base, Acc(f), f.bitOffset, f.bitOffset + f.bitWidth, f.bitOffset);
    assert f.bitOffset % 0x1_0000_0000 == f.bitOffset;
    WriteLoop(w, ri.space, ri.base, Acc(f), f.bitWidth, f.bitOffset, v, 0);
  }

  /** A field write replaces exactly the field's bits and touches nothing else anywhere. */
  lemma FieldWriteReplaces(regions: map<Path, RegionInfo>, f: FieldInfo, v: nat, w: World)
    requires WorldOk(w) && Usable(regions, f, w)
    ensures var space := regions[f.region].space;
            var r := FieldWrite(regions, f, v, w);
            && r == WithStore(w, space, Store(r, space))
            && Replaced(Store(w, space), Store(r, space), FieldStart(regions, f), 0, f.bitWidth, v)
  {
    hide Replaced, Written, FieldWrite, Store, WithStore, Covered, AllServed;
    var ri := regions[f.region];
    FieldWriteBits(regions, f, v, w);
    WrittenReplaced(Store(w, ri.space), Store(FieldWrite(regions, f, v, w), ri.space),
                    ri.space, Acc(f), ri.base, f.bitOffset, f.bitWidth, v);
  }

  lemma UsableKept(regions: map<Path, RegionInfo>, f: FieldInfo, g: FieldInfo, v: nat, w: World)
    requires WorldOk(w) && Usable(regions, f, w) && Usable(regions, g, w)
    ensures Usable(regions, g, FieldWrite(regions, f, v, w))
  {
    hide Covered, FieldWrite, Replaced;
    FieldWriteReplaces(regions, f, v, w);
    var rg := regions[g.region];
    CoveredKept(w, FieldWrite(regions, f, v, w), rg.space, rg.base, Acc(g), g.bitOffset, g.bitOffset + g.bitWidth);
  }

  /** Reading a field back after writing it gives the written value modulo 2^width. */
  lemma ReadAfterWrite(regions: map<Path, RegionInfo>, f: FieldInfo, v: nat, w: World)
    requires WorldOk(w) && Usable(regions, f, w)
    ensures FieldRead(regions, f, FieldWrite(regions, f, v, w)) == Some(v % Pow2(f.bitWidth))
  {
    hide FieldWrite, FieldRead, Bit, Slice, Replaced, Covered, AllServed, Store, WithStore, Low, StoreBit, Acc;
    var w' := FieldWrite(regions, f, v, w);
    var s' := Store(w', regions[f.region].space);
    var start := FieldStart(regions, f);
    FieldWriteReplaces(regions, f, v, w);
    UsableKept(regions, f, f, v, w);
    FieldReadIsSlice(regions, f, w');
    forall i: nat ensures Bit(Low(v, f.bitWidth), i) <==> i < f.bitWidth && StoreBit(s', start + i) {
      BitLow(v, f.bitWidth, i);
      ReplacedBit(Store(w, regions[f.region].space), s', start, 0, f.bitWidth, v, start + i);
    }
    SliceBits(s', start, f.bitWidth, Low(v, f.bitWidth));
    LowIsMod(v, f.bitWidth);
  }

  /** The fields share no bit: different spaces, or disjoint bit ranges. */
  predicate Apart(regions: map<Path, RegionInfo>, f: FieldInfo, g: FieldInfo)
    requires f.region in regions && g.region in regions
  {
    || regions[f.region].space != regions[g.region].space
    || FieldStart(regions, f) + f.bitWidth <= FieldStart(regions, g)
    || FieldStart(regions, g) + g.bitWidth <= FieldStart(regions, f)
  }

  lemma SameBitsSameStore(s: seq<Byte>, t: seq<Byte>)
    requires |s| == |t| && forall k: nat :: StoreBit(s, k) == StoreBit(t, k)
    ensures s == t
  {
    hide Bit, Le;
    BitsDetermine(Le(s), Le(t)) by {
      forall k: nat ensures Bit(Le(s), k) == Bit(Le(t), k) { assert StoreBit(s, k) == StoreBit(t, k); }
    }
    LeInjective(s, t);
  }

  lemma ReplacedCommute(s: seq<Byte>, a: seq<Byte>, ab: seq<Byte>, b: seq<Byte>, ba: seq<Byte>,
                        i: nat, m: nat, u: nat, j: nat, n: nat, v: nat)
    requires i + m <= j || j + n <= i
    requires Replaced(s, a, i, 0, m, u) && Replaced(a, ab, j, 0, n, v)
    requires Replaced(s, b, j, 0, n, v) && Replaced(b, ba, i, 0, m, u)
    ensures ab == ba
  {
    hide Bit, StoreBit, Replaced;
    assert |ab| == |ba| by {
      ReplacedLength(s, a, i, m, u);
      ReplacedLength(a, ab, j, n, v);
      ReplacedLength(s, b, j, n, v);
      ReplacedLength(b, ba, i, m, u);
    }
    forall k: nat ensures StoreBit(ab, k) == StoreBit(ba, k) {
      ReplacedBit(s, a, i, 0, m, u, k);
      ReplacedBit(a, ab, j, 0, n, v, k);
      ReplacedBit(s, b, j, 0, n, v, k);
      ReplacedBit(b, ba, i, 0, m, u, k);
    }
    SameBitsSameStore(ab, ba);
  }

  lemma ReplacedLength(s: seq<Byte>, t: seq<Byte>, start: nat, n: nat, v: nat)
    requires Replaced(s, t, start, 0, n, v)
    ensures |s| == |t|
  {
  }

  /** Writes to fields that share no bit commute, whatever their access sizes. */
  lemma DisjointWritesCommute(regions: map<Path, RegionInfo>, f: FieldInfo, u: nat, g: FieldInfo, v: nat, w: World)
    requires WorldOk(w) && Usable(regions, f, w) && Usable(regions, g, w) && Apart(regions, f, g)
    ensures FieldWrite(regions, g, v, FieldWrite(regions, f, u, w)) ==
            FieldWrite(regions, f, u, FieldWrite(regions, g, v, w))
  {
    hide FieldWrite, Replaced, Covered;
    var a, b := FieldWrite(regions, f, u, w), FieldWrite(regions, g, v, w);
    UsableKept(regions, f, g, u, w);
    UsableKept(regions, g, f, v, w);
    var ab, ba := FieldWrite(regions, g, v, a), FieldWrite(regions, f, u, b);
    FieldWriteReplaces(regions, f, u, w);
    FieldWriteReplaces(regions, g, v, w);
    FieldWriteReplaces(regions, g, v, a);
    FieldWriteReplaces(regions, f, u, b);
    var sf, sg := regions[f.region].space, regions[g.region].space;
    if sf == sg {
      ReplacedCommute(Store(w, sf), Store(a, sf), Store(ab, sf), Store(b, sf), Store(ba, sf),
                      FieldStart(regions, f), f.bitWidth, u, FieldStart(regions, g), g.bitWidth, v);
    } else {
      SameReplacement(Store(w, sf), Store(a, sf), Store(ba, sf), FieldStart(regions, f), f.bitWidth, u);
      SameReplacement(Store(w, sg), Store(b, sg), Store(ab, sg), FieldStart(regions, g), g.bitWidth, v);
    }
  }

  lemma SameReplacement(s: seq<Byte>, t: seq<Byte>, u: seq<Byte>, start: nat, n: nat, v: nat)
    requires Replaced(s, t, start, 0, n, v) && Replaced(s, u, start, 0, n, v)
    ensures t == u
  {
    hide Bit, StoreBit, Replaced;
    ReplacedLength(s, t, start, n, v);
    ReplacedLength(s, u, start, n, v);
    forall k: nat ensures StoreBit(t, k) == StoreBit(u, k) {
      ReplacedBit(s, t, start, 0, n, v, k);
      ReplacedBit(s, u, start, 0, n, v, k);
    }
    SameBitsSameStore(t, u);
  }

  // ----- which fields can be read -----

  /** An access of `n` bytes at `addr` has something behind it: the first gigabyte of memory, any port,
      the 256 bytes of a controller that is present (an address so high that its end wraps around
      counts as low), and nothing in a space without a handler. */
  predicate Reachable(w: World, space: Space, addr: U64, n: nat)
  {
    match space
    case SystemMemory => addr < 0x4000_0000
    case SystemIO => true
    case EmbeddedControl => w.ecPresent && (addr + n <= 256 || addr + n >= TWO64)
    case Unserved => false
  }

  lemma UnitReadable(w: World, space: Space, addr: U64, n: nat, v: nat)
    requires WorldOk(w) && IsUnit(n)
    ensures ReadUnit(w, space, addr, n).Some? <==> Reachable(w, space, addr, n)
    ensures WriteUnit(w, space, addr, n, v).Some? <==> Reachable(w, space, addr, n)
  {
    hide Le, EcAssemble, EcScatter, ToLe, Put;
    if addr + n < TWO64 { ModUnique(addr + n, TWO64, 0, addr + n); }
    else { ModUnique(addr + n, TWO64, 1, addr + n - TWO64); }
  }

  /** The unit of bit `k` of a region, counted around in 32 bits, is reachable. */
  predicate BitReadable(w: World, space: Space, base: U64, acc: nat, k: nat)
    requires acc > 0
  {
    Reachable(w, space, UnitAddr(base, k % 0x1_0000_0000, acc), acc)
  }

  lemma SameUnit(w: World, space: Space, base: U64, acc: nat, k: nat, d: nat)
    requires IsUnit(acc) && Lo(k % 0x1_0000_0000, acc) + d < 8 * acc
    ensures BitReadable(w, space, base, acc, k + d) == BitReadable(w, space, base, acc, k)
  {
    hide Reachable;
    var bit, u := k % 0x1_0000_0000, 8 * acc;
    var q, r := bit / u, bit % u;
    assert bit == q * u + r;
    UnitEnds(bit, acc);
    ModUnique(k + d, 0x1_0000_0000, k / 0x1_0000_0000, bit + d);
    ModUnique(bit + d, u, q, r + d);
  }

  /** No unit straddles the point where bit numbers wrap around. */
  lemma UnitEnds(bit: nat, acc: nat)
    requires IsUnit(acc) && bit < 0x1_0000_0000
    ensures bit / (8 * acc) * (8 * acc) + 8 * acc <= 0x1_0000_0000
  {
  }

  lemma {:induction false} ReadableFrom(w: World, space: Space, base: U64, acc: nat, width: nat, got: nat, k: nat,
                                        result: U64)
    requires WorldOk(w) && IsUnit(acc) && got <= width
    ensures ReadFrom(w, space, base, acc, width, got, k % 0x1_0000_0000, result).Some? <==>
              forall i :: k <= i < k + (width - got) ==> BitReadable(w, space, base, acc, i)
    decreases width - got
  {
    hide ReadUnit, UnitAddr, Shl64, And, Shr, Mask, Or, Lo, Take, Reachable;
    if got < width {
      var bit := k % 0x1_0000_0000;
      var addr := UnitAddr(base, bit, acc);
      UnitReadable(w, space, addr, acc, 0);
      assert BitReadable(w, space, base, acc, k) == Reachable(w, space, addr, acc);
      if Reachable(w, space, addr, acc) {
        var take := Take(bit, acc, width - got);
        var piece := Shl64(And(Shr(ReadUnit(w, space, addr, acc).value, Lo(bit, acc)), Mask(take)), got);
        OrBound(result, piece);
        WrapOnce(k, take);
        ReadableFrom(w, space, base, acc, width, got + take, k + take, Or(result, piece));
        forall i | k <= i < k + take ensures BitReadable(w, space, base, acc, i) {
          SameUnit(w, space, base, acc, k, i - k);
        }
      }
    }
  }

  lemma WrapOnce(k: nat, d: nat)
    ensures (k % 0x1_0000_0000 + d) % 0x1_0000_0000 == (k + d) % 0x1_0000_0000
  {
  }

  /** A field can be read exactly if each of its bits lies in a reachable unit. */
  lemma FieldReadable(regions: map<Path, RegionInfo>, f: FieldInfo, w: World)
    requires WorldOk(w) && f.bitOffset < 0x1_0000_0000
    ensures FieldRead(regions, f, w).Some? <==>
              && f.region in regions && 1 <= f.bitWidth <= 64
              && var n := if f.accessBytes == 0 then 1 else f.accessBytes;
                 forall i :: f.bitOffset <= i < f.bitOffset + f.bitWidth ==>
                   BitReadable(w, regions[f.region].space, regions[f.region].base, n, i)
  {
    hide ReadFrom, BitReadable;
    if f.region in regions && 1 <= f.bitWidth <= 64 {
      ReadableFrom(w, regions[f.region].space, regions[f.region].base, Acc(f), f.bitWidth, 0, f.bitOffset, 0);
    }
  }

  // ----- ports: where access-size independence stops -----

  /** A field of existing ports, whatever its access size. */
  predicate OverPorts(regions: map<Path, RegionInfo>, f: FieldInfo)
  {
    && f.region in regions && regions[f.region].space == SystemIO && 1 <= f.bitWidth <= 64
    && FieldStart(regions, f) + f.bitWidth <= 8 * IO_PORTS
  }

  lemma PortsReached(regions: map<Path, RegionInfo>, f: FieldInfo, w: World)
    requires WorldOk(w) && OverPorts(regions, f)
    ensures Reached(regions, f, w)
  {
    var base, acc := regions[f.region].base, Acc(f);
    forall bit | f.bitOffset <= bit < f.bitOffset + f.bitWidth
      ensures base + bit / (8 * acc) * acc < TWO64 && Flat(w, SystemIO, UnitAddr(base, bit, acc), acc)
    {
      UnitBelow(bit, acc);
    }
  }

  lemma UnitBelow(bit: nat, acc: nat)
    requires IsUnit(acc)
    ensures 8 * (bit / (8 * acc) * acc) <= bit
  {
  }

  /** A port access reaches every bit of a unit of up to four bytes, and the lower half of one of
      eight. */
  lemma PortServed(acc: nat, bit: nat)
    requires IsUnit(acc)
    ensures Served(SystemIO, acc, bit) <==> acc < 8 || bit % 64 < 32
  {
  }

  predicate LowerHalf(bit: nat)
  {
    bit % 64 < 32
  }

  /** Declared with eight-byte access, the field lies in the lower halves of its units. */
  ghost predicate PortClear(f: FieldInfo)
  {
    f.accessBytes == 8 ==> forall bit :: f.bitOffset <= bit < f.bitOffset + f.bitWidth ==> LowerHalf(bit)
  }

  lemma ClearServed(f: FieldInfo)
    ensures PortClear(f) <==> AllServed(SystemIO, Acc(f), f.bitOffset, f.bitOffset + f.bitWidth)
  {
    hide Served;
    forall bit: nat ensures Served(SystemIO, Acc(f), bit) <==> Acc(f) < 8 || LowerHalf(bit) {
      PortServed(Acc(f), bit);
    }
  }

  function Filled(n: nat, b: Byte): (s: seq<Byte>)
    ensures |s| == n
  {
    seq(n, i => b)
  }

  /** A world whose ports all hold the byte `b`. */
  function PortsHolding(b: Byte): (w: World)
    ensures WorldOk(w) && w.io == Filled(IO_PORTS + 3, b)
  {
    World(Filled(DIRECT_MAP + 7, 0), Filled(IO_PORTS + 3, b), Filled(256, 0), false)
  }

  lemma FilledBit(n: nat, b: Byte, k: nat)
    requires k < 8 * n && (b == 0 || b == 0xFF)
    ensures StoreBit(Filled(n, b), k) <==> b == 0xFF
  {
    hide Bit, Le, Mask;
    BitLe(Filled(n, b), k);
    Pow2Values();
    assert Mask(8) == 255 by { MaskEight(); }
    BitMask(8, k % 8);
    BitZero(k % 8);
  }

  lemma MaskEight()
    ensures Mask(8) == 255
  {
    Pow2Values();
  }

  /** Over ports a field read is the flat slice, whatever the ports hold, exactly when the access
      reaches every bit of the field. */
  lemma PortReadIff(regions: map<Path, RegionInfo>, f: FieldInfo)
    requires OverPorts(regions, f)
    ensures (forall w :: WorldOk(w) ==>
            FieldRead(regions, f, w) == Some(Slice(w.io, FieldStart(regions, f), f.bitWidth)))
            <==> PortClear(f)
  {
    ClearServed(f);
    hide FieldRead, Slice, Served, Reached, Bit, StoreBit, WorldOk, PortsHolding, Filled, SliceOf;
    forall w | WorldOk(w) && AllServed(SystemIO, Acc(f), f.bitOffset, f.bitOffset + f.bitWidth)
      ensures FieldRead(regions, f, w) == Some(Slice(w.io, FieldStart(regions, f), f.bitWidth))
    {
      PortsReached(regions, f, w);
      FieldReadIsSlice(regions, f, w);
    }
    forall bit | f.bitOffset <= bit < f.bitOffset + f.bitWidth && !Served(SystemIO, Acc(f), bit)
      ensures exists w ::
                WorldOk(w) && FieldRead(regions, f, w) != Some(Slice(w.io, FieldStart(regions, f), f.bitWidth))
    {
      UnservedMissed(regions, f, bit);
    }
  }

  /** With every port bit set, a bit the access does not reach still reads as zero. */
  lemma UnservedMissed(regions: map<Path, RegionInfo>, f: FieldInfo, bit: nat)
    requires OverPorts(regions, f) && f.bitOffset <= bit < f.bitOffset + f.bitWidth && !Served(SystemIO, Acc(f), bit)
    ensures var w := PortsHolding(0xFF);
            WorldOk(w) && FieldRead(regions, f, w) != Some(Slice(w.io, FieldStart(regions, f), f.bitWidth))
  {
    hide FieldRead, Slice, Served, Reached, Bit, StoreBit, WorldOk, Filled;
    var w, i := PortsHolding(0xFF), bit - f.bitOffset;
    PortsReached(regions, f, w);
    FieldReadBits(regions, f, w);
    var r := FieldRead(regions, f, w).value;
    FilledBit(IO_PORTS + 3, 0xFF, FieldStart(regions, f) + i);
    SliceBits(w.io, FieldStart(regions, f), f.bitWidth, r);
    assert !Bit(r, i);
  }

  /** And a field write replaces exactly the field's bits under the same condition. */
  lemma PortWriteIff(regions: map<Path, RegionInfo>, f: FieldInfo)
    requires OverPorts(regions, f)
    ensures (forall w, v: nat :: WorldOk(w) ==>
               Replaced(w.io, FieldWrite(regions, f, v, w).io, FieldStart(regions, f), 0, f.bitWidth, v))
            <==> PortClear(f)
  {
    ClearServed(f);
    hide FieldWrite, Replaced, Served, Reached, Bit, StoreBit, WorldOk, PortsHolding, Filled;
    forall w, v: nat | WorldOk(w) && AllServed(SystemIO, Acc(f), f.bitOffset, f.bitOffset + f.bitWidth)
      ensures Replaced(w.io, FieldWrite(regions, f, v, w).io, FieldStart(regions, f), 0, f.bitWidth, v)
    {
      PortsReached(regions, f, w);
      FieldWriteReplaces(regions, f, v, w);
    }
    forall bit | f.bitOffset <= bit < f.bitOffset + f.bitWidth && !Served(SystemIO, Acc(f), bit)
      ensures exists w, v: nat ::
                && WorldOk(w)
                && !Replaced(w.io, FieldWrite(regions, f, v, w).io, FieldStart(regions, f), 0, f.bitWidth, v)
    {
      UnservedKept(regions, f, bit);
    }
  }

  /** With every port bit clear, a bit the access does not reach stays clear when ones are written. */
  lemma UnservedKept(regions: map<Path, RegionInfo>, f: FieldInfo, bit: nat)
    requires OverPorts(regions, f) && f.bitOffset <= bit < f.bitOffset + f.bitWidth && !Served(SystemIO, Acc(f), bit)
    ensures var w, v := PortsHolding(0), Mask(f.bitWidth);
            WorldOk(w) && !Replaced(w.io, FieldWrite(regions, f, v, w).io, FieldStart(regions, f), 0, f.bitWidth, v)
  {
    hide FieldWrite, Served, Reached, Bit, StoreBit, WorldOk, Filled, Mask;
    var w, v, i := PortsHolding(0), Mask(f.bitWidth), bit - f.bitOffset;
    var k := FieldStart(regions, f) + i;
    PortsReached(regions, f, w);
    FieldWriteBits(regions, f, v, w);
    FilledBit(IO_PORTS + 3, 0, k);
    BitMask(f.bitWidth, i);
    assert !StoreBit(FieldWrite(regions, f, v, w).io, k);
  }
}
