/** PkgLength, section 20.2.4 of ACPI 6.x: one lead byte whose top two bits count the
    follow-on bytes. With none, the low six bits are the length; otherwise the low
    nibble of the lead byte is the low nibble of the length. */
module PkgLength {
  import opened Bits

  datatype Decoded = Decoded(len: nat, consumed: nat)

  /** What a PkgLength at `pos` of the bytes `p[..end]` denotes. */
  function PkgAt(p: seq<Byte>, pos: nat, end: nat): (r: Option<Decoded>)
    requires end <= |p|
    ensures r.Some? ==> 1 <= r.value.consumed <= 4 && pos + r.value.consumed <= end && r.value.len < 0x1000_0000
  {
    if pos >= end then None
    else
      var follow := p[pos] / 64;
      if end - pos < 1 + follow then None
      else if follow == 0 then Some(Decoded(p[pos] % 64, 1))
      else
        LeBound(p[pos + 1..pos + 1 + follow]);
        FollowBound(follow);
        Some(Decoded(p[pos] % 16 + 16 * Le(p[pos + 1..pos + 1 + follow]), 1 + follow))
  }

  lemma FollowBound(k: nat)
    requires k <= 3
    ensures Pow2(8 * k) <= 0x100_0000
  {
    Pow2Values();
    Pow2Add(16, 8);
  }

  /** A value below 2^k and a value shifted past bit k do not overlap. */
  lemma {:induction false} OrIsAdd(x: nat, y: nat, k: nat)
    requires x < Pow2(k)
    ensures Or(x, Shl(y, k)) == x + Shl(y, k)
    decreases k
  {
    if k > 0 && x > 0 && Shl(y, k) > 0 {
      OrIsAdd(x / 2, y, k - 1);
    }
  }

  lemma {:induction false} LeAppend(s: seq<Byte>, b: Byte)
    ensures Le(s + [b]) == Le(s) + Shl(b, 8 * |s|)
  {
    if s == [] {
      assert (s + [b])[1..] == [];
    } else {
      assert (s + [b])[1..] == s[1..] + [b];
      LeAppend(s[1..], b);
      ShlCompose(b, 8 * |s| - 8, 8);
      ByteShifts(Shl(b, 8 * |s| - 8));
    }
  }

  lemma {:induction false} ShlCompose(x: nat, a: nat, b: nat)
    ensures Shl(x, a + b) == Shl(Shl(x, a), b)
    decreases b
  {
    if b > 0 { ShlCompose(x, a, b - 1); }
  }

  /** One step of the decoders' byte loop: or-ing in byte `i` extends the length read so far. */
  lemma AccumulateStep(low: nat, s: seq<Byte>, b: Byte)
    requires low < 16
    ensures Or(low + 16 * Le(s), Shl(b, 4 + 8 * |s|)) == low + 16 * Le(s + [b])
  {
    hide Or, Shl, Le, Pow2;
    LeBound(s);
    Pow2Add(4, 8 * |s|);
    assert Pow2(4) == 16 by { PowFour(); }
    assert low + 16 * Le(s) < 16 * Pow2(8 * |s|);
    OrIsAdd(low + 16 * Le(s), b, 4 + 8 * |s|);
    LeAppend(s, b);
    Shl4(b, 8 * |s|);
  }

  lemma PowFour()
    ensures Pow2(4) == 16
  {
  }

  lemma AccumulateAt(p: seq<Byte>, q: nat, i: nat, low: nat)
    requires low < 16 && q + i < |p|
    ensures Or(low + 16 * Le(p[q..q + i]), Shl(p[q + i], 4 + i * 8)) == low + 16 * Le(p[q..q + (i + 1)])
  {
    hide Or, Shl, Le;
    var s := p[q..q + i];
    AccumulateStep(low, s, p[q + i]);
    assert |s| == i && 4 + i * 8 == 4 + 8 * i;
    assert p[q..q + (i + 1)] == s + [p[q + i]];
  }

  lemma Shl4(x: nat, n: nat)
    ensures Shl(x, 4 + n) == 16 * Shl(x, n)
  {
    assert Shl(x, n + 2) == 2 * Shl(x, n + 1) == 4 * Shl(x, n);
    assert Shl(x, n + 4) == 2 * Shl(x, n + 3) == 4 * Shl(x, n + 2);
  }

  lemma LowNibble(b: Byte)
    ensures And(b, 0x0F) == b % 16 && And(b, 0x3F) == b % 64
    ensures And(Shr(b, 6), 0x3) == b / 64 && Shr(b, 6) == b / 64
  {
    LowBits(b, 4, 15, 16);
    LowBits(b, 6, 63, 64);
    ShrIsDiv(b, 6);
    LowBits(b / 64, 2, 3, 4);
  }

  lemma LowBits(x: nat, n: nat, mask: nat, m: nat)
    requires Mask(n) == mask && Pow2(n) == m
    ensures And(x, mask) == x % m
  {
    MaskIsLow(x, n);
    LowIsMod(x, n);
  }

  lemma MaskIsLow(x: nat, n: nat)
    ensures And(x, Mask(n)) == Low(x, n)
  {
    forall i: nat ensures Bit(And(x, Mask(n)), i) == Bit(Low(x, n), i) {
      BitAnd(x, Mask(n), i);
      BitMask(n, i);
      BitLow(x, n, i);
    }
    BitsDetermine(And(x, Mask(n)), Low(x, n));
  }

  /** The decoder shared by the evaluator and the namespace code: all bounds checked first. */
  method ReadPkgLength(p: seq<Byte>, pos: nat, end: nat) returns (ok: bool, len: nat, consumed: nat)
    requires pos <= end <= |p|
    ensures ok == PkgAt(p, pos, end).Some?
    ensures ok ==> PkgAt(p, pos, end) == Some(Decoded(len, consumed))
  {
    hide And, Or, Shr, Shl, Le;
    ok, len, consumed := false, 0, 0;
    var remaining := end - pos;
    if remaining < 1 { return; }
    var lead := p[pos];
    LowNibble(lead);
    var follow := And(Shr(lead, 6), 0x3);
    if remaining < 1 + follow { return; }
    if follow == 0 { return true, And(lead, 0x3F), 1; }
    len := And(lead, 0x0F);
    LeEmpty();
    assert p[pos + 1..pos + 1] == [];
    for i := 0 to follow
      invariant len == lead % 16 + 16 * Le(p[pos + 1..pos + 1 + i])
    {
      AccumulateAt(p, pos + 1, i, lead % 16);
      len := Or(len, Shl(p[pos + 1 + i], 4 + i * 8));
    }
    ok, consumed := true, 1 + follow;
  }

  /** The third decoder, written out inside the sleep-package reader: it starts from the
      six-bit form and checks the bound of each follow-on byte as it reaches it. */
  method ReadPkgLengthInline(aml: seq<Byte>, q: nat, amlLen: nat) returns (ok: bool, len: nat, extra: nat)
    requires amlLen <= |aml|
    ensures ok == PkgAt(aml, q, amlLen).Some?
    ensures ok ==> PkgAt(aml, q, amlLen) == Some(Decoded(len, 1 + extra))
  {
    ok, len, extra := false, 0, 0;
    if q >= amlLen { return; }
    var lead := aml[q];
    LowNibble(lead);
    extra := Shr(lead, 6);
    len := And(lead, 0x3F);
    if extra > 0 {
      ok, len := OrFollowBytes(aml, q, amlLen, extra, And(lead, 0x0F));
      return;
    }
    ok := true;
  }

  method OrFollowBytes(aml: seq<Byte>, q: nat, amlLen: nat, extra: nat, low: nat) returns (ok: bool, len: nat)
    requires q < amlLen <= |aml| && low < 16
    ensures ok == (q + 1 + extra <= amlLen)
    ensures ok ==> len == low + 16 * Le(aml[q + 1..q + 1 + extra])
  {
    len := low;
    for k := 0 to extra
      invariant q + 1 + k <= amlLen
      invariant len == low + 16 * Le(aml[q + 1..q + 1 + k])
    {
      if q + 1 + k >= amlLen { return false, len; }
      AccumulateAt(aml, q + 1, k, low);
      len := Or(len, Shl(aml[q + 1 + k], 4 + k * 8));
    }
    ok := true;
  }

  // ----- the encoder -----

  /** `n` fits a PkgLength of `k` follow-on bytes. */
  predicate Fits(n: nat, k: nat)
  {
    k <= 3 && n < (if k == 0 then 64 else if k == 1 then 0x1000 else if k == 2 then 0x10_0000 else 0x1000_0000)
  }

  function EncodePkg(n: nat, k: nat): (s: seq<Byte>)
    requires Fits(n, k)
    ensures |s| == 1 + k
  {
    if k == 0 then [n] else [64 * k + n % 16] + ToLe(n / 16, k)
  }

  /** The code `s` sits at `pos` of `p`. */
  predicate At(p: seq<Byte>, pos: nat, s: seq<Byte>)
  {
    pos + |s| <= |p| && p[pos..pos + |s|] == s
  }

  lemma AtSplit(p: seq<Byte>, pos: nat, a: seq<Byte>, b: seq<Byte>)
    requires At(p, pos, a + b)
    ensures At(p, pos, a) && At(p, pos + |a|, b)
  {
    assert p[pos..pos + |a|] == p[pos..pos + |a + b|][..|a|];
    assert p[pos + |a|..pos + |a| + |b|] == p[pos..pos + |a + b|][|a|..];
  }

  lemma AtHead(p: seq<Byte>, pos: nat, b: Byte, s: seq<Byte>)
    requires At(p, pos, [b] + s)
    ensures pos < |p| && p[pos] == b && At(p, pos + 1, s)
  {
    AtSplit(p, pos, [b], s);
    assert p[pos..pos + 1][0] == b;
  }

  /** Decoding an encoded length followed by any bytes gives the length and its byte count. */
  lemma PkgRoundTrip(n: nat, k: nat, p: seq<Byte>, pos: nat, end: nat)
    requires Fits(n, k) && At(p, pos, EncodePkg(n, k)) && pos + 1 + k <= end <= |p|
    ensures PkgAt(p, pos, end) == Some(Decoded(n, 1 + k))
  {
    if k == 0 {
      AtHead(p, pos, n, []);
    } else {
      AtHead(p, pos, 64 * k + n % 16, ToLe(n / 16, k));
      ToLeRoundTrip(n / 16, k);
      FollowFits(n, k);
      LowIdentity(n / 16, 8 * k);
      LeadByte(n, k);
      assert p[pos + 1..pos + 1 + k] == ToLe(n / 16, k);
    }
  }

  /** Decoding succeeds exactly if the bytes the lead byte asks for are there, and encoding the result again
      gives them back, except that a multi-byte lead's two reserved bits come back clear. */
  lemma PkgReencodes(p: seq<Byte>, pos: nat, end: nat)
    requires end <= |p|
    ensures PkgAt(p, pos, end).Some? <==> pos < end && p[pos] / 64 < end - pos
    ensures PkgAt(p, pos, end).Some? ==>
              var d, k := PkgAt(p, pos, end).value, p[pos] / 64;
              && d.consumed == 1 + k && Fits(d.len, k)
              && EncodePkg(d.len, k) ==
                 [if k == 0 then p[pos] else p[pos] - p[pos] % 64 + p[pos] % 16] + p[pos + 1..pos + 1 + k]
  {
    hide Le, ToLe;
    if pos < end && p[pos] / 64 < end - pos && p[pos] / 64 > 0 {
      var k, rest := p[pos] / 64, p[pos + 1..pos + 1 + p[pos] / 64];
      LeBound(rest);
      LeRoundTrip(rest);
      FollowPower(k);
      LeadParts(p[pos]);
    }
  }

  lemma LeRoundTrip(s: seq<Byte>)
    ensures ToLe(Le(s), |s|) == s
  {
    hide Le, ToLe, Low;
    LeBound(s);
    ToLeRoundTrip(Le(s), |s|);
    LowIdentity(Le(s), 8 * |s|);
    LeInjective(ToLe(Le(s), |s|), s);
  }

  lemma FollowPower(k: nat)
    requires 1 <= k <= 3
    ensures Pow2(8 * k) == if k == 1 then 0x100 else if k == 2 then 0x1_0000 else 0x100_0000
  {
    Pow2Values();
    Pow2Add(16, 8);
  }

  lemma LeadParts(b: Byte)
    ensures b - b % 64 + b % 16 == 64 * (b / 64) + b % 16
  {
  }

  lemma LeadByte(n: nat, k: nat)
    requires k <= 3
    ensures (64 * k + n % 16) / 64 == k && (64 * k + n % 16) % 16 == n % 16
  {
  }

  lemma FollowFits(n: nat, k: nat)
    requires Fits(n, k) && k > 0
    ensures n / 16 < Pow2(8 * k)
  {
    Pow2Values();
    Pow2Add(16, 8);
  }

  /** Every length below 2^28 has an encoding, and none above does. */
  lemma PkgRange(n: nat)
    ensures Fits(n, 3) <==> n < 0x1000_0000
    ensures n < 0x1000_0000 ==> PkgAt(EncodePkg(n, 3), 0, 4) == Some(Decoded(n, 4))
  {
    if n < 0x1000_0000 { PkgRoundTrip(n, 3, EncodePkg(n, 3), 0, 4); }
  }

  /** The number of follow-on bytes for a body of `n` bytes; the length counts itself. */
  function FollowFor(n: nat): (k: nat)
    requires n < 0x0FFF_FFFC
    ensures Fits(n + 1 + k, k)
  {
    if n + 1 < 64 then 0 else if n + 2 < 0x1000 then 1 else if n + 3 < 0x10_0000 then 2 else 3
  }

  /** A body behind its PkgLength. */
  function Wrap(body: seq<Byte>): (s: seq<Byte>)
    requires |body| < 0x0FFF_FFFC
    ensures |body| < |s| <= |body| + 4
  {
    var k := FollowFor(|body|);
    EncodePkg(|body| + 1 + k, k) + body
  }

  /** A wrapped body decodes to its own extent, with the body right behind the length bytes. */
  lemma WrapDecodes(body: seq<Byte>, p: seq<Byte>, pos: nat, end: nat)
    requires |body| < 0x0FFF_FFFC && At(p, pos, Wrap(body)) && pos + |Wrap(body)| <= end <= |p|
    ensures PkgAt(p, pos, end) == Some(Decoded(|Wrap(body)|, |Wrap(body)| - |body|))
    ensures At(p, pos + |Wrap(body)| - |body|, body)
  {
    var k := FollowFor(|body|);
    AtSplit(p, pos, EncodePkg(|body| + 1 + k, k), body);
    PkgRoundTrip(|body| + 1 + k, k, p, pos, end);
  }
}
