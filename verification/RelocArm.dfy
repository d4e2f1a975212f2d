/** Branch relocations of 32-bit ARM code: A32 branches, and the Thumb branches whose displacement is
    scattered over S, J1, J2 and two immediate fields. */
module RelocArm {
  import opened Base
  import opened CodeBytes
  import opened Patch
  import opened Text

  type Half = x: int | 0 <= x < 0x1_0000

  // ---- A32: R_ARM_PC24, CALL, JUMP24 and PLT32 ----

  /** The displacement of B, BL or BLX from pc; BLX, told by its condition field, adds the H bit as a halfword. */
  function Displacement(w: Word): int { Signed24(w % 0x100_0000) * 4 + if IsBlx(w) then HBit(w) else 0 }

  predicate IsBlx(w: Word) { w / 0x1000_0000 == 0xf }

  function HBit(w: Word): int { w / 0x100_0000 % 2 * 2 }

  datatype Kind = Pc24 | Call | Other24  // Other24: JUMP24 and PLT32

  /** BL, or a relocation that only calls have. */
  predicate IsCall(w: Word, kind: Kind) { kind == Call || (kind == Pc24 && w / 0x100_0000 == 0xeb) }

  /** The displacement to be encoded: the addend in the instruction plus the distance. */
  function Wanted(w: Word, addr: Word, val: Word): int {
    ToInt(Signed24(w % 0x100_0000) * 4 + val - addr)
  }

  predicate Fails(w: Word, kind: Kind, blx: bool, x: int) {
    (x % 4 != 0 && !(blx && IsCall(w, kind))) || x >= 0x200_0000 || x < -0x200_0000
  }

  lemma FieldOf(x: int, top: int, w: int)
    requires -0x200_0000 <= x < 0x200_0000 && 0 <= top < 0x100 && w == top * 0x100_0000 + x / 4 % 0x100_0000
    ensures 0 <= w < W32 && w / 0x100_0000 == top && Signed24(w % 0x100_0000) * 4 == x - x % 4
  {
    var q := x / 4;
    assert q % 0x100_0000 == if q < 0 then q + 0x100_0000 else q;
    assert w % 0x100_0000 == q % 0x100_0000;
  }

  lemma TopByte(w: Word, top: int)
    requires top == w / 0x100_0000
    ensures (IsBlx(w) <==> top / 0x10 == 0xf) && HBit(w) == top % 2 * 2
    ensures top == 0xfa ==> IsBlx(w) && HBit(w) == 0
  {
    assert w / 0x1000_0000 == top / 0x10;
  }

  /** The branch w became w', which is BLX for a Thumb target. */
  predicate ArmRelocated(w: Word, w': Word, addr: Word, val: Word) {
    var x := Wanted(w, addr, val);
    w' / 0x100_0000 == (if val % 2 == 1 then 0xfa else w / 0x100_0000) &&
    Displacement(w') == x - x % 4 + (if val % 2 == 0 && IsBlx(w) then HBit(w) else 0)
  }

  /** The instruction after relocation, None for the fatal error. A Thumb target turns the call into BLX. */
  method RelocateArm(w: Word, kind: Kind, blx: bool, addr: Word, val: Word) returns (r: Option<Word>)
    ensures r.None? <==> Fails(w, kind, blx, Wanted(w, addr, val))
    ensures r.Some? ==> ArmRelocated(w, r.value, addr, val)
  {
    var x := w % 0x100_0000;
    if x >= 0x80_0000 { x := x - 0x100_0000; }
    x := ToInt(x * 4 + val - addr);
    var thumb := val % 2 == 1;
    if (x % 4 != 0 && (!blx || !IsCall(w, kind))) || x >= 0x200_0000 || x < -0x200_0000 { return None; }
    var imm := x / 4 % 0x100_0000;
    // For a Thumb target the source also sets bit 25, which 0xfa has already; H, bit 24, stays clear.
    var top := if thumb then 0xfa else w / 0x100_0000;
    FieldOf(x, top, top * 0x100_0000 + imm);
    r := Some(top * 0x100_0000 + imm);
    TopByte(r.value, top);
    TopByte(w, w / 0x100_0000);
  }

  /** Where the branch ought to go relative to pc: a Thumb address is halfword-aligned, its bit 0 only marks the
      state. */
  function Target(x: int, val: Word): int { if val % 2 == 1 then x - x % 2 else x }

  /** A relocated branch reaches its target exactly when the displacement is a multiple of four, bit 0 of a Thumb
      target apart; but a word that is BLX already keeps its H bit for an ARM target. Only a BLX changes the state. */
  lemma ArmExact(w: Word, w': Word, addr: Word, val: Word)
    requires ArmRelocated(w, w', addr, val)
    ensures Displacement(w') == Target(Wanted(w, addr, val), val) <==>
              if val % 2 == 1 then Wanted(w, addr, val) % 4 < 2
              else Wanted(w, addr, val) % 4 == if IsBlx(w) then HBit(w) else 0
    ensures IsBlx(w') <==> val % 2 == 1 || IsBlx(w)
  {
    var x := Wanted(w, addr, val);
    HalfOfFour(x, x / 4, x % 4, x % 2);
    assert w' / 0x1000_0000 == w' / 0x100_0000 / 0x10 && w / 0x1000_0000 == w / 0x100_0000 / 0x10;
  }

  /** The word branches by x, bit 0 apart if it may exchange the state; else it must not. */
  predicate Encodes(w: Word, exchange: bool, x: int) {
    if exchange then Displacement(w) == x - x % 2 else !IsBlx(w) && Displacement(w) == x
  }

  ghost predicate Encodable(exchange: bool, x: int) { exists w: Word :: Encodes(w, exchange, x) }

  /** The relocation fails exactly when no branch that may be used has the displacement. */
  lemma FailsExactly(w: Word, kind: Kind, blx: bool, x: int)
    ensures Fails(w, kind, blx, x) <==> !Encodable(blx && IsCall(w, kind), x)
  {
    var exchange := blx && IsCall(w, kind);
    if Fails(w, kind, blx, x) {
      forall b: Word ensures !Encodes(b, exchange, x) { OutOfReach(b, exchange, x); }
    } else {
      var b := Encoded(exchange, x);
    }
  }

  lemma OutOfReach(w: Word, exchange: bool, x: int)
    requires (x % 4 != 0 && !exchange) || x >= 0x200_0000 || x < -0x200_0000
    ensures !Encodes(w, exchange, x)
  {
    var d := Signed24(w % 0x100_0000);
    assert -0x80_0000 <= d < 0x80_0000;
  }

  lemma Encoded(exchange: bool, x: int) returns (w: Word)
    requires -0x200_0000 <= x < 0x200_0000 && (exchange || x % 4 == 0)
    ensures Encodes(w, exchange, x)
  {
    HalfOfFour(x, x / 4, x % 4, x % 2);
    var top := if !exchange then 0xeb else if x % 4 < 2 then 0xfa else 0xfb;
    var b := top * 0x100_0000 + x / 4 % 0x100_0000;
    FieldOf(x, top, b);
    TopByte(b, top);
    w := b;
  }

  /** A call at 0x8000 of the Thumb function at 0x9002 is relocated without an error and goes to 0x9000. */
  lemma ThumbFunctionMissed(w: Word, w': Word, addr: Word, val: Word)
    requires w == 0xebff_fffe && addr == 0x8000 && val == 0x9003
    ensures !Fails(w, Call, true, Wanted(w, addr, val))
    ensures ArmRelocated(w, w', addr, val) ==> addr + 8 + Displacement(w') == 0x9000
  {
    assert Wanted(w, addr, val) == 0xffb;
  }

  lemma HalfOfFour(x: int, q: int, r: int, e: int)
    requires x == 4 * q + r && 0 <= r < 4 && e == x % 2
    ensures e == if r < 2 then r else r - 2
  {
    var h := 2 * q + (if r < 2 then 0 else 1);
    assert x == 2 * h + (if r < 2 then r else r - 2);
  }

  // ---- Thumb: R_ARM_THM_PC22 and THM_JUMP24 ----

  function Xor1(a: int, b: int): int { if a == b then 0 else 1 }

  function Signed25(u: int): int { if u < 0x100_0000 then u else u - 0x200_0000 }

  /** The displacement of a Thumb BL, BLX or B.W, section A8.8 of DDI 0406C: S:I1:I2:imm10:imm11:0 with
      I1 = NOT(J1 EOR S) and I2 = NOT(J2 EOR S). */
  function ThumbDisplacement(hi: Half, lo: Half): int {
    var s, j1, j2 := hi / 0x400 % 2, lo / 0x2000 % 2, lo / 0x800 % 2;
    Signed25(s * 0x100_0000 + Xor1(Xor1(j1, s), 1) * 0x80_0000 + Xor1(Xor1(j2, s), 1) * 0x40_0000 +
             hi % 0x400 * 0x1000 + lo % 0x800 * 2)
  }

  /** The halfwords for a displacement given by its parts; `blx` clears bit 12 of the second. */
  function ThumbHigh(hi: Half, s: int, imm10: int): int { hi / 0x800 * 0x800 + s * 0x400 + imm10 }

  function ThumbLow(lo: Half, s: int, i1: int, i2: int, imm11: int, blx: bool): int {
    lo / 0x4000 * 0x4000 + Xor1(s, Xor1(i1, 1)) * 0x2000 + (if blx then 0 else 0x1000) +
    Xor1(s, Xor1(i2, 1)) * 0x800 + imm11
  }

  lemma HighParts(hi: Half, s: int, imm10: int, h: int)
    requires 0 <= s < 2 && 0 <= imm10 < 0x400 && h == ThumbHigh(hi, s, imm10)
    ensures 0 <= h < 0x1_0000 && h / 0x400 % 2 == s && h % 0x400 == imm10 && h / 0x800 == hi / 0x800
  {
    assert h / 0x400 == hi / 0x800 * 2 + s;
  }

  lemma LowParts(top: int, j1: int, bit: int, j2: int, imm11: int, l: int)
    requires 0 <= top < 4 && 0 <= j1 < 2 && 0 <= bit < 2 && 0 <= j2 < 2 && 0 <= imm11 < 0x800
    requires l == top * 0x4000 + j1 * 0x2000 + bit * 0x1000 + j2 * 0x800 + imm11
    ensures 0 <= l < 0x1_0000 && l / 0x2000 % 2 == j1 && l / 0x800 % 2 == j2 && l % 0x800 == imm11
    ensures l / 0x4000 == top && l / 0x1000 % 2 == bit
  {
    var a := l / 0x800;
    assert a == top * 8 + j1 * 4 + bit * 2 + j2;
    assert l / 0x1000 == a / 2 && l / 0x2000 == a / 4 && l / 0x4000 == a / 8;
  }

  /** Packing the parts and reading them back. */
  lemma ThumbRoundTrip(hi: Half, lo: Half, s: int, i1: int, i2: int, imm10: int, imm11: int, blx: bool,
        h: Half, l: Half)
    requires 0 <= s < 2 && 0 <= i1 < 2 && 0 <= i2 < 2 && 0 <= imm10 < 0x400 && 0 <= imm11 < 0x800
    requires h == ThumbHigh(hi, s, imm10) && l == ThumbLow(lo, s, i1, i2, imm11, blx)
    ensures ThumbDisplacement(h, l) ==
            Signed25(s * 0x100_0000 + i1 * 0x80_0000 + i2 * 0x40_0000 + imm10 * 0x1000 + imm11 * 2)
    ensures l / 0x1000 % 2 == if blx then 0 else 1
  {
    HighParts(hi, s, imm10, h);
    LowParts(lo / 0x4000, Xor1(s, Xor1(i1, 1)), if blx then 0 else 1, Xor1(s, Xor1(i2, 1)), imm11, l);
  }

  /** The parts of a displacement modulo 2^25 make it up again, but for bit 0. */
  lemma ThumbCut(u: int)
    requires 0 <= u < 0x200_0000
    ensures u / 0x100_0000 * 0x100_0000 + u / 0x80_0000 % 2 * 0x80_0000 + u / 0x40_0000 % 2 * 0x40_0000 +
            u / 0x1000 % 0x400 * 0x1000 + u / 2 % 0x800 * 2 == u - u % 2
  {
    var a := u / 2;
    var b := a / 0x800;
    var c := b / 0x400;
    var d := c / 2;
    assert b == u / 0x1000 && c == u / 0x40_0000 && d == u / 0x80_0000 && d / 2 == u / 0x100_0000;
  }

  predicate ThumbFails(toThumb: bool, call: bool, toPlt: bool, val: Word, x: int) {
    if toThumb then x >= 0x100_0000 || x < -0x100_0000 else val / 2 % 2 == 1 || (!call && !toPlt)
  }

  /** The displacement of an exchanging call with addend a. */
  function Aligned(a: int, addr: Word, val: Word): int {
    var x := ToInt(a + val - addr);
    ToInt(x + 3 - (x + 3) % 4)
  }

  /** The displacement to be encoded. A call that enters ARM state counts from the aligned pc. */
  function ThumbWanted(hi: Half, lo: Half, addr: Word, val: Word, exchange: bool): int {
    if exchange then Aligned(ThumbDisplacement(hi, lo), addr, val) else ToInt(ThumbDisplacement(hi, lo) + val - addr)
  }

  /** The size of a section of code. */
  type Size = x: int | 0 <= x < W32 && x % 2 == 0

  /** The target in the end. For a jump to ARM code outside the table it is a stub put at the end of the section, whose
      size so far, the stub's offset, is taken for the address. */
  function ThumbTarget(call: bool, toPlt: bool, target: Word, size: Size): Word {
    if target % 2 == 0 && !toPlt && !call then size + 1 else target
  }

  /** Calls of ARM code exchange the state; bit 12 of the second halfword tells BL from BLX. */
  predicate Exchanges(call: bool, val: Word) { val % 2 == 0 && call }

  predicate SameOpcode(hi: Half, lo: Half, h: Half, l: Half) { h / 0x800 == hi / 0x800 && l / 0x4000 == lo / 0x4000 }

  predicate ThumbFatal(hi: Half, lo: Half, call: bool, toPlt: bool, addr: Word, val: Word) {
    ThumbFails(val % 2 == 1, call, toPlt, val, ThumbWanted(hi, lo, addr, val, Exchanges(call, val)))
  }

  /** The branch in hi and lo became the one in h and l. */
  predicate ThumbRelocated(hi: Half, lo: Half, h: Half, l: Half, call: bool, addr: Word, val: Word) {
    var x := ThumbWanted(hi, lo, addr, val, Exchanges(call, val));
    ThumbDisplacement(h, l) == Signed25(x % 0x200_0000 - x % 2) && (l / 0x1000 % 2 == 0 <==> Exchanges(call, val)) &&
    SameOpcode(hi, lo, h, l)
  }

  method FinalOffset(hi: Half, lo: Half, addr: Word, val: Word, exchange: bool) returns (x: int)
    ensures x == ThumbWanted(hi, lo, addr, val, exchange)
  {
    x := ThumbDisplacement(hi, lo);
    x := ToInt(x + val - addr);
    if exchange { x := ToInt(x + 3 - (x + 3) % 4); }
  }

  lemma OddNext(size: Size)
    ensures (size + 1) % 2 == 1
  {
  }

  /** The rest of the relocation, for the target in the end. */
  method RelocateTo(hi: Half, lo: Half, call: bool, toPlt: bool, addr: Word, val: Word, toThumb: bool)
    returns (r: Option<(Half, Half)>)
    requires toThumb <==> val % 2 == 1
    ensures r.None? <==> ThumbFatal(hi, lo, call, toPlt, addr, val)
    ensures r.Some? ==> ThumbRelocated(hi, lo, r.value.0, r.value.1, call, addr, val)
  {
    var exchange := !toThumb && call;
    var x := FinalOffset(hi, lo, addr, val, exchange);
    if !toThumb || x >= 0x100_0000 || x < -0x100_0000 {
      if toThumb || val / 2 % 2 == 1 || (!call && !toPlt) { return None; }
    }
    var h, l := PackThumb(hi, lo, x, exchange);
    r := Some((h, l));
  }

  method RelocateThumb(hi: Half, lo: Half, call: bool, toPlt: bool, addr: Word, target: Word, size: Size)
    returns (r: Option<(Half, Half)>)
    ensures r.None? <==> ThumbFatal(hi, lo, call, toPlt, addr, ThumbTarget(call, toPlt, target, size))
    ensures r.Some? ==> ThumbRelocated(hi, lo, r.value.0, r.value.1, call, addr, ThumbTarget(call, toPlt, target, size))
  {
    var val, toThumb := target, target % 2 == 1;
    if !toThumb && !toPlt && !call {
      OddNext(size);
      val, toThumb := size + 1, true;
    }
    r := RelocateTo(hi, lo, call, toPlt, addr, val, toThumb);
  }

  method CutThumb(u: int) returns (s: int, i1: int, i2: int, imm10: int, imm11: int)
    requires 0 <= u < 0x200_0000
    ensures 0 <= s < 2 && 0 <= i1 < 2 && 0 <= i2 < 2 && 0 <= imm10 < 0x400 && 0 <= imm11 < 0x800
    ensures s * 0x100_0000 + i1 * 0x80_0000 + i2 * 0x40_0000 + imm10 * 0x1000 + imm11 * 2 == u - u % 2
  {
    ThumbCut(u);
    s, i1, i2, imm10, imm11 := u / 0x100_0000, u / 0x80_0000 % 2, u / 0x40_0000 % 2, u / 0x1000 % 0x400, u / 2 % 0x800;
  }

  method PackThumb(hi: Half, lo: Half, x: int, exchange: bool) returns (h: Half, l: Half)
    ensures ThumbDisplacement(h, l) == Signed25(x % 0x200_0000 - x % 2) && (l / 0x1000 % 2 == 0 <==> exchange)
    ensures SameOpcode(hi, lo, h, l)
  {
    SameParity(x, x / 0x200_0000, x % 0x200_0000);
    var s, i1, i2, imm10, imm11 := CutThumb(x % 0x200_0000);
    HighParts(hi, s, imm10, ThumbHigh(hi, s, imm10));
    LowParts(lo / 0x4000, Xor1(s, Xor1(i1, 1)), if exchange then 0 else 1, Xor1(s, Xor1(i2, 1)), imm11,
             ThumbLow(lo, s, i1, i2, imm11, exchange));
    h, l := ThumbHigh(hi, s, imm10), ThumbLow(lo, s, i1, i2, imm11, exchange);
    ThumbRoundTrip(hi, lo, s, i1, i2, imm10, imm11, exchange, h, l);
  }

  /** The branch goes where it should exactly when the displacement is in range. For Thumb targets the range has been
      tested; for ARM targets it has not. */
  lemma ThumbExact(x: int)
    ensures Signed25(x % 0x200_0000 - x % 2) == x - x % 2 <==> -0x100_0000 <= x < 0x100_0000
  {
    var q, u, e := x / 0x200_0000, x % 0x200_0000, x % 2;
    SameParity(x, q, u);
    WrapExact(x, q, u, e);
  }

  /** A branch to a Thumb target fails exactly when no pair of halfwords has the displacement. */
  lemma ThumbFailsExactly(call: bool, toPlt: bool, val: Word, x: int)
    ensures ThumbFails(true, call, toPlt, val, x) <==>
            !exists h: Half, l: Half :: ThumbDisplacement(h, l) == x - x % 2
  {
    if -0x100_0000 <= x < 0x100_0000 {
      var h, l := ThumbEncoded(x);
    } else {
      forall h: Half, l: Half ensures ThumbDisplacement(h, l) != x - x % 2 {
        EvenDisplacement(h, l);
      }
    }
  }

  lemma ThumbEncoded(x: int) returns (h: Half, l: Half)
    requires -0x100_0000 <= x < 0x100_0000
    ensures ThumbDisplacement(h, l) == x - x % 2
  {
    var u := x % 0x200_0000;
    ThumbCut(u);
    SameParity(x, x / 0x200_0000, u);
    var s, i1, i2 := u / 0x100_0000, u / 0x80_0000 % 2, u / 0x40_0000 % 2;
    var imm10, imm11 := u / 0x1000 % 0x400, u / 2 % 0x800;
    var hi, lo := ThumbHigh(0, s, imm10), ThumbLow(0, s, i1, i2, imm11, false);
    HighParts(0, s, imm10, hi);
    LowParts(0, Xor1(s, Xor1(i1, 1)), 1, Xor1(s, Xor1(i2, 1)), imm11, lo);
    h, l := hi, lo;
    ThumbRoundTrip(0, 0, s, i1, i2, imm10, imm11, false, h, l);
    ThumbExact(x);
  }

  /** A relocated branch that stays in Thumb state reaches its target, bit 0 apart, exactly when it is in range; the
      range has been tested for Thumb targets, not for a jump to the linkage table. */
  lemma ThumbReaches(hi: Half, lo: Half, h: Half, l: Half, call: bool, toPlt: bool, addr: Word, val: Word)
    requires !Exchanges(call, val) && ThumbRelocated(hi, lo, h, l, call, addr, val)
    ensures var x := ThumbWanted(hi, lo, addr, val, false);
            ThumbDisplacement(h, l) == x - x % 2 <==> -0x100_0000 <= x < 0x100_0000
    ensures val % 2 == 1 && !ThumbFatal(hi, lo, call, toPlt, addr, val) ==>
              ThumbDisplacement(h, l) == Target(ThumbWanted(hi, lo, addr, val, false), val)
    ensures l / 0x1000 % 2 == 1
  {
    ThumbExact(ThumbWanted(hi, lo, addr, val, false));
  }

  lemma SameParity(x: int, q: int, u: int)
    requires x == q * 0x200_0000 + u
    ensures u % 2 == x % 2
  {
    assert x / 2 == q * 0x100_0000 + u / 2;
  }

  lemma WrapExact(x: int, q: int, u: int, e: int)
    requires x == q * 0x200_0000 + u && 0 <= u < 0x200_0000 && e == u % 2
    ensures Signed25(u - e) == x - e <==> -0x100_0000 <= x < 0x100_0000
  {
    if u < 0x100_0000 {
      assert Signed25(u - e) == u - e;
    } else {
      assert u - e >= 0x100_0000;
    }
  }

  // ---- Thumb calls of ARM code ----

  /** Where BLX at `addr` with displacement d goes: it counts from the aligned pc. */
  function BlxTarget(addr: Word, d: int): Word { (addr + 4 - addr % 4 + d) % W32 }

  /** The target, moved by what the addend a differs from -4, the pc's lead over the instruction. */
  function ArmTarget(a: int, val: Word): Word { (val + a + 4) % W32 }

  lemma EvenDisplacement(h: Half, l: Half)
    ensures ThumbDisplacement(h, l) % 2 == 0 && -0x100_0000 <= ThumbDisplacement(h, l) < 0x100_0000
  {
  }

  lemma ToIntShift(x: int) returns (k: int)
    ensures ToInt(x) == x - k * W32 && -0x8000_0000 <= ToInt(x) < 0x8000_0000
  {
    k := if x % W32 < 0x8000_0000 then x / W32 else x / W32 + 1;
  }

  /** The 25 bits that are encoded lose a multiple of 2^25, which is zero exactly in range. */
  lemma EncodedShift(y: int, q: int) returns (j: int)
    requires y == 2 * q && -0x8000_0000 <= y < 0x8000_0000
    ensures Signed25(y % 0x200_0000 - y % 2) == y - j * 0x200_0000
    ensures j == 0 <==> -0x100_0000 <= y < 0x100_0000
    ensures -W32 + 2 < j * 0x200_0000 < W32 - 2
  {
    ThumbExact(y);
    j := if y % 0x200_0000 < 0x100_0000 then y / 0x200_0000 else y / 0x200_0000 + 1;
  }

  /** What rounding up to a multiple of four adds is what aligning the pc takes away, for addends of whole words. */
  lemma RoundedUp(n: int, f: int, e: int, x: int)
    requires (f == 0 || f == 2) && (e == 0 || e == 2) && x == 4 * n + f - e
    ensures x + 3 - (x + 3) % 4 == x + if f == e then 0 else 2
  {
    if f == e {
      assert (x + 3) % 4 == 3;
    } else if f == 2 {
      assert (x + 3) / 4 == n + 1;
    } else {
      assert (x + 3) / 4 == n;
    }
  }

  lemma EvenRest(x: int)
    requires x % 2 == 0
    ensures x == x / 4 * 4 + x % 4 && (x % 4 == 0 || x % 4 == 2)
  {
  }

  lemma AlignedShift(a: int, addr: Word, val: Word, e: int, f: int) returns (k: int)
    requires a % 2 == 0 && addr % 2 == 0 && val % 4 == 0 && e == addr % 4 && f == a % 4
    ensures (e == 0 || e == 2) && (f == 0 || f == 2)
    ensures Aligned(a, addr, val) == a + val - addr + (if f == e then 0 else 2) - k * W32
  {
    EvenRest(a);
    EvenRest(addr);
    var x := ToInt(a + val - addr);
    var k0 := ToIntShift(a + val - addr);
    var n := a / 4 + val / 4 - addr / 4 - k0 * 0x4000_0000;
    RoundedUp(n, f, e, x);
    var k1 := ToIntShift(x + 3 - (x + 3) % 4);
    k := k0 + k1;
  }

  lemma ModDiffer(x: int, d: int, k: int)
    requires -W32 < d < W32
    ensures (x + d - k * W32) % W32 == x % W32 <==> d == 0
  {
    var q, u := x / W32, x % W32;
    var e := u + d;
    assert x + d - k * W32 == e + (q - k) * W32;
    ModShift(e, q - k);
  }

  lemma ModShift(e: int, k: int)
    ensures (e + k * W32) % W32 == e % W32
  {
  }

  lemma HalfOf(x: int) returns (h: int)
    requires x % 2 == 0
    ensures x == 2 * h
  {
    h := x / 2;
  }

  lemma EvenWanted(a: int, val: Word, addr: Word, r: int, k: int, y: int) returns (q: int)
    requires a % 2 == 0 && val % 4 == 0 && addr % 2 == 0 && (r == 0 || r == 2) && y == a + val - addr + r - k * W32
    ensures y == 2 * q
  {
    EvenOfFour(val);
    var ha := HalfOf(a);
    var hv := HalfOf(val);
    var hb := HalfOf(addr);
    q := ha + hv - hb + (if r == 0 then 0 else 1) - k * 0x8000_0000;
  }

  /** The target modulo 2^32, with every rounding and wrap-around written out. */
  lemma ReachesExact(val: Word, a: int, addr: Word, e: int, f: int, k: int, y: int, j: int, d: int)
    requires (e == 0 || e == 2) && (f == 0 || f == 2)
    requires y == a + val - addr + (if f == e then 0 else 2) - k * W32 && d == y - j * 0x200_0000
    requires -W32 + 2 < j * 0x200_0000 < W32 - 2
    ensures (addr + 4 - e + d) % W32 == (val + a + 4) % W32 <==> f == 0 && j == 0
  {
    var x, delta := val + a + 4, (if f == e then 0 else 2) - e - j * 0x200_0000;
    assert addr + 4 - e + d == x + delta - k * W32;
    ModDiffer(x, delta, k);
  }

  /** With the displacement d as encoded. */
  lemma CallExact(a: int, addr: Word, val: Word, y: int, d: int)
    requires a % 2 == 0 && addr % 2 == 0 && val % 4 == 0 && y == Aligned(a, addr, val)
    requires d == Signed25(y % 0x200_0000 - y % 2)
    ensures BlxTarget(addr, d) == ArmTarget(a, val) <==> a % 4 == 0 && -0x100_0000 <= y < 0x100_0000
  {
    var e, f := addr % 4, a % 4;
    var k := AlignedShift(a, addr, val, e, f);
    var q := EvenWanted(a, val, addr, if f == e then 0 else 2, k, y);
    ToIntRange(y, a, addr, val);
    var j := EncodedShift(y, q);
    ReachesExact(val, a, addr, e, f, k, y, j, d);
  }

  lemma ToIntRange(y: int, a: int, addr: Word, val: Word)
    requires y == Aligned(a, addr, val)
    ensures -0x8000_0000 <= y < 0x8000_0000
  {
  }

  lemma CallEncoded(hi: Half, lo: Half, h: Half, l: Half, addr: Word, val: Word)
    requires val % 4 == 0 && ThumbRelocated(hi, lo, h, l, true, addr, val)
    ensures ThumbWanted(hi, lo, addr, val, true) == Aligned(ThumbDisplacement(hi, lo), addr, val)
    ensures var y := ThumbWanted(hi, lo, addr, val, true); ThumbDisplacement(h, l) == Signed25(y % 0x200_0000 - y % 2)
    ensures l / 0x1000 % 2 == 0
  {
    EvenOfFour(val);
    assert Exchanges(true, val);
  }

  lemma EvenOfFour(x: int)
    requires x % 4 == 0
    ensures x % 2 == 0
  {
    assert x == 2 * (x / 4 * 2);
  }

  /** A relocated call of ARM code is BLX, and reaches its target exactly when the addend is a multiple of four and the
      displacement is in range; the relocation tests neither. */
  lemma ThumbCallsArm(hi: Half, lo: Half, h: Half, l: Half, addr: Word, val: Word)
    requires addr % 2 == 0 && val % 4 == 0 && ThumbRelocated(hi, lo, h, l, true, addr, val)
    ensures l / 0x1000 % 2 == 0
    ensures BlxTarget(addr, ThumbDisplacement(h, l)) == ArmTarget(ThumbDisplacement(hi, lo), val) <==>
              ThumbDisplacement(hi, lo) % 4 == 0 && -0x100_0000 <= ThumbWanted(hi, lo, addr, val, true) < 0x100_0000
  {
    EvenDisplacement(hi, lo);
    CallEncoded(hi, lo, h, l, addr, val);
    CallExact(ThumbDisplacement(hi, lo), addr, val, ThumbWanted(hi, lo, addr, val, true), ThumbDisplacement(h, l));
  }

  /** BL with the usual addend of -4: the target itself is reached exactly when it is within
      16 MiB of the aligned pc. */
  lemma UsualCall(hi: Half, lo: Half, addr: Word, val: Word, h: Half, l: Half)
    requires ThumbDisplacement(hi, lo) == -4
    requires addr % 2 == 0 && val % 4 == 0 && ThumbRelocated(hi, lo, h, l, true, addr, val)
    ensures BlxTarget(addr, ThumbDisplacement(h, l)) == val <==>
              -0x100_0000 <= ToInt(val - (addr + 4 - addr % 4)) < 0x100_0000
  {
    var d, y := ThumbDisplacement(h, l), ThumbWanted(hi, lo, addr, val, true);
    CallEncoded(hi, lo, h, l, addr, val);
    CallExact(-4, addr, val, y, d);
    SameDistance(addr, val);
    TargetItself(val);
  }

  lemma TargetItself(val: Word)
    ensures ArmTarget(-4, val) == val
  {
  }

  lemma UsualAddend(hi: Half, lo: Half)
    requires hi == 0xf7ff && lo == 0xfffe
    ensures ThumbDisplacement(hi, lo) == -4
  {
    assert hi / 0x400 % 2 == 1 && hi % 0x400 == 0x3ff;
    assert lo / 0x2000 % 2 == 1 && lo / 0x800 % 2 == 1 && lo % 0x800 == 0x7fe;
  }

  lemma SameDistance(addr: Word, val: Word)
    requires addr % 2 == 0 && val % 4 == 0
    ensures Aligned(-4, addr, val) == ToInt(val - (addr + 4 - addr % 4))
  {
    var e := addr % 4;
    var k := AlignedShift(-4, addr, val, e, 0);
    var x := val - (addr + 4 - e);
    var j := ToIntShift(x);
    ToIntRange(Aligned(-4, addr, val), -4, addr, val);
    OneInt(x, k, j);
  }

  lemma OneInt(x: int, k: int, j: int)
    requires -0x8000_0000 <= x - k * W32 < 0x8000_0000 && -0x8000_0000 <= x - j * W32 < 0x8000_0000
    ensures k == j
  {
  }

  /** A call from Thumb code at 0x8000 to the ARM function at 0x2008000 is relocated without an error, to the wrong
      place. */
  lemma DistantArmTarget(hi: Half, lo: Half, h: Half, l: Half, addr: Word, val: Word)
    requires hi == 0xf7ff && lo == 0xfffe && addr == 0x8000 && val == 0x200_8000
    ensures !ThumbFatal(hi, lo, true, false, addr, val)
    ensures ThumbRelocated(hi, lo, h, l, true, addr, val) ==> BlxTarget(addr, ThumbDisplacement(h, l)) != val
  {
    UsualAddend(hi, lo);
    assert Aligned(-4, addr, val) == 0x1ff_fffc;
    if ThumbRelocated(hi, lo, h, l, true, addr, val) { UsualCall(hi, lo, addr, val, h, l); }
  }

  // ---- Thumb jumps to ARM code ----

  /** Where a Thumb branch at `addr` with displacement d goes. */
  function BranchTarget(addr: Word, d: int): Word { (addr + 4 + d) % W32 }

  /** The stub in a section at `start`, moved by what the addend a differs from -4. */
  function StubTarget(start: Word, size: Size, a: int): Word { (start + size + a + 4) % W32 }

  /** A jump to ARM code that is relocated without an error reaches its stub exactly when the section lies at 0. */
  lemma StubReached(hi: Half, lo: Half, h: Half, l: Half, addr: Word, start: Word, size: Size)
    requires addr % 2 == 0 && ThumbRelocated(hi, lo, h, l, false, addr, size + 1)
    requires !ThumbFatal(hi, lo, false, false, addr, size + 1)
    ensures BranchTarget(addr, ThumbDisplacement(h, l)) == StubTarget(start, size, ThumbDisplacement(hi, lo)) <==>
              start == 0
  {
    var a := ThumbDisplacement(hi, lo);
    EvenDisplacement(hi, lo);
    OddNext(size);
    var x := ThumbWanted(hi, lo, addr, size + 1, false);
    var k := ToIntShift(a + size + 1 - addr);
    OddWanted(a, size, addr, x, k);
    ThumbExact(x);
    StubShift(a, size, addr, start, k);
  }

  /** A jump at 0x8000, in a section that starts there and has 0x100 bytes so far, is relocated without an error and
      misses its stub. */
  lemma StubMissed(hi: Half, lo: Half, h: Half, l: Half, addr: Word, start: Word, size: Size)
    requires hi == 0xf7ff && lo == 0xbffe && addr == start == 0x8000 && size == 0x100
    ensures !ThumbFatal(hi, lo, false, false, addr, size + 1)
    ensures ThumbRelocated(hi, lo, h, l, false, addr, size + 1) ==>
              BranchTarget(addr, ThumbDisplacement(h, l)) != StubTarget(start, size, -4)
  {
    assert hi / 0x400 % 2 == 1 && hi % 0x400 == 0x3ff;
    assert lo / 0x2000 % 2 == 1 && lo / 0x800 % 2 == 1 && lo % 0x800 == 0x7fe;
    assert ThumbDisplacement(hi, lo) == -4;
    if ThumbRelocated(hi, lo, h, l, false, addr, size + 1) { StubReached(hi, lo, h, l, addr, start, size); }
  }

  lemma OddWanted(a: int, size: Size, addr: Word, x: int, k: int)
    requires a % 2 == 0 && addr % 2 == 0 && x == a + size + 1 - addr - k * W32
    ensures x % 2 == 1
  {
    var ha := HalfOf(a);
    var hs := HalfOf(size);
    var hb := HalfOf(addr);
    assert x == 2 * (ha + hs - hb - k * 0x8000_0000) + 1;
  }

  lemma StubShift(a: int, size: Size, addr: Word, start: Word, k: int)
    ensures (addr + 4 + (a + size - addr - k * W32)) % W32 == (start + size + a + 4) % W32 <==> start == 0
  {
    var x := size + a + 4;
    ModDiffer(x, start, 0);
    ModDiffer(x, 0, k);
    assert addr + 4 + (a + size - addr - k * W32) == x + 0 - k * W32;
    assert start + size + a + 4 == x + start - 0 * W32;
  }

  // ---- In place ----

  datatype Reloc =
    | Branch(kind: Kind, blx: bool)                         // A32
    | ThumbBranch(call: bool, toPlt: bool, size: Size)      // PC22, or JUMP24

  function First(w: Word): Half { w % 0x1_0000 }

  function Second(w: Word): Half { w / 0x1_0000 }

  lemma Halves(h: Half, l: Half, w: int)
    requires w == h + l * 0x1_0000
    ensures 0 <= w < W32 && w % 0x1_0000 == h && w / 0x1_0000 == l
  {
  }

  predicate Fatal(w: Word, reloc: Reloc, addr: Word, val: Word) {
    match reloc
    case Branch(kind, blx) => Fails(w, kind, blx, Wanted(w, addr, val))
    case ThumbBranch(call, toPlt, size) =>
      ThumbFatal(First(w), Second(w), call, toPlt, addr, ThumbTarget(call, toPlt, val, size))
  }

  /** The branch w became w'. */
  predicate Relocated(w: Word, w': Word, reloc: Reloc, addr: Word, val: Word) {
    match reloc
    case Branch(kind, blx) => ArmRelocated(w, w', addr, val)
    case ThumbBranch(call, toPlt, size) =>
      ThumbRelocated(First(w), Second(w), First(w'), Second(w'), call, addr, ThumbTarget(call, toPlt, val, size))
  }

  /** The word after a Thumb relocation; its halfwords lie in memory first half first. */
  method RelocateHalves(w: Word, call: bool, toPlt: bool, size: Size, addr: Word, val: Word) returns (r: Option<Word>)
    ensures r.None? <==> Fatal(w, ThumbBranch(call, toPlt, size), addr, val)
    ensures r.Some? ==> Relocated(w, r.value, ThumbBranch(call, toPlt, size), addr, val)
  {
    var hi, lo := First(w), Second(w);
    var q := RelocateThumb(hi, lo, call, toPlt, addr, val, size);
    if q.None? { return None; }
    var h: int, l: int := q.value.0, q.value.1;
    var x := h + l * 0x1_0000;
    Halves(h, l, x);
    r := Some(x);
  }

  /** The branch cases of `relocate`, on the instruction at `p`. */
  method Relocate(text: Text<Byte>, p: nat, reloc: Reloc, addr: Word, val: Word) returns (ok: bool)
    requires p + 4 <= |text.data|
    modifies text
    ensures OutsideSame(old(text.data), text.data, p, p + 4)
    ensures ok <==> !Fatal(old(Read32(text.data, p)), reloc, addr, val)
    ensures ok ==> Relocated(old(Read32(text.data, p)), Read32(text.data, p), reloc, addr, val)
  {
    var w := Read32(text.data, p);
    var r: Option<Word>;
    match reloc {
      case Branch(kind, blx) => r := RelocateArm(w, kind, blx, addr, val);
      case ThumbBranch(call, toPlt, size) => r := RelocateHalves(w, call, toPlt, size, addr, val);
    }
    ok := r.Some?;
    if ok { Put(text, p, r.value); }
  }
}
