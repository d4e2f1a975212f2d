/** The stack adjustment that gfunc_epilog writes into the prolog of an A64 function. */
module Epilog64 {
  import opened Base
  import opened CodeBytes
  import opened Patch
  import opened Text

  // ---- The instructions used ----

  const NOP: Word := 0xd503_201f

  datatype Machine = Machine(sp: int, x16: int)

  /** 2^(16 * hw). */
  function Lane(hw: nat): nat {
    if hw == 0 then 1 else if hw == 1 then 0x1_0000 else if hw == 2 then 0x1_0000_0000 else 0x1_0000_0000_0000
  }

  /** 2^n for the shifts of an extended register. */
  function Shifted(n: nat): nat {
    if n == 0 then 1 else if n == 1 then 2 else if n == 2 then 4 else if n == 3 then 8 else if n == 4 then 16 else 32
  }

  /** NOP, SUB sp,sp,#imm{,lsl #12}, MOVZ x16,#imm,lsl #(16 * hw) and SUB sp,sp,x16,uxtx #n; None for anything else,
      and for a shift by more than four, which is not an instruction. */
  function Step(w: Word, m: Machine): Option<Machine> {
    if w == NOP then Some(m)
    else if w / 0x40_0000 == 0x344 && w % 0x400 == 0x3ff then Some(m.(sp := (m.sp - w / 0x400 % 0x1000) % W64))
    else if w / 0x40_0000 == 0x345 && w % 0x400 == 0x3ff then Some(m.(sp := (m.sp - w / 0x400 % 0x1000 * 0x1000) % W64))
    else if w / 0x80_0000 == 0x1a5 && w % 0x20 == 16 then
      Some(m.(x16 := w / 0x20 % 0x1_0000 * Lane(w / 0x20_0000 % 4)))
    else if w / 0x2000 == 0x6_5983 && w % 0x400 == 0x3ff && w / 0x400 % 8 <= 4 then
      Some(m.(sp := (m.sp - m.x16 * Shifted(w / 0x400 % 8)) % W64))
    else None
  }

  /** The two words one after the other. */
  function Run(w0: Word, w1: Word, m: Machine): Option<Machine> {
    match Step(w0, m)
    case Some(n) => Step(w1, n)
    case None => None
  }

  predicate Lowers(w0: Word, w1: Word, s: int, m: Machine) {
    var r := Run(w0, w1, m);
    r.Some? && r.value.sp % W64 == (m.sp - s) % W64
  }

  ghost predicate Subtracts(w0: Word, w1: Word, s: int) {
    forall m: Machine :: Lowers(w0, w1, s, m)
  }

  lemma SubLow(n: nat, m: Machine)
    requires n < 0x1000
    ensures Step(0xd100_03ff + n * 0x400, m) == Some(m.(sp := (m.sp - n) % W64))
  {
    var w := 0xd100_03ff + n * 0x400;
    assert w / 0x400 == 0x34_4000 + n;
    assert w / 0x40_0000 == 0x344;
  }

  lemma SubHigh(n: nat, m: Machine)
    requires n < 0x1000
    ensures Step(0xd140_03ff + n * 0x400, m) == Some(m.(sp := (m.sp - n * 0x1000) % W64))
  {
    var w := 0xd140_03ff + n * 0x400;
    assert w / 0x400 == 0x34_5000 + n;
    assert w / 0x40_0000 == 0x345;
  }

  lemma MovFields(n: nat, hw: nat, w: int)
    requires n < 0x1_0000 && hw < 4 && w == 0xd280_0010 + n * 0x20 + hw * 0x20_0000
    ensures 0 <= w < 0x1_0000_0000 && w / 0x80_0000 == 0x1a5 && w % 0x20 == 16 && w / 0x20 % 0x1_0000 == n &&
            w / 0x20_0000 % 4 == hw
    ensures w / 0x40_0000 != 0x344 && w / 0x40_0000 != 0x345 && w != NOP
  {
    var h := w / 0x20;
    assert h == 0x694_0000 + n + hw * 0x1_0000;
    assert h / 0x1_0000 == 0x694 + hw && w / 0x20_0000 == h / 0x1_0000;
    assert w / 0x80_0000 == (0x694 + hw) / 4;
  }

  lemma MovExecutes(n: nat, hw: nat, w: Word, m: Machine)
    requires n < 0x1_0000 && hw < 4 && w == 0xd280_0010 + n * 0x20 + hw * 0x20_0000
    ensures Step(w, m) == Some(m.(x16 := n * Lane(hw)))
  {
    MovFields(n, hw, w);
  }

  lemma SubExtended(n: nat, w: Word, m: Machine)
    requires n <= 4 && w == 0xcb30_63ff + n * 0x400
    ensures Step(w, m) == Some(m.(sp := (m.sp - m.x16 * Shifted(n)) % W64))
  {
    assert w / 0x400 == 0x32_cc18 + n;
    assert w / 0x2000 == 0x6_5983;
  }

  // ---- Rounding ----

  /** v units of p bytes are the least that hold d. */
  predicate Covers(v: int, p: int, d: int) { p > 0 && (v - 1) * p < d <= v * p }

  /** Rounding v up to a multiple of k. */
  lemma RoundUp(v: int, p: int, d: int, k: int, v': int, p': int)
    requires Covers(v, p, d) && k > 0 && p' == k * p && v <= v' * k <= v + k - 1
    ensures Covers(v', p', d)
  {
    assert v' * p' == v' * k * p;
    Scale(v, v' * k, p);
    Scale((v' - 1) * k, v - 1, p);
    assert (v' - 1) * p' == (v' - 1) * k * p;
  }

  lemma Scale(a: int, b: int, p: int)
    requires a <= b && p > 0
    ensures a * p <= b * p
  {
    assert (b - a) * p >= 0;
  }

  /** If rounding costs less than a sixteenth in units, it does in bytes. */
  lemma LittleLost(v: int, p: int, d: int, k: int, v': int, p': int)
    requires Covers(v, p, d) && k > 0 && p' == k * p && 16 * (v' * k) <= 17 * (v - 1)
    ensures 16 * (v' * p') < 17 * d
  {
    assert v' * p' == v' * k * p;
    Scale(16 * (v' * k), 17 * (v - 1), p);
    assert 16 * (v' * k) * p == 16 * (v' * k * p);
    assert 17 * (v - 1) * p == 17 * ((v - 1) * p);
  }

  lemma SixteenBits(v: int)
    requires v >= 0x10_0000
    ensures var v' := (v + 0xffff) / 0x1_0000; v <= v' * 0x1_0000 <= v + 0xffff && 16 * (v' * 0x1_0000) <= 17 * (v - 1)
  {
    var v' := (v + 0xffff) / 0x1_0000;
    if v <= 0x10_0001 { assert v' == if v == 0x10_0000 then 16 else 17; }
  }

  lemma OneBit(v: int)
    requires v >= 0x1_0000
    ensures var v' := (v + 1) / 2; v <= v' * 2 <= v + 1 && 16 * (v' * 2) <= 17 * (v - 1)
  {
  }

  /** The largest size whose rounding stays below 2^64. */
  const ROUNDABLE: int := 0xffff_ffff_ffff_0000

  /** What `DropLanes` keeps of a size that it can round: v lanes of index i cover d, with less than a sixteenth
      lost. */
  ghost predicate Dropped(d: int, v: int, i: nat) {
    i <= 3 && Covers(v, Lane(i), d) && (i == 0 ==> v == d) && (i > 0 ==> 16 * (v * Lane(i)) < 17 * d) &&
    v <= (if i == 0 then ROUNDABLE else if i == 1 then 0xffff_ffff_ffff else if i == 2 then 0x1_0000_0000 else 0x1_0000)
  }

  lemma DropLane(d: int, v: int, i: nat, v': int)
    requires Dropped(d, v, i) && v >= 0x10_0000 && v' == (v + 0xffff) % W64 / 0x1_0000
    ensures i < 3 && Dropped(d, v', i + 1) && 0 < v' < v
  {
    assert v + 0xffff < W64;
    SixteenBits(v);
    RoundUp(v, Lane(i), d, 0x1_0000, v', Lane(i + 1));
    LittleLost(v, Lane(i), d, 0x1_0000, v', Lane(i + 1));
  }

  /** The first loop: whole lanes, while more than 20 bits are left. Rounding loses less than a sixteenth, but the
      sum wraps around for the sizes within 2^16 of 2^64. */
  method DropLanes(d: int) returns (v: int, i: nat)
    requires 0x100_0000 <= d < W64
    ensures d > ROUNDABLE ==> v == 0 && i == 1
    ensures d <= ROUNDABLE ==>
              1 <= i <= 3 && 0 < v < 0x10_0000 && Covers(v, Lane(i), d) && 16 * (v * Lane(i)) < 17 * d
    ensures d <= 0x8000_0000 ==> i == 1 && v <= 0x8000
    ensures d <= ROUNDABLE ==>
              (i >= 2 ==> d > 0xf_ffff_0000) && (i == 3 ==> d > 0xf_ffff_0000_0000 && v <= 0x1_0000)
    ensures d == WRAPPED ==> v == 0x1_0000 && i == 3
  {
    v, i := d, 0;
    while v >= 0x10_0000
      invariant if d <= ROUNDABLE then Dropped(d, v, i) else (i == 0 && v == d) || (i == 1 && v == 0)
      invariant d <= ROUNDABLE ==> (i >= 2 ==> d > 0xf_ffff_0000) && (i == 3 ==> d > 0xf_ffff_0000_0000)
      invariant d <= 0x8000_0000 && i > 0 ==> i == 1 && v <= 0x8000
      invariant d == WRAPPED ==> v == WrappedAfter(i)
      decreases v
    {
      ghost var v0 := v;
      v := (v + 0xffff) % W64 / 0x1_0000;
      if d <= ROUNDABLE { DropLane(d, v0, i, v); }
      i := i + 1;
    }
  }

  /** The second loop: single bits, down to 16. A fifth halving is needed just when the four others round up to 2^16. */
  method DropBits(v0: int, ghost p0: int, ghost d: int) returns (v: int, j: nat)
    requires 0 <= v0 < 0x10_0000 && (v0 > 0 ==> Covers(v0, p0, d) && 16 * (v0 * p0) < 17 * d)
    ensures v0 > 0 ==>
              0 < v < 0x1_0000 && j <= 5 && Covers(v, p0 * Shifted(j), d) && 16 * (v * (p0 * Shifted(j))) < 17 * d
    ensures j == 5 <==> v0 > 0xf_fff0
    ensures v0 <= 0x8000 ==> j == 0 && v == v0
    ensures v0 == 0x1_0000 ==> j == 1 && v == 0x8000
  {
    v, j := v0, 0;
    ghost var p := p0;
    while v >= 0x1_0000
      invariant j <= 5 && p == p0 * Shifted(j) && (v0 > 0 ==> 0 < v && Covers(v, p, d) && 16 * (v * p) < 17 * d)
      invariant (v - 1) * Shifted(j) < v0 <= v * Shifted(j) && (j == 5 ==> v < 0x1_0000)
      invariant j > 0 ==> v0 > 0xffff * Shifted(j - 1)
      invariant (j == 0 ==> v == v0) && (j > 0 && v0 == 0x1_0000 ==> j == 1 && v == 0x8000)
      decreases v
    {
      OneBit(v);
      ghost var v1 := v;
      v := (v + 1) / 2;
      RoundUp(v1, p, d, 2, v, 2 * p);
      LittleLost(v1, p, d, 2, v, 2 * p);
      p := 2 * p;
      j := j + 1;
    }
  }

  lemma Multiple(v: int, i: nat, j: nat)
    requires 1 <= i <= 3 && j <= 5
    ensures v * (Lane(i) * Shifted(j)) % 16 == 0
  {
    var q := if i == 1 then 0x1000 else if i == 2 then 0x1000_0000 else 0x1000_0000_0000;
    assert Lane(i) == 16 * q;
    assert v * (Lane(i) * Shifted(j)) == 16 * (v * (q * Shifted(j)));
  }

  lemma LowStep(lo: nat, w: Word, m: Machine)
    requires lo < 0x1000 && w == if lo == 0 then NOP else 0xd100_03ff + lo * 0x400
    ensures Step(w, m).Some? && Step(w, m).value.sp % W64 == (m.sp - lo) % W64
  {
    if lo != 0 { SubLow(lo, m); }
  }

  lemma HighStep(hi: nat, w: Word, m: Machine)
    requires hi < 0x1000 && w == if hi == 0 then NOP else 0xd140_03ff + hi * 0x400
    ensures Step(w, m).Some? && Step(w, m).value.sp % W64 == (m.sp - hi * 0x1000) % W64
  {
    if hi != 0 { SubHigh(hi, m); }
  }

  lemma SmallRunsAt(lo: nat, hi: nat, w0: Word, w1: Word, m: Machine)
    requires lo < 0x1000 && hi < 0x1000
    requires w0 == if lo == 0 then NOP else 0xd100_03ff + lo * 0x400
    requires w1 == if hi == 0 then NOP else 0xd140_03ff + hi * 0x400
    ensures Lowers(w0, w1, hi * 0x1000 + lo, m)
  {
    LowStep(lo, w0, m);
    var n := Step(w0, m).value;
    HighStep(hi, w1, n);
    SubtractTwice(m.sp, n.sp, Step(w1, n).value.sp, lo, hi * 0x1000);
  }

  lemma SubtractTwice(x: int, y: int, z: int, a: int, b: int)
    requires y % W64 == (x - a) % W64 && z % W64 == (y - b) % W64
    ensures z % W64 == (x - (a + b)) % W64
  {
    TwoSteps(y, 0, b);
    TwoSteps(x, a, b);
  }

  lemma SmallRuns(d: int, w0: Word, w1: Word, lo: nat, hi: nat)
    requires lo < 0x1000 && hi < 0x1000 && d == hi * 0x1000 + lo
    requires w0 == if lo == 0 then NOP else 0xd100_03ff + lo * 0x400
    requires w1 == if hi == 0 then NOP else 0xd140_03ff + hi * 0x400
    ensures Subtracts(w0, w1, d)
  {
    forall m: Machine ensures Lowers(w0, w1, d, m) { SmallRunsAt(lo, hi, w0, w1, m); }
  }

  lemma TwoSteps(sp: int, a: int, b: int)
    ensures ((sp - a) % W64 - b) % W64 == (sp - (a + b)) % W64
    ensures sp % W64 % W64 == sp % W64
  {
  }

  lemma LargeRunsAt(v: int, i: nat, j: nat, w0: Word, w1: Word, x: int, s: int, m: Machine)
    requires 0 < v < 0x1_0000 && 1 <= i <= 3 && j <= 4 && x == v * Lane(i) && s == x * Shifted(j)
    requires w0 == 0xd280_0010 + v * 0x20 + i * 0x20_0000 && w1 == 0xcb30_63ff + j * 0x400
    ensures Lowers(w0, w1, s, m)
  {
    MovExecutes(v, i, w0, m);
    SubExtended(j, w1, m.(x16 := x));
    TwoSteps(m.sp - s, 0, 0);
  }

  lemma LargeFails(v: int, i: nat, w0: Word, w1: Word, s: int, m: Machine)
    requires 0 < v < 0x1_0000 && 1 <= i <= 3
    requires w0 == 0xd280_0010 + v * 0x20 + i * 0x20_0000 && w1 == 0xcb30_63ff + 5 * 0x400
    ensures !Lowers(w0, w1, s, m)
  {
    MovExecutes(v, i, w0, m);
    NotAnInstruction(w1, m.(x16 := v * Lane(i)));
  }

  lemma LargeRuns(v: int, i: nat, j: nat, w0: Word, w1: Word, s: int)
    requires 0 < v < 0x1_0000 && 1 <= i <= 3 && j <= 5 && s == v * (Lane(i) * Shifted(j))
    requires w0 == 0xd280_0010 + v * 0x20 + i * 0x20_0000 && w1 == 0xcb30_63ff + j * 0x400
    ensures Subtracts(w0, w1, s) <==> j <= 4
  {
    if j <= 4 {
      assert v * Lane(i) * Shifted(j) == s;
      forall m: Machine ensures Lowers(w0, w1, s, m) { LargeRunsAt(v, i, j, w0, w1, v * Lane(i), s, m); }
    } else {
      LargeFails(v, i, w0, w1, s, Machine(0, 0));
    }
  }

  lemma NotAnInstruction(w: Word, m: Machine)
    requires w == 0xcb30_63ff + 5 * 0x400
    ensures Step(w, m) == None
  {
    assert w / 0x400 == 0x32_cc1d;
  }

  /** Sizes that round up to 2^16 units only after four halvings, and so need a fifth. */
  predicate Unshiftable(d: int) {
    0xf_fff0_0000 < d <= 0xf_ffff_0000 || 0xf_fff0_0000_0000 < d <= 0xf_ffff_0000_0000
  }

  lemma FifthHalving(d: int, v: int, i: nat)
    requires 1 <= i <= 3 && v < 0x10_0000 && Covers(v, Lane(i), d)
    requires (i >= 2 ==> d > 0xf_ffff_0000) && (i == 3 ==> d > 0xf_ffff_0000_0000 && v <= 0x1_0000)
    ensures v > 0xf_fff0 <==> Unshiftable(d)
  {
  }

  lemma NothingRuns(w0: Word, w1: Word)
    requires w0 == 0xd280_0010 + 0x20_0000 && w1 == 0xcb30_63ff
    ensures Subtracts(w0, w1, 0)
  {
    forall m: Machine ensures Lowers(w0, w1, 0, m) {
      MovExecutes(0, 1, w0, m);
      SubExtended(0, w1, m.(x16 := 0));
      TwoSteps(m.sp, 0, 0);
    }
  }

  /** The two words for a frame of d bytes, and the s bytes they subtract, if they are instructions at all. */
  method FrameWords(d: int) returns (w0: Word, w1: Word, ghost s: int)
    requires 0 < d < W64 && d % 16 == 0
    ensures d <= ROUNDABLE ==> s >= d && s % 16 == 0 && (d < 0x100_0000 ==> s == d) && 16 * s < 17 * d
    ensures d > ROUNDABLE ==> s == 0
    ensures Subtracts(w0, w1, s) <==> !Unshiftable(d)
    ensures d == WRAPPED ==> s == W64 && w0 == 0xd2f0_0010 && w1 == 0xcb30_67ff
  {
    var j := 0;
    w0, w1, s := NOP, NOP, d;
    if d / 0x100_0000 == 0 {
      if d % 0x1000 != 0 { w0 := 0xd100_03ff + d % 0x1000 * 0x400; }
      if d / 0x1000 != 0 { w1 := 0xd140_03ff + d / 0x1000 * 0x400; }
      SmallRuns(d, w0, w1, d % 0x1000, d / 0x1000);
    } else {
      var v, i := DropLanes(d);
      if d <= ROUNDABLE { FifthHalving(d, v, i); }
      v, j := DropBits(v, Lane(i), d);
      w0 := 0xd280_0010 + v * 0x20 + i * 0x20_0000;
      w1 := 0xcb30_63ff + j * 0x400;
      s := v * (Lane(i) * Shifted(j));
      Multiple(v, i, j);
      if v > 0 { LargeRuns(v, i, j, w0, w1, s); } else { NothingRuns(w0, w1); }
    }
  }

  // ---- The size ----

  /** The size of the frame, from the offset of the lowest local variable. The sum is one of C ints, here with the
      wrap-around of two's complement, and then widened to 64 bits. */
  function FrameSize(loc: int): int {
    var sum := ToInt(ToInt(-loc) + 15);
    (sum - sum % 16) % W64
  }

  /** The size that the sum wraps around to. */
  const WRAPPED: int := 0xffff_ffff_8000_0000

  function WrappedAfter(i: nat): int {
    if i == 0 then WRAPPED else if i == 1 then 0xffff_ffff_8000 else if i == 2 then 0x1_0000_0000 else 0x1_0000
  }

  lemma RoundedFrame(x: int, d: int)
    requires 0 < x <= 0x7fff_fff0 && d == x + 15 - (x + 15) % 16
    ensures x <= d < x + 16 && d <= 0x7fff_fff0 && d % 16 == 0
  {
    var q := (x + 15) / 16;
    assert d == 16 * q;
    Sixteens(d, q);
  }

  lemma Sixteens(d: int, q: int)
    requires d == 16 * q
    ensures d % 16 == 0 && (d < 0x8000_0000 ==> d <= 0x7fff_fff0)
  {
  }

  /** The rounded size as long as the sum is an int; past that always the same one, just below 2^64. */
  lemma FrameSizeExact(loc: int)
    requires -0x8000_0000 <= loc < 0
    ensures -loc <= 0x7fff_fff0 ==> -loc <= FrameSize(loc) < 16 - loc && FrameSize(loc) <= 0x7fff_fff0
    ensures -loc > 0x7fff_fff0 ==> FrameSize(loc) == WRAPPED
    ensures FrameSize(loc) % 16 == 0
  {
    var sum := ToInt(ToInt(-loc) + 15);
    IntSum(-loc, sum);
    if -loc <= 0x7fff_fff0 {
      RoundedFrame(-loc, sum - sum % 16);
    } else {
      WrappedSum(sum);
    }
  }

  lemma IntSum(x: int, sum: int)
    requires 0 < x <= 0x8000_0000 && sum == ToInt(ToInt(x) + 15)
    ensures sum == if x <= 0x7fff_fff0 then x + 15 else x + 15 - W32
  {
    assert ToInt(x) == if x < 0x8000_0000 then x else x - W32;
  }

  lemma WrappedSum(sum: int)
    requires -0x8000_0000 <= sum < -0x7fff_fff0
    ensures sum - sum % 16 == -0x8000_0000
  {
    var k := sum + 0x8000_0000;
    assert sum == 16 * -0x800_0000 + k;
  }

  /** Execution lowers sp, which has 64 bits, by at least n. */
  ghost predicate MakesRoom(w0: Word, w1: Word, n: int) {
    exists s :: n <= s < W64 && s >= 0 && Subtracts(w0, w1, s)
  }

  lemma DropUnique(w0: Word, w1: Word, s: int, t: int)
    requires Subtracts(w0, w1, s) && Subtracts(w0, w1, t) && 0 <= s < W64 && 0 <= t < W64
    ensures s == t
  {
    assert Lowers(w0, w1, s, Machine(0, 0)) && Lowers(w0, w1, t, Machine(0, 0));
    assert (0 - s) % W64 == (0 - t) % W64;
  }

  lemma RoomExact(w0: Word, w1: Word, s: int, n: int)
    requires Subtracts(w0, w1, s) && 0 <= s < W64
    ensures MakesRoom(w0, w1, n) <==> n <= s
  {
    if MakesRoom(w0, w1, n) {
      var t :| n <= t < W64 && t >= 0 && Subtracts(w0, w1, t);
      DropUnique(w0, w1, s, t);
    }
  }

  /** 2^64 bytes are none. */
  lemma WholeCircle(w0: Word, w1: Word)
    requires Subtracts(w0, w1, W64)
    ensures Subtracts(w0, w1, 0)
  {
    forall m: Machine ensures Lowers(w0, w1, 0, m) {
      assert Lowers(w0, w1, W64, m);
      SameResidue(m.sp);
    }
  }

  lemma SameResidue(x: int)
    ensures (x - W64) % W64 == (x - 0) % W64
  {
  }

  /** Local variables of 2^31 - 1 bytes, as of `char a[0x7fffffff]`: the two words leave sp where it is. */
  lemma HugeFrame()
    ensures FrameSize(-0x7fff_ffff) == WRAPPED
    ensures Subtracts(0xd2f0_0010, 0xcb30_67ff, 0) && !MakesRoom(0xd2f0_0010, 0xcb30_67ff, 0x7fff_ffff)
  {
    FrameSizeExact(-0x7fff_ffff);
    LargeRuns(0x8000, 3, 1, 0xd2f0_0010, 0xcb30_67ff, W64);
    WholeCircle(0xd2f0_0010, 0xcb30_67ff);
    RoomExact(0xd2f0_0010, 0xcb30_67ff, 0, 0x7fff_ffff);
  }

  /** gfunc_epilog's patch, over the two nops the prolog left at `p`, for local variables down to `loc`. It makes room
      for them exactly when their size, rounded up, is an int; sp then stays 16-aligned and drops by less than 17/16 of
      the rounded size. Otherwise sp stays where it is. Without local variables the nops stay. */
  method PatchProlog(text: Text<Byte>, p: nat, loc: int) returns (ghost s: int)
    requires -0x8000_0000 <= loc <= 0 && p + 8 <= |text.data|
    requires Read32(text.data, p) == NOP && Read32(text.data, p + 4) == NOP
    modifies text
    ensures OutsideSame(old(text.data), text.data, p, p + 8)
    ensures 0 <= s < W64 && s % 16 == 0 && Subtracts(Read32(text.data, p), Read32(text.data, p + 4), s)
    ensures MakesRoom(Read32(text.data, p), Read32(text.data, p + 4), -loc) <==> -loc <= 0x7fff_fff0
    ensures -loc <= 0x7fff_fff0 ==> s >= -loc && 16 * s < 17 * (16 - loc) && (-loc <= 0xff_fff0 ==> s < 16 - loc)
    ensures -loc > 0x7fff_fff0 ==>
              s == 0 && Read32(text.data, p) == 0xd2f0_0010 && Read32(text.data, p + 4) == 0xcb30_67ff
  {
    s := 0;
    if loc != 0 {
      var d := FrameSize(loc);
      FrameSizeExact(loc);
      var w0, w1, t := FrameWords(d);
      if -loc > 0x7fff_fff0 { WholeCircle(w0, w1); }
      Put(text, p, w0);
      ghost var s1 := text.data;
      Put(text, p + 4, w1);
      SameWord(s1, text.data, p + 4, p + 8, p);
      s := if -loc > 0x7fff_fff0 then 0 else t;
    } else {
      SmallRuns(0, NOP, NOP, 0, 0);
    }
    RoomExact(Read32(text.data, p), Read32(text.data, p + 4), s, -loc);
  }
}
