/** What the processors make of the code at a jump: whether it is taken after a comparison of two words. */
module JumpMeaning {
  import opened Base
  import opened Bits
  import opened CodeBytes
  import opened JumpChains
  import A32

  // ---- Comparisons of C ----

  function EvenOnes(b: nat): bool { if b == 0 then true else EvenOnes(b / 2) == (b % 2 == 0) }

  /** The relation between x and y that a condition stands for. Four of the sixteen are no comparisons of C: they tell
      overflow of the signed difference, and the parity of its lowest byte. */
  predicate Meets(cc: Condition, x: Word, y: Word) {
    match cc
    case None => true
    case Some(c) =>
      var d, i, j := (x - y) % W32, ToInt(x), ToInt(y);
      if c == 0x0 then ToInt(x - y) != i - j else if c == 0x1 then ToInt(x - y) == i - j
      else if c == 0x2 then x < y else if c == 0x3 then x >= y
      else if c == 0x4 then x == y else if c == 0x5 then x != y
      else if c == 0x6 then x <= y else if c == 0x7 then x > y
      else if c == 0x8 then ToInt(x - y) < 0 else if c == 0x9 then ToInt(x - y) >= 0
      else if c == 0xa then EvenOnes(d % 0x100) else if c == 0xb then !EvenOnes(d % 0x100)
      else if c == 0xc then i < j else if c == 0xd then i >= j
      else if c == 0xe then i <= j else i > j
  }

  // ---- i386 ----

  datatype Eflags = Eflags(cf: bool, pf: bool, zf: bool, sf: bool, of: bool)

  /** The flags after CMP x, y. */
  function Compared(x: Word, y: Word): Eflags {
    var d := (x - y) % W32;
    Eflags(x < y, EvenOnes(d % 0x100), d == 0, d >= 0x8000_0000, !(-0x8000_0000 <= ToInt(x) - ToInt(y) < 0x8000_0000))
  }

  /** The conditions of Jcc, appendix B.1.4.7 of volume 2 of the Intel SDM: eight tests, and in odd places their
      negations. */
  predicate Test(c: Nibble, f: Eflags) {
    var t := if c / 2 == 0 then f.of else if c / 2 == 1 then f.cf else if c / 2 == 2 then f.zf
             else if c / 2 == 3 then f.cf || f.zf else if c / 2 == 4 then f.sf else if c / 2 == 5 then f.pf
             else if c / 2 == 6 then f.sf != f.of else f.zf || f.sf != f.of;
    if c % 2 == 0 then t else !t
  }

  lemma TestMeets(c: Nibble, x: Word, y: Word)
    ensures Test(c, Compared(x, y)) <==> Meets(Some(c), x, y)
  {
    Difference(x, y);
  }

  /** The signed difference, if it overflows, is off by 2^32. */
  lemma Difference(x: Word, y: Word)
    ensures var d, i, j := (x - y) % W32, ToInt(x), ToInt(y);
            (d == 0 <==> x == y) && (d >= 0x8000_0000 <==> ToInt(x - y) < 0) &&
            (ToInt(x - y) == i - j <==> -0x8000_0000 <= i - j < 0x8000_0000) &&
            (i < j <==> ((ToInt(x - y) < 0) != (ToInt(x - y) != i - j)))
  {
    var d := (x - y) % W32;
    assert d == if x >= y then x - y else x - y + W32;
  }

  // ---- ARM ----

  lemma PassesMeets(cc: Condition, x: Word, y: Word)
    requires Mapped(cc)
    ensures A32.Passes(CondField(cc), A32.Nzcv(0xa, x, y, 0)) <==> Meets(cc, x, y)
  {
    Difference(x, y);
    CompareFlags(x, y);
  }

  /** CMP as the addition of the complement and one. */
  lemma CompareFlags(x: Word, y: Word)
    ensures A32.Nzcv(0xa, x, y, 0) ==
            A32.Flags((x - y) % W32 >= 0x8000_0000, x == y, x >= y, ToInt(x - y) != ToInt(x) - ToInt(y))
  {
    Difference(x, y);
    ComplementSum(x, y, Not(y));
    SumFlags(x, Not(y), (x - y) % W32, x >= y, ToInt(x) - ToInt(y));
  }

  lemma ComplementSum(x: Word, y: Word, n: Word)
    requires n == W32 - 1 - y
    ensures (x + n + 1) % W32 == (x - y) % W32 && (x + n + 1 >= W32 <==> x >= y)
    ensures ToInt(x) + ToInt(n) + 1 == ToInt(x) - ToInt(y)
  {
    assert x + n + 1 == x - y + W32;
    assert (x - y + W32) % W32 == (x - y) % W32;
  }

  lemma SumFlags(x: Word, n: Word, d: Word, c: bool, s: int)
    requires (x + n + 1) % W32 == d && (x + n + 1 >= W32 <==> c) && ToInt(x) + ToInt(n) + 1 == s
    ensures A32.AddWithCarry(x, n, 1) ==
            A32.Flags(d >= 0x8000_0000, d == 0, c, !(-0x8000_0000 <= s < 0x8000_0000))
  {
  }

  // ---- C67 ----

  /** MVKL or MVKH to A0, whatever the constant. */
  predicate IsMove(w: Word, high: bool) { w % 0x80 == (if high then 0x68 else 0x28) && w / 0x80_0000 == 0 }

  /** B .S2X A0, unconditional. */
  predicate IsBranch(w: Word) {
    w / 0x2000_0000 == 0 && w / 0x1000_0000 % 2 == 0 &&                           // creg, z
    w / 0x4_0000 % 0x20 == 0 && w / 0x1000 % 2 == 1 &&                            // src2, and across
    w / 0x40 % 0x40 == 0xd && w / 4 % 0x10 == 8 && w / 2 % 2 == 1 && w % 2 == 0   // op, unit, side 2, not parallel
  }

  /** NOP 5, for the delay slots. */
  predicate IsNop5(w: Word) { w / 0x2_0000 == 0 && w / 0x2000 == 4 && w % 0x2000 == 0 }

  // ---- A jump at a slot ----

  /** The bytes in front of the slot and behind it that belong to the jump. */
  function Lead(arch: Arch, cc: Condition): nat { if arch != I386 then 0 else if cc.None? then 1 else 2 }

  function Trail(arch: Arch): nat { if arch == C67 then 8 else 0 }

  /** The bytes around the slot at p, and those in it that hold no link, make a jump. On arm64 the slot is nothing but a
      link until the jump is bound, and always taken then. */
  predicate IsJump(arch: Arch, s: Code, p: nat, cc: Condition)
    requires Lead(arch, cc) <= p && p + SlotSize(arch) + Trail(arch) <= |s|
  {
    match arch
    case Arm64 => true
    case I386 => if cc.None? then s[p - 1] == 0xe9 else s[p - 2] == 0x0f && s[p - 1] / 0x10 == 8
    case Arm => Read32(s, p) / 0x100_0000 % 0x10 == 0xa
    case C67 =>
      IsMove(Read32(s, p), false) && IsMove(Read32(s, p + 4), true) &&
      IsBranch(Read32(s, p + 8)) && IsNop5(Read32(s, p + 12))
  }

  /** Whether the processor takes it after comparing x with y. */
  predicate Taken(arch: Arch, s: Code, p: nat, cc: Condition, x: Word, y: Word)
    requires Lead(arch, cc) <= p && p + SlotSize(arch) + Trail(arch) <= |s|
  {
    match arch
    case I386 => s[p - 1] == 0xe9 || Test(s[p - 1] % 0x10, Compared(x, y))
    case Arm => A32.Passes(Read32(s, p) / 0x1000_0000, A32.Nzcv(0xa, x, y, 0))
    case Arm64 => true
    case C67 => true
  }

  /** The jump at p is taken exactly when the condition is met. */
  ghost predicate JumpsWhen(arch: Arch, s: Code, p: nat, cc: Condition) {
    Lead(arch, cc) <= p && p + SlotSize(arch) + Trail(arch) <= |s| && IsJump(arch, s, p, cc) &&
    forall x: Word, y: Word :: Taken(arch, s, p, cc, x, y) <==> Meets(cc, x, y)
  }

  /** The parts of a slot that are not its link. */
  predicate SameOpcode(arch: Arch, s: Code, r: Code, p: nat)
    requires p + SlotSize(arch) <= |s| && p + SlotSize(arch) <= |r|
  {
    match arch
    case Arm => Read32(r, p) / 0x100_0000 == Read32(s, p) / 0x100_0000
    case C67 => SameMove(Read32(s, p), Read32(r, p)) && SameMove(Read32(s, p + 4), Read32(r, p + 4))
    case Arm64 => true
    case I386 => true
  }

  predicate SameMove(v: Word, w: Word) { w % 0x80 == v % 0x80 && w / 0x80_0000 == v / 0x80_0000 }

  /** A change of the link leaves the jump what it was. */
  lemma JumpFrame(arch: Arch, s: Code, r: Code, p: nat, cc: Condition)
    requires JumpsWhen(arch, s, p, cc) && p + SlotSize(arch) + Trail(arch) <= |r| && SameOpcode(arch, s, r, p)
    requires Agree(s, r, p - Lead(arch, cc), p)
    requires Agree(s, r, p + SlotSize(arch), p + SlotSize(arch) + Trail(arch))
    ensures JumpsWhen(arch, r, p, cc)
  {
    match arch
    case Arm64 =>
    case I386 =>
    case Arm =>
      ArmTop(Read32(s, p), Read32(r, p));
    case C67 =>
      ReadFrame(s, r, p + 8);
      ReadFrame(s, r, p + 12);
  }

  lemma ArmTop(v: Word, w: Word)
    requires v / 0x100_0000 == w / 0x100_0000
    ensures v / 0x1000_0000 == w / 0x1000_0000
  {
    assert v / 0x1000_0000 == v / 0x100_0000 / 0x10 && w / 0x1000_0000 == w / 0x100_0000 / 0x10;
  }

  // ---- As emitted ----

  lemma ArmEmitted(w: Word, cc: Condition, disp: int)
    requires 0 <= disp < 0x100_0000 && w == CondField(cc) * 0x1000_0000 + 0x0a00_0000 + disp
    ensures w / 0x100_0000 % 0x10 == 0xa && w / 0x1000_0000 == CondField(cc)
  {
    BranchWord(CondField(cc), disp, w);
    ArmTop(w, w);
  }

  lemma MoveEmitted(h: int, high: bool, w: int)
    requires 0 <= h < 0x1_0000 && w == h * 0x80 + if high then 0x68 else 0x28
    ensures 0 <= w < W32 && IsMove(w, high)
  {
  }

  lemma C67Tail()
    ensures IsBranch(0x1362) && IsNop5(0x8000)
  {
  }

  /** What gjmp and gjmp_cond emit is a jump under the condition asked for. */
  lemma EmittedJump(arch: Arch, s: Code, t: int, cc: Condition, r: Code, p: nat)
    requires (arch != Arm ==> 0 <= t < W32) && (arch == Arm ==> Mapped(cc))
    requires arch == Arm64 || arch == C67 ==> cc.None?
    requires r == s + JumpCode(arch, |s|, t, cc) && p == JumpPos(arch, |s|, cc)
    ensures JumpsWhen(arch, r, p, cc)
  {
    MiddleSlice(s, Prefix(arch, cc), SlotBytes(arch, p, t, cc), Suffix(arch));
    match arch
    case Arm64 =>
    case I386 => I386Jump(r, p, cc);
    case Arm => ArmJump(r, p, t, cc);
    case C67 => C67Jump(r, p, t);
  }

  lemma I386Jump(r: Code, p: nat, cc: Condition)
    requires Lead(I386, cc) <= p && p + 4 <= |r|
    requires if cc.None? then r[p - 1] == 0xe9 else r[p - 2] == 0x0f && r[p - 1] == 0x80 + cc.value
    ensures JumpsWhen(I386, r, p, cc)
  {
    if cc.Some? {
      OpcodeByte(r[p - 1], cc.value);
      forall x: Word, y: Word ensures Taken(I386, r, p, cc, x, y) <==> Meets(cc, x, y) {
        TestMeets(cc.value, x, y);
        assert Taken(I386, r, p, cc, x, y) == Test(cc.value, Compared(x, y));
      }
    }
  }

  lemma OpcodeByte(b: Byte, c: Nibble)
    requires b == 0x80 + c
    ensures b != 0xe9 && b / 0x10 == 8 && b % 0x10 == c
  {
  }

  lemma ArmJump(r: Code, p: nat, t: int, cc: Condition)
    requires p + 4 <= |r| && Mapped(cc) && r[p..p + 4] == SlotBytes(Arm, p, t, cc)
    ensures JumpsWhen(Arm, r, p, cc)
  {
    var disp := EncBranch(p, t) % 0x100_0000;
    var w := CondField(cc) * 0x1000_0000 + 0x0a00_0000 + disp;
    ReadBytes(r, p, w);
    ArmEmitted(w, cc, disp);
    forall x: Word, y: Word ensures Taken(Arm, r, p, cc, x, y) <==> Meets(cc, x, y) { PassesMeets(cc, x, y); }
  }

  lemma C67Jump(r: Code, p: nat, t: int)
    requires p + 16 <= |r| && 0 <= t < W32 && r[p..p + 8] == SlotBytes(C67, p, t, None)
    requires r[p + 8..p + 16] == Suffix(C67)
    ensures JumpsWhen(C67, r, p, None)
  {
    var lo, hi := t % 0x1_0000 * 0x80 + 0x28, t / 0x1_0000 * 0x80 + 0x68;
    MoveEmitted(t % 0x1_0000, false, lo);
    MoveEmitted(t / 0x1_0000, true, hi);
    C67Tail();
    TwoWords(r, p, lo, hi);
    TwoWords(r, p + 8, 0x1362, 0x8000);
  }

  lemma TwoWords(r: Code, p: nat, v: Word, w: Word)
    requires p + 8 <= |r| && r[p..p + 8] == Bytes32(v) + Bytes32(w)
    ensures Read32(r, p) == v && Read32(r, p + 4) == w
  {
    assert r[p..p + 4] == r[p..p + 8][..4] && r[p + 4..p + 8] == r[p..p + 8][4..];
    ReadBytes(r, p, v);
    ReadBytes(r, p + 4, w);
  }

  // ---- All the jumps of a section ----

  function End(arch: Arch, p: nat): nat { p + SlotSize(arch) + Trail(arch) }

  /** The jumps lie inside the code, and none overlaps another with its opcode or its delay slots. */
  ghost predicate Spaced(arch: Arch, len: nat, conds: map<nat, Condition>) {
    (forall p :: p in conds ==> Lead(arch, conds[p]) <= p && End(arch, p) <= len) &&
    forall p, q :: p in conds && q in conds && p != q ==>
      End(arch, p) <= q - Lead(arch, conds[q]) || End(arch, q) <= p - Lead(arch, conds[p])
  }

  /** The jump at p is taken under its condition, unless it was replaced by the nop of arm, in front of its label. */
  ghost predicate Kept(arch: Arch, s: Code, p: nat, cc: Condition, bound: map<nat, int>) {
    JumpsWhen(arch, s, p, cc) || (arch == Arm && p in bound && bound[p] == p + 4)
  }

  ghost predicate JumpsHold(arch: Arch, s: Code, conds: map<nat, Condition>, bound: map<nat, int>) {
    Spaced(arch, |s|, conds) && forall p :: p in conds ==> Kept(arch, s, p, conds[p], bound)
  }

  lemma JumpUnmoved(arch: Arch, s: Code, r: Code, p: nat, cc: Condition)
    requires JumpsWhen(arch, s, p, cc) && Agree(s, r, p - Lead(arch, cc), End(arch, p))
    ensures JumpsWhen(arch, r, p, cc)
  {
    SlotOpcode(arch, s, r, p);
    JumpFrame(arch, s, r, p, cc);
  }

  lemma SlotOpcode(arch: Arch, s: Code, r: Code, p: nat)
    requires Agree(s, r, p, p + SlotSize(arch))
    ensures SameOpcode(arch, s, r, p)
  {
    ReadFrame(s, r, p);
    if arch == C67 { ReadFrame(s, r, p + 4); }
  }

  lemma JumpsGrow(arch: Arch, s: Code, b: Code, conds: map<nat, Condition>, bound: map<nat, int>)
    requires JumpsHold(arch, s, conds, bound)
    ensures JumpsHold(arch, s + b, conds, bound)
  {
    forall p | p in conds ensures Kept(arch, s + b, p, conds[p], bound) {
      if JumpsWhen(arch, s, p, conds[p]) { JumpUnmoved(arch, s, s + b, p, conds[p]); }
    }
  }

  lemma SpacedMore(arch: Arch, len: nat, len': nat, conds: map<nat, Condition>, p: nat, cc: Condition)
    requires Spaced(arch, len, conds) && p == len + Lead(arch, cc) && End(arch, p) <= len'
    ensures p !in conds && Spaced(arch, len', conds[p := cc])
  {
  }

  /** A new jump behind all the others. */
  lemma JumpAdded(arch: Arch, s: Code, b: Code, conds: map<nat, Condition>, bound: map<nat, int>, p: nat, cc: Condition)
    requires JumpsHold(arch, s, conds, bound) && p == |s| + Lead(arch, cc)
    requires End(arch, p) <= |s + b| && JumpsWhen(arch, s + b, p, cc)
    ensures JumpsHold(arch, s + b, conds[p := cc], bound)
  {
    JumpsGrow(arch, s, b, conds, bound);
    SpacedMore(arch, |s|, |s + b|, conds, p, cc);
    AllKept(arch, s + b, conds, conds[p := cc], bound, p, cc);
  }

  lemma AllKept(arch: Arch, r: Code, conds: map<nat, Condition>, all: map<nat, Condition>, bound: map<nat, int>, p: nat,
        cc: Condition)
    requires all == conds[p := cc] && forall q :: q in conds ==> Kept(arch, r, q, conds[q], bound)
    requires Kept(arch, r, p, cc, bound)
    ensures forall q :: q in all ==> Kept(arch, r, q, all[q], bound)
  {
    forall q | q in all ensures Kept(arch, r, q, all[q], bound) {
      if q != p { assert all[q] == conds[q]; }
    }
  }

  // ---- Rewritten links ----

  lemma SetLinkOpcode(arch: Arch, s: Code, p: nat, t: int)
    requires p + SlotSize(arch) <= |s| && (arch != Arm ==> 0 <= t < W32)
    ensures SameOpcode(arch, s, SetLink(arch, s, p, t), p)
  {
    match arch
    case Arm64 =>
    case I386 =>
    case Arm =>
      var w, disp := Read32(s, p), EncBranch(p, t) % 0x100_0000;
      DispField(w, disp);
      ReadWritten(s, p, WithDisp(w, disp));
    case C67 => HalvesOpcode(s, p, Read32(s, p), Read32(s, p + 4), t % 0x1_0000, t / 0x1_0000);
  }

  lemma HalvesOpcode(s: Code, p: nat, w: Word, w1: Word, lo: int, hi: int)
    requires p + 8 <= |s| && w == Read32(s, p) && w1 == Read32(s, p + 4) && 0 <= lo < 0x1_0000 && 0 <= hi < 0x1_0000
    ensures SameOpcode(C67, s, Write32(Write32(s, p, WithHalf(w, lo)), p + 4, WithHalf(w1, hi)), p)
  {
    var mid := Write32(s, p, WithHalf(w, lo));
    var r := Write32(mid, p + 4, WithHalf(w1, hi));
    ReadWritten(s, p, WithHalf(w, lo));
    ReadWritten(mid, p + 4, WithHalf(w1, hi));
    ReadFrame(mid, r, p);
    HalfMove(w, lo);
    HalfMove(w1, hi);
  }

  lemma HalfMove(w: Word, h: int)
    requires 0 <= h < 0x1_0000
    ensures SameMove(w, WithHalf(w, h))
  {
  }

  lemma SetTargetOpcode(arch: Arch, s: Code, p: nat, a: int)
    requires p + SlotSize(arch) <= |s|
    ensures SameOpcode(arch, s, SetTarget(arch, s, p, a), p) || (arch == Arm && a == p + 4)
  {
    match arch
    case Arm64 =>
    case I386 =>
    case Arm => if a != p + 4 { SetLinkOpcode(Arm, s, p, a); }
    case C67 => SetLinkOpcode(C67, s, p, 0);
  }

  /** The slot at p is a link or a branch as before, or a nop in front of a. */
  predicate Rewritten(arch: Arch, s: Code, r: Code, p: nat, a: int)
    requires p + SlotSize(arch) <= |s| && p + SlotSize(arch) <= |r|
  {
    SameOpcode(arch, s, r, p) || (arch == Arm && a == p + 4)
  }

  lemma RewrittenFrame(arch: Arch, s: Code, s': Code, r: Code, r': Code, p: nat, a: int)
    requires Agree(s, s', p, p + SlotSize(arch)) && Agree(r, r', p, p + SlotSize(arch)) && Rewritten(arch, s, r, p, a)
    ensures Rewritten(arch, s', r', p, a)
  {
    ReadFrame(s, s', p);
    ReadFrame(r, r', p);
    if arch == C67 {
      ReadFrame(s, s', p + 4);
      ReadFrame(r, r', p + 4);
    }
  }

  lemma {:induction false} PatchAllRewrites(arch: Arch, s: Code, ps: seq<nat>, a: int, k: nat)
    requires Separate(arch, ps) && k < |ps| && forall i :: 0 <= i < |ps| ==> ps[i] + SlotSize(arch) <= |s|
    ensures Rewritten(arch, s, PatchAll(arch, s, ps, a), ps[k], a)
    decreases |ps|
  {
    var front, last := ps[..|ps| - 1], ps[|ps| - 1];
    var mid := PatchAll(arch, s, front, a);
    var r := SetTarget(arch, mid, last, a);
    SetTargetOutside(arch, mid, last, a);
    if k == |ps| - 1 {
      PatchAllOutside(arch, s, front, a);
      SlotUntouched(arch, s, mid, front, last);
      SetTargetOpcode(arch, mid, last, a);
      RewrittenFrame(arch, mid, s, r, r, last, a);
    } else {
      PatchAllRewrites(arch, s, front, a, k);
      assert Apart(arch, ps[k], last);
      RewrittenFrame(arch, s, s, mid, r, ps[k], a);
    }
  }

  /** Rewriting slots touches no opcode and no delay slot around them. */
  lemma AroundKept(arch: Arch, s: Code, r: Code, ps: seq<nat>, conds: map<nat, Condition>, p: nat)
    requires Spaced(arch, |s|, conds) && PatchedOutside(arch, s, r, ps) && p in conds
    requires forall i :: 0 <= i < |ps| ==> ps[i] in conds
    ensures Agree(s, r, p - Lead(arch, conds[p]), p) && Agree(s, r, p + SlotSize(arch), End(arch, p))
    ensures p !in ps ==> Agree(s, r, p, p + SlotSize(arch))
  {
    forall k | p - Lead(arch, conds[p]) <= k < End(arch, p) && (p in ps ==> k < p || p + SlotSize(arch) <= k)
      ensures r[k] == s[k]
    {
      forall i | 0 <= i < |ps| ensures k < ps[i] || ps[i] + SlotSize(arch) <= k {
        if ps[i] != p {}
      }
    }
  }

  lemma JumpRewritten(arch: Arch, s: Code, r: Code, ps: seq<nat>, conds: map<nat, Condition>, p: nat)
    requires Spaced(arch, |s|, conds) && PatchedOutside(arch, s, r, ps) && p in conds
    requires forall i :: 0 <= i < |ps| ==> ps[i] in conds
    requires JumpsWhen(arch, s, p, conds[p]) && (p in ps ==> SameOpcode(arch, s, r, p))
    ensures JumpsWhen(arch, r, p, conds[p])
  {
    AroundKept(arch, s, r, ps, conds, p);
    if p !in ps { SlotOpcode(arch, s, r, p); }
    JumpFrame(arch, s, r, p, conds[p]);
  }

  /** After a rewriting of slots every jump is taken as before, but for those turned into a nop. */
  lemma JumpsRewritten(arch: Arch, s: Code, r: Code, ps: seq<nat>, conds: map<nat, Condition>, bound: map<nat, int>,
        bound': map<nat, int>)
    requires JumpsHold(arch, s, conds, bound) && PatchedOutside(arch, s, r, ps)
    requires forall i :: 0 <= i < |ps| ==> ps[i] in conds && ps[i] + SlotSize(arch) <= |s|
    requires forall i :: 0 <= i < |ps| ==> SameOpcode(arch, s, r, ps[i]) || Kept(arch, r, ps[i], conds[ps[i]], bound')
    requires forall p :: p in bound ==> p in bound' && bound'[p] == bound[p]
    ensures JumpsHold(arch, r, conds, bound')
  {
    forall p | p in conds ensures Kept(arch, r, p, conds[p], bound') {
      if JumpsWhen(arch, s, p, conds[p]) && !Kept(arch, r, p, conds[p], bound') {
        JumpRewritten(arch, s, r, ps, conds, p);
      }
    }
  }

  // ---- Where a bound jump goes ----

  /** An A32 data-processing instruction that changes nothing. */
  ghost predicate Idle(w: Word) { w / 0x400_0000 % 4 == 0 && forall m: A32.Machine :: A32.Exec(w, m) == m }

  /** HINT 0 of A64. */
  predicate IsNop64(w: Word) { w / 0x1000 == 0xd_5032 && w / 0x20 % 0x80 == 0 && w % 0x20 == 0x1f }

  /** A0 after MVKL and MVKH. */
  function Moved(lo: Word, hi: Word): Word { lo / 0x80 % 0x1_0000 + hi / 0x80 % 0x1_0000 * 0x1_0000 }

  /** The address executed after the jump at p, the comparison having been of x with y; on i386 modulo 2^32, on arm
      relative to a pc eight bytes ahead. */
  ghost predicate Continues(arch: Arch, s: Code, p: nat, cc: Condition, x: Word, y: Word, next: int)
    requires Lead(arch, cc) <= p && End(arch, p) <= |s|
  {
    var w := Read32(s, p);
    match arch
    case I386 => ((if Taken(I386, s, p, cc, x, y) then p + 4 + w else p + 4) - next) % W32 == 0
    case Arm =>
      if w / 0x100_0000 % 0x10 == 0xa then
        next == if Taken(Arm, s, p, cc, x, y) then p + 8 + 4 * Signed24(w % 0x100_0000) else p + 4
      else Idle(w) && next == p + 4
    case Arm64 => if w / 0x400_0000 == 5 then next == p + 4 * Signed26(w % 0x400_0000) else IsNop64(w) && next == p + 4
    case C67 => next == Moved(w, Read32(s, p + 4))
  }

  /** The jump at p goes to a if the condition is met, and to the code behind it otherwise. */
  ghost predicate GoesTo(arch: Arch, s: Code, p: nat, a: int, cc: Condition, x: Word, y: Word)
    requires Lead(arch, cc) <= p && End(arch, p) <= |s|
  {
    Continues(arch, s, p, cc, x, y, if Meets(cc, x, y) then a else p + 4)
  }

  lemma JumpGoes(arch: Arch, s: Code, relocs: seq<Reloc>, conds: map<nat, Condition>, bound: map<nat, int>, p: nat,
        x: Word, y: Word)
    requires arch != C67 && JumpsHold(arch, s, conds, bound) && p in conds && p in bound
    requires BranchesTo(arch, s, relocs, p, bound[p])
    ensures GoesTo(arch, s, p, bound[p], conds[p], x, y)
  {
    var cc, a := conds[p], bound[p];
    if Kept(arch, s, p, cc, bound) && arch == Arm && a == p + 4 {
      NextGoes(s, relocs, p, cc, x, y);
    } else {
      KeptGoes(arch, s, relocs, p, a, cc, x, y);
    }
  }

  lemma NextGoes(s: Code, relocs: seq<Reloc>, p: nat, cc: Condition, x: Word, y: Word)
    requires p + 4 <= |s| && BranchesTo(Arm, s, relocs, p, p + 4)
    ensures GoesTo(Arm, s, p, p + 4, cc, x, y)
  {
    if Read32(s, p) == 0xe1a0_0000 { ArmNop(Read32(s, p)); }
  }

  lemma ArmNop(w: Word)
    requires w == 0xe1a0_0000
    ensures Idle(w) && w / 0x100_0000 % 0x10 != 0xa
  {
    assert A32.Cond(w) == 14 && A32.Form(w) == 0 && A32.Opcode(w) == 0xd && A32.S(w) == 0;
    assert A32.Rd(w) == 0 && A32.Operand(w) == 0;
    forall m: A32.Machine ensures A32.Exec(w, m) == m {
      assert m.regs[0 := m.regs[0]] == m.regs;
    }
  }

  lemma KeptGoes(arch: Arch, s: Code, relocs: seq<Reloc>, p: nat, a: int, cc: Condition, x: Word, y: Word)
    requires arch != C67 && JumpsWhen(arch, s, p, cc) && BranchesTo(arch, s, relocs, p, a)
    ensures GoesTo(arch, s, p, a, cc, x, y)
  {
    var w, taken := Read32(s, p), Taken(arch, s, p, cc, x, y);
    assert taken == Meets(cc, x, y);
    match arch
    case I386 => I386Goes(s, p, a, cc, x, y, w, taken);
    case Arm => ArmGoes(s, p, a, cc, x, y, w, taken);
    case Arm64 =>
  }

  lemma I386Goes(s: Code, p: nat, a: int, cc: Condition, x: Word, y: Word, w: Word, taken: bool)
    requires Lead(I386, cc) <= p && p + 4 <= |s| && w == Read32(s, p) && (p + 4 + w - a) % W32 == 0
    requires Taken(I386, s, p, cc, x, y) == taken && taken == Meets(cc, x, y)
    ensures GoesTo(I386, s, p, a, cc, x, y)
  {
  }

  lemma ArmGoes(s: Code, p: nat, a: int, cc: Condition, x: Word, y: Word, w: Word, taken: bool)
    requires p + 4 <= |s| && w == Read32(s, p) && w / 0x100_0000 % 0x10 == 0xa && DecBranch(w, p) == a
    requires Taken(Arm, s, p, cc, x, y) == taken && taken == Meets(cc, x, y)
    ensures GoesTo(Arm, s, p, a, cc, x, y)
  {
  }

  /** On c67 the linker adds val, the address of the label, to what the pair of moves holds, and that is nothing. */
  lemma LinkedJumpGoes(s: Code, p: nat, a: int, cc: Condition, relocs: seq<Reloc>, val: Word, r: Code, x: Word, y: Word)
    requires JumpsWhen(C67, s, p, cc) && BranchesTo(C67, s, relocs, p, a)
    requires r == SetLink(C67, s, p, (val + LinkAt(C67, s, p)) % W32)
    ensures JumpsWhen(C67, r, p, cc) && GoesTo(C67, r, p, val, cc, x, y)
  {
    var k := LinkAt(C67, s, p);
    var t := (val + k) % W32;
    NothingAdded(val, k, t);
    Relinked(s, p, val, t, r);
    JumpFrame(C67, s, r, p, cc);
    MovedGoes(r, p, val, cc, x, y);
  }

  lemma NothingAdded(val: Word, k: int, t: int)
    requires k == 0 && t == (val + k) % W32
    ensures t == val
  {
  }

  lemma Relinked(s: Code, p: nat, val: Word, t: int, r: Code)
    requires p + 16 <= |s| && t == val && r == SetLink(C67, s, p, t)
    ensures LinkAt(C67, r, p) == val && SameOpcode(C67, s, r, p)
    ensures Agree(s, r, p, p) && Agree(s, r, p + 8, p + 16)
  {
    SetHalves(s, p, t);
    SetLinkOpcode(C67, s, p, t);
  }

  lemma MovedGoes(r: Code, p: nat, val: Word, cc: Condition, x: Word, y: Word)
    requires JumpsWhen(C67, r, p, cc) && LinkAt(C67, r, p) == val
    ensures GoesTo(C67, r, p, val, cc, x, y)
  {
    assert Taken(C67, r, p, cc, x, y) <==> Meets(cc, x, y);
  }
}
