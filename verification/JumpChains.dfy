/** Pending forward jumps: linked lists threaded through the emitted code, under the four link encodings. */
module JumpChains {
  import opened Base
  import opened CodeBytes

  datatype Arch = Arm64 | I386 | Arm | C67

  /** A request to the linker: R_C60LO16 at `at`, R_C60HI16 at `at` + 4, for the address `target`. */
  datatype Reloc = Reloc(at: int, target: int)

  // ---- Links ----

  /** The bytes that hold one link. */
  function SlotSize(arch: Arch): nat { if arch == C67 then 8 else 4 }

  /** decbranch */
  function DecBranch(w: Word, p: int): int { Signed24(w % 0x100_0000) * 4 + p + 8 }

  /** C division by four, which truncates toward zero. */
  function Quarter(x: int): int { if x >= 0 then x / 4 else -(-x / 4) }

  /** encbranch: 0 stands for the fatal error. */
  function EncBranch(p: int, addr: int): Word {
    var d := Quarter(addr - (p + 8));
    if d >= 0x100_0000 || d < -0x100_0000 then 0 else 0x0a00_0000 + d % 0x100_0000
  }

  /** The displacements that survive the 24-bit field. */
  predicate FitsBranch(p: int, addr: int) {
    (addr - p) % 4 == 0 && -0x80_0000 <= Quarter(addr - (p + 8)) < 0x80_0000
  }

  /** decbranch undoes encbranch exactly on word-aligned displacements below 2^23 words:
      the range test of encbranch admits twice as many. */
  lemma BranchRoundTrip(p: int, addr: int, top: int)
    requires EncBranch(p, addr) != 0 && 0 <= top < 0x100
    ensures DecBranch(top * 0x100_0000 + EncBranch(p, addr) % 0x100_0000, p) == addr <==> FitsBranch(p, addr)
  {
    var d := Quarter(addr - (p + 8));
    assert EncBranch(p, addr) % 0x100_0000 == d % 0x100_0000;
    assert (top * 0x100_0000 + d % 0x100_0000) % 0x100_0000 == d % 0x100_0000;
    SignedField(d);
  }

  lemma SignedField(d: int)
    requires -0x100_0000 <= d < 0x100_0000
    ensures Signed24(d % 0x100_0000) == d <==> -0x80_0000 <= d < 0x80_0000
    ensures Signed24(d % 0x100_0000) == d || Signed24(d % 0x100_0000) == d - 0x100_0000 ||
            Signed24(d % 0x100_0000) == d + 0x100_0000
  {
  }

  /** The next position in the list, as read back from the code. */
  function LinkAt(arch: Arch, s: Code, p: nat): int
    requires p + SlotSize(arch) <= |s|
  {
    match arch
    case Arm64 => Read32(s, p)
    case I386 => Read32(s, p)
    case Arm => DecBranch(Read32(s, p), p)
    case C67 => Read32(s, p) / 0x80 % 0x1_0000 + Read32(s, p + 4) / 0x80 % 0x1_0000 * 0x1_0000
  }

  /** On arm a slot is a branch, whatever its condition. */
  predicate IsSlot(arch: Arch, s: Code, p: nat)
    requires p + SlotSize(arch) <= |s|
  {
    arch == Arm ==> Read32(s, p) / 0x100_0000 % 16 == 0xa
  }

  predicate LinkFits(arch: Arch, p: int, t: int) {
    if arch == Arm then FitsBranch(p, t) else 0 <= t < 0x1_0000_0000
  }

  /** The word with its 16-bit constant, bits 7 to 22, replaced. */
  function WithHalf(w: Word, h: int): Word
    requires 0 <= h < 0x1_0000
  {
    w / 0x80_0000 * 0x80_0000 + h * 0x80 + w % 0x80
  }

  function WithDisp(w: Word, disp: int): Word
    requires 0 <= disp < 0x100_0000
  {
    w / 0x100_0000 * 0x100_0000 + disp
  }

  /** The code with the link at `p` redirected to `t`. */
  function SetLink(arch: Arch, s: Code, p: nat, t: int): (r: Code)
    requires p + SlotSize(arch) <= |s|
    requires arch != Arm ==> 0 <= t < 0x1_0000_0000
    ensures |r| == |s|
  {
    match arch
    case Arm64 => Write32(s, p, t)
    case I386 => Write32(s, p, t)
    case Arm => Write32(s, p, WithDisp(Read32(s, p), EncBranch(p, t) % 0x100_0000))
    case C67 =>
      Write32(Write32(s, p, WithHalf(Read32(s, p), t % 0x1_0000)), p + 4, WithHalf(Read32(s, p + 4), t / 0x1_0000))
  }

  lemma HalfField(w: Word, h: int)
    requires 0 <= h < 0x1_0000
    ensures WithHalf(w, h) / 0x80 % 0x1_0000 == h
  {
  }

  lemma DispField(w: Word, disp: int)
    requires 0 <= disp < 0x100_0000
    ensures WithDisp(w, disp) / 0x100_0000 == w / 0x100_0000 && WithDisp(w, disp) % 0x100_0000 == disp
  {
  }

  /** Bytes outside the slot at `p` are the same. */
  ghost predicate SameOutside(arch: Arch, s: Code, s': Code, p: int) {
    |s| == |s'| && forall i | 0 <= i < |s| && (i < p || p + SlotSize(arch) <= i) :: s'[i] == s[i]
  }

  lemma SetLinkReads(arch: Arch, s: Code, p: nat, t: int)
    requires p + SlotSize(arch) <= |s| && LinkFits(arch, p, t) && IsSlot(arch, s, p)
    ensures var r := SetLink(arch, s, p, t); LinkAt(arch, r, p) == t && IsSlot(arch, r, p) && SameOutside(arch, s, r, p)
  {
    match arch
    case Arm64 => ReadWritten(s, p, t);
    case I386 => ReadWritten(s, p, t);
    case Arm => SetArm(s, p, t, Read32(s, p), EncBranch(p, t) % 0x100_0000);
    case C67 => SetHalves(s, p, t);
  }

  lemma SetArm(s: Code, p: nat, t: int, w: Word, disp: int)
    requires p + 4 <= |s| && FitsBranch(p, t) && IsSlot(Arm, s, p) && w == Read32(s, p) &&
             disp == EncBranch(p, t) % 0x100_0000
    ensures var r := SetLink(Arm, s, p, t); LinkAt(Arm, r, p) == t && IsSlot(Arm, r, p) && SameOutside(Arm, s, r, p)
  {
    var w1 := WithDisp(w, disp);
    ReadWritten(s, p, w1);
    DispField(w, disp);
    SignedField(Quarter(t - (p + 8)));
    assert DecBranch(w1, p) == t;
  }

  lemma SetHalves(s: Code, p: nat, t: int)
    requires p + 8 <= |s| && 0 <= t < 0x1_0000_0000
    ensures var r := SetLink(C67, s, p, t); LinkAt(C67, r, p) == t && SameOutside(C67, s, r, p)
  {
    var w, w1, lo, hi := Read32(s, p), Read32(s, p + 4), t % 0x1_0000, t / 0x1_0000;
    var mid := Write32(s, p, WithHalf(w, lo));
    var r := Write32(mid, p + 4, WithHalf(w1, hi));
    ReadWritten(s, p, WithHalf(w, lo));
    ReadWritten(mid, p + 4, WithHalf(w1, hi));
    ReadFrame(mid, r, p);
    HalfField(w, lo);
    HalfField(w1, hi);
  }

  lemma ReadFrame(s: Code, s': Code, p: nat)
    requires Agree(s, s', p, p + 4)
    ensures Read32(s', p) == Read32(s, p)
  {
  }

  /** A link depends only on the bytes of its slot. */
  lemma LinkFrame(arch: Arch, s: Code, s': Code, p: nat)
    requires Agree(s, s', p, p + SlotSize(arch))
    ensures LinkAt(arch, s', p) == LinkAt(arch, s, p) && IsSlot(arch, s', p) == IsSlot(arch, s, p)
  {
    ReadFrame(s, s', p);
    if arch == C67 { ReadFrame(s, s', p + 4); }
  }

  // ---- Targets ----

  function Signed26(x: int): int { if x >= 0x200_0000 then x - 0x400_0000 else x }

  /** The branch at `p` has been resolved to `a`: it goes there, or it is a nop in front of `a`. */
  predicate BranchesTo(arch: Arch, s: Code, relocs: seq<Reloc>, p: nat, a: int)
    requires p + SlotSize(arch) <= |s|
  {
    var w := Read32(s, p);
    match arch
    case Arm64 => (w == 0xd503_201f && a == p + 4) || (w / 0x400_0000 == 5 && p + 4 * Signed26(w % 0x400_0000) == a)
    case I386 => (p + 4 + w - a) % 0x1_0000_0000 == 0
    case Arm => (w == 0xe1a0_0000 && a == p + 4) || (w / 0x100_0000 % 16 == 0xa && DecBranch(w, p) == a)
    case C67 => LinkAt(arch, s, p) == 0 && Reloc(p, a) in relocs
  }

  /** What gsym_addr writes over the link at `p`. */
  function SetTarget(arch: Arch, s: Code, p: nat, a: int): (r: Code)
    requires p + SlotSize(arch) <= |s|
    ensures |r| == |s|
  {
    match arch
    case Arm64 =>
      Write32(s, p, if a - p == 4 then 0xd503_201f else 0x1400_0000 + (a - p) % 0x1_0000_0000 / 4 % 0x400_0000)
    case I386 => Write32(s, p, (a - p - 4) % 0x1_0000_0000)
    case Arm =>
      Write32(s, p, if a == p + 4 then 0xe1a0_0000 else WithDisp(Read32(s, p), EncBranch(p, a) % 0x100_0000))
    case C67 => SetLink(C67, s, p, 0)
  }

  /** gsym_addr does not stop with an error at `p`. */
  predicate TargetOk(arch: Arch, p: int, a: int) {
    match arch
    case Arm64 => (a - p + 0x800_0000) % 0x1_0000_0000 < 0x1000_0000
    case I386 => true
    case Arm => a == p + 4 || EncBranch(p, a) != 0
    case C67 => true
  }

  /** The label is at a distance the instruction can express. */
  predicate TargetFits(arch: Arch, p: int, a: int) {
    match arch
    case Arm64 => (a - p) % 4 == 0 && -0x800_0000 <= a - p < 0x800_0000
    case I386 => true
    case Arm => a == p + 4 || FitsBranch(p, a)
    case C67 => true
  }

  lemma Arm64Target(p: int, a: int)
    requires (a - p + 0x800_0000) % 0x1_0000_0000 < 0x1000_0000 && -0x8000_0000 < a - p < 0x8000_0000
    ensures var f := (a - p) % 0x1_0000_0000 / 4 % 0x400_0000;
            p + 4 * Signed26(f) == a <==> (a - p) % 4 == 0 && -0x800_0000 <= a - p < 0x800_0000
  {
    var d := a - p;
    assert -0x800_0000 <= d < 0x800_0000;
    assert d % 0x1_0000_0000 / 4 % 0x400_0000 == d / 4 % 0x400_0000;
    assert Signed26(d / 4 % 0x400_0000) == d / 4;
  }

  /** A patch that raises no error resolves the branch exactly when the label is expressible. */
  lemma SetTargetBranches(arch: Arch, s: Code, relocs: seq<Reloc>, p: nat, a: int)
    requires p + SlotSize(arch) <= |s| && IsSlot(arch, s, p) && TargetOk(arch, p, a)
    requires -0x8000_0000 < a - p < 0x8000_0000 && (arch == C67 ==> Reloc(p, a) in relocs)
    ensures BranchesTo(arch, SetTarget(arch, s, p, a), relocs, p, a) <==> TargetFits(arch, p, a)
    ensures SameOutside(arch, s, SetTarget(arch, s, p, a), p)
  {
    match arch
    case Arm64 =>
      var f := (a - p) % 0x1_0000_0000 / 4 % 0x400_0000;
      Arm64Target(p, a);
      var w := if a - p == 4 then 0xd503_201f else 0x1400_0000 + f;
      assert a - p != 4 ==> w / 0x400_0000 == 5 && w % 0x400_0000 == f;
      ReadWritten(s, p, w);
    case I386 =>
      ReadWritten(s, p, (a - p - 4) % 0x1_0000_0000);
    case Arm =>
      ArmTarget(s, p, a);
    case C67 =>
      SetHalves(s, p, 0);
  }

  lemma ArmTarget(s: Code, p: nat, a: int)
    requires p + 4 <= |s| && IsSlot(Arm, s, p) && TargetOk(Arm, p, a)
    ensures BranchesTo(Arm, SetTarget(Arm, s, p, a), [], p, a) <==> TargetFits(Arm, p, a)
    ensures SameOutside(Arm, s, SetTarget(Arm, s, p, a), p)
  {
    if a == p + 4 {
      ReadWritten(s, p, 0xe1a0_0000);
    } else {
      var disp := EncBranch(p, a) % 0x100_0000;
      var w := WithDisp(Read32(s, p), disp);
      ReadWritten(s, p, w);
      DispField(Read32(s, p), disp);
      BranchRoundTrip(p, a, Read32(s, p) / 0x100_0000);
      assert w == Read32(s, p) / 0x100_0000 * 0x100_0000 + disp;
    }
  }

  // ---- Emission of a jump ----

  type Nibble = x: int | 0 <= x < 16

  /** The last digit of a comparison token, TOK_ULT 0x92 to TOK_GT 0x9f; None is the unconditional jump. */
  type Condition = Option<Nibble>

  /** mapcc knows the condition; for others it is a fatal error. */
  predicate Mapped(cc: Condition) { cc.None? || 2 <= cc.value <= 9 || 12 <= cc.value }

  /** mapcc: the condition field on ARM, where always is a condition as well. */
  function CondField(cc: Condition): Nibble {
    match cc
    case None => 0xe
    case Some(c) =>
      if c == 0x2 then 0x3 else if c == 0x3 then 0x2
      else if c == 0x4 then 0x0 else if c == 0x5 then 0x1
      else if c == 0x6 then 0x9 else if c == 0x7 then 0x8
      else if c == 0x8 then 0x4 else if c == 0x9 then 0x5
      else if c == 0xc then 0xb else if c == 0xd then 0xa
      else if c == 0xe then 0xd else if c == 0xf then 0xc
      else 0xe
  }

  /** Opcode bytes in front of the slot. */
  function Prefix(arch: Arch, cc: Condition): Code {
    if arch != I386 then [] else if cc.None? then [0xe9] else [0x0f, 0x80 + cc.value]
  }

  /** The slot of a jump emitted at `p` with link `t`. */
  function SlotBytes(arch: Arch, p: int, t: int, cc: Condition): (b: Code)
    requires arch != Arm ==> 0 <= t < 0x1_0000_0000
    ensures |b| == SlotSize(arch)
  {
    match arch
    case Arm64 => Bytes32(t)
    case I386 => Bytes32(t)
    case Arm => Bytes32(CondField(cc) * 0x1000_0000 + 0x0a00_0000 + EncBranch(p, t) % 0x100_0000)
    case C67 => Bytes32(t % 0x1_0000 * 0x80 + 0x28) + Bytes32(t / 0x1_0000 * 0x80 + 0x68)
  }

  /** On c67 the branch and its delay slots follow the slot. */
  function Suffix(arch: Arch): Code {
    if arch == C67 then Bytes32(0x1362) + Bytes32(0x8000) else []
  }

  function JumpPos(arch: Arch, len: nat, cc: Condition): nat { len + |Prefix(arch, cc)| }

  function JumpCode(arch: Arch, len: nat, t: int, cc: Condition): Code
    requires arch != Arm ==> 0 <= t < 0x1_0000_0000
  {
    Prefix(arch, cc) + SlotBytes(arch, JumpPos(arch, len, cc), t, cc) + Suffix(arch)
  }

  lemma ArmSlot(r: Code, p: nat, t: int, cc: int)
    requires 0 <= cc < 16 && FitsBranch(p, t)
    requires p + 4 <= |r| && r[p..p + 4] == Bytes32(cc * 0x1000_0000 + 0x0a00_0000 + EncBranch(p, t) % 0x100_0000)
    ensures LinkAt(Arm, r, p) == t && IsSlot(Arm, r, p)
  {
    var d := Quarter(t - (p + 8));
    var disp := EncBranch(p, t) % 0x100_0000;
    var w := cc * 0x1000_0000 + 0x0a00_0000 + disp;
    ReadBytes(r, p, w);
    BranchWord(cc, disp, w);
    EncodedDisp(p, t, d, disp);
    SignedField(d);
  }

  lemma BranchWord(cc: int, disp: int, w: int)
    requires 0 <= cc < 16 && 0 <= disp < 0x100_0000 && w == cc * 0x1000_0000 + 0x0a00_0000 + disp
    ensures w / 0x100_0000 == cc * 16 + 10 && w % 0x100_0000 == disp
  {
  }

  lemma EncodedDisp(p: int, t: int, d: int, disp: int)
    requires FitsBranch(p, t) && d == Quarter(t - (p + 8)) && disp == EncBranch(p, t) % 0x100_0000
    ensures disp == d % 0x100_0000 && d * 4 + p + 8 == t
  {
  }

  lemma C67Slot(r: Code, p: nat, lo: int, hi: int)
    requires 0 <= lo < 0x1_0000 && 0 <= hi < 0x1_0000 && p + 8 <= |r|
    requires r[p..p + 8] == Bytes32(lo * 0x80 + 0x28) + Bytes32(hi * 0x80 + 0x68)
    ensures LinkAt(C67, r, p) == lo + hi * 0x1_0000
  {
    assert r[p..p + 4] == r[p..p + 8][..4] && r[p + 4..p + 8] == r[p..p + 8][4..];
    HalfPlaced(lo, 0x28, lo * 0x80 + 0x28);
    HalfPlaced(hi, 0x68, hi * 0x80 + 0x68);
    ReadBytes(r, p, lo * 0x80 + 0x28);
    ReadBytes(r, p + 4, hi * 0x80 + 0x68);
  }

  lemma HalfPlaced(h: int, low: int, w: int)
    requires 0 <= h < 0x1_0000 && 0 <= low < 0x80 && w == h * 0x80 + low
    ensures 0 <= w < 0x1_0000_0000 && w / 0x80 % 0x1_0000 == h
  {
    assert w / 0x80 == h;
  }

  lemma SlotReads(arch: Arch, r: Code, p: nat, t: int, cc: Condition)
    requires (arch != Arm ==> 0 <= t < 0x1_0000_0000) && LinkFits(arch, p, t)
    requires p + SlotSize(arch) <= |r| && r[p..p + SlotSize(arch)] == SlotBytes(arch, p, t, cc)
    ensures LinkAt(arch, r, p) == t && IsSlot(arch, r, p)
  {
    match arch
    case Arm64 => ReadBytes(r, p, t);
    case I386 => ReadBytes(r, p, t);
    case Arm => ArmSlot(r, p, t, CondField(cc));
    case C67 => C67Slot(r, p, t % 0x1_0000, t / 0x1_0000);
  }

  lemma MiddleSlice(s: Code, a: Code, b: Code, c: Code)
    ensures (s + (a + b + c))[|s| + |a|..|s| + |a| + |b|] == b
  {
  }

  /** A freshly emitted jump holds its link. */
  lemma EmittedLink(arch: Arch, s: Code, t: int, cc: Condition)
    requires arch != Arm ==> 0 <= t < 0x1_0000_0000
    requires LinkFits(arch, JumpPos(arch, |s|, cc), t)
    ensures var r, p := s + JumpCode(arch, |s|, t, cc), JumpPos(arch, |s|, cc);
            p + SlotSize(arch) <= |r| && LinkAt(arch, r, p) == t && IsSlot(arch, r, p)
  {
    var r, p := s + JumpCode(arch, |s|, t, cc), JumpPos(arch, |s|, cc);
    MiddleSlice(s, Prefix(arch, cc), SlotBytes(arch, p, t, cc), Suffix(arch));
    SlotReads(arch, r, p, t, cc);
  }

  // ---- Chains ----

  /** `t` is the head of the list of jumps `ps`; 0 is the empty list. */
  ghost predicate IsChain(arch: Arch, s: Code, t: int, ps: seq<nat>)
    decreases |ps|
  {
    if ps == [] then t == 0
    else t == ps[0] && t > 0 && ps[0] + SlotSize(arch) <= |s| && IsSlot(arch, s, ps[0]) &&
         IsChain(arch, s, LinkAt(arch, s, ps[0]), ps[1..])
  }

  predicate Apart(arch: Arch, p: int, q: int) {
    p + SlotSize(arch) <= q || q + SlotSize(arch) <= p
  }

  /** The slots of `ps` do not overlap one another. */
  ghost predicate Separate(arch: Arch, ps: seq<nat>) {
    forall i, j :: 0 <= i < j < |ps| ==> Apart(arch, ps[i], ps[j])
  }

  /** No slot of `ps` overlaps one of `qs`. */
  ghost predicate SeparateFrom(arch: Arch, ps: seq<nat>, qs: seq<nat>) {
    forall i, j :: 0 <= i < |ps| && 0 <= j < |qs| ==> Apart(arch, ps[i], qs[j])
  }

  /** The slots of `ps` hold the same bytes in `s` and `s'`. */
  ghost predicate SlotsAgree(arch: Arch, s: Code, s': Code, ps: seq<nat>) {
    forall i :: 0 <= i < |ps| ==> Agree(s, s', ps[i], ps[i] + SlotSize(arch))
  }

  lemma {:induction false} ChainFrame(arch: Arch, s: Code, s': Code, t: int, ps: seq<nat>)
    requires IsChain(arch, s, t, ps) && SlotsAgree(arch, s, s', ps)
    ensures IsChain(arch, s', t, ps)
    decreases |ps|
  {
    if ps != [] {
      LinkFrame(arch, s, s', ps[0]);
      assert SlotsAgree(arch, s, s', ps[1..]);
      ChainFrame(arch, s, s', LinkAt(arch, s, ps[0]), ps[1..]);
    }
  }

  lemma {:induction false} ChainInside(arch: Arch, s: Code, t: int, ps: seq<nat>)
    requires IsChain(arch, s, t, ps)
    ensures forall i :: 0 <= i < |ps| ==> 0 < ps[i] && ps[i] + SlotSize(arch) <= |s| && IsSlot(arch, s, ps[i])
    decreases |ps|
  {
    if ps != [] {
      ChainInside(arch, s, LinkAt(arch, s, ps[0]), ps[1..]);
      forall i | 0 <= i < |ps| ensures 0 < ps[i] && ps[i] + SlotSize(arch) <= |s| && IsSlot(arch, s, ps[i]) {
        if i > 0 { assert ps[i] == ps[1..][i - 1]; }
      }
    }
  }

  /** A head stands for one list only: the walk from it is determined and ends. */
  lemma {:induction false} ChainUnique(arch: Arch, s: Code, t: int, ps: seq<nat>, qs: seq<nat>)
    requires IsChain(arch, s, t, ps) && IsChain(arch, s, t, qs)
    ensures ps == qs
    decreases |ps|
  {
    if ps != [] && qs != [] {
      ChainUnique(arch, s, LinkAt(arch, s, ps[0]), ps[1..], qs[1..]);
      assert ps == [ps[0]] + ps[1..] && qs == [qs[0]] + qs[1..];
    }
  }

  // ---- gjmp_append ----

  /** `r` is `s` with the last link of `ns` redirected to `t`. */
  lemma {:induction false} Spliced(arch: Arch, s: Code, r: Code, n: int, ns: seq<nat>, t: int, ts: seq<nat>)
    requires ns != [] && IsChain(arch, s, n, ns) && IsChain(arch, r, t, ts) && Separate(arch, ns)
    requires var last := ns[|ns| - 1];
             last + SlotSize(arch) <= |s| && SameOutside(arch, s, r, last) && LinkAt(arch, r, last) == t &&
               IsSlot(arch, r, last)
    ensures IsChain(arch, r, n, ns + ts)
    decreases |ns|
  {
    var rest, next := ns[1..], LinkAt(arch, s, ns[0]);
    if rest == [] {
      assert (ns + ts)[1..] == ts;
    } else {
      assert Apart(arch, ns[0], ns[|ns| - 1]);
      LinkFrame(arch, s, r, ns[0]);
      assert Separate(arch, rest);
      Spliced(arch, s, r, next, rest, t, ts);
      assert (ns + ts)[1..] == rest + ts;
    }
  }

  /** Redirecting the last link of the first list to the head of the second concatenates them. */
  lemma AppendIsConcat(arch: Arch, s: Code, n: int, ns: seq<nat>, t: int, ts: seq<nat>)
    requires ns != [] && IsChain(arch, s, n, ns) && IsChain(arch, s, t, ts)
    requires Separate(arch, ns) && SeparateFrom(arch, ns, ts) && LinkFits(arch, ns[|ns| - 1], t)
    ensures ns[|ns| - 1] + SlotSize(arch) <= |s| && (arch != Arm ==> 0 <= t < 0x1_0000_0000)
    ensures IsChain(arch, SetLink(arch, s, ns[|ns| - 1], t), n, ns + ts)
  {
    ChainInside(arch, s, n, ns);
    ChainInside(arch, s, t, ts);
    var last := ns[|ns| - 1];
    var r := SetLink(arch, s, last, t);
    SetLinkReads(arch, s, last, t);
    OthersAgree(arch, s, r, ns, |ns| - 1, ts);
    ChainFrame(arch, s, r, t, ts);
    Spliced(arch, s, r, n, ns, t, ts);
  }

  lemma OthersAgree(arch: Arch, s: Code, r: Code, ns: seq<nat>, k: nat, ts: seq<nat>)
    requires k < |ns| && SeparateFrom(arch, ns, ts) && SameOutside(arch, s, r, ns[k])
    requires forall i :: 0 <= i < |ts| ==> ts[i] + SlotSize(arch) <= |s|
    ensures SlotsAgree(arch, s, r, ts)
  {
    forall i | 0 <= i < |ts| ensures Agree(s, r, ts[i], ts[i] + SlotSize(arch)) {
      assert Apart(arch, ns[k], ts[i]);
    }
  }

  // ---- gsym_addr ----

  /** The code with every branch of `ps` patched, in order. */
  function PatchAll(arch: Arch, s: Code, ps: seq<nat>, a: int): (r: Code)
    requires forall i :: 0 <= i < |ps| ==> ps[i] + SlotSize(arch) <= |s|
    ensures |r| == |s|
    decreases |ps|
  {
    if ps == [] then s
    else
      var last := ps[|ps| - 1];
      SetTarget(arch, PatchAll(arch, s, ps[..|ps| - 1], a), last, a)
  }

  /** Every byte outside the slots of `ps` is the same in `s` and `r`. */
  ghost predicate PatchedOutside(arch: Arch, s: Code, r: Code, ps: seq<nat>) {
    |r| == |s| &&
    forall k | 0 <= k < |s| && (forall i :: 0 <= i < |ps| ==> k < ps[i] || ps[i] + SlotSize(arch) <= k) :: r[k] == s[k]
  }

  lemma SetTargetOutside(arch: Arch, s: Code, p: nat, a: int)
    requires p + SlotSize(arch) <= |s|
    ensures SameOutside(arch, s, SetTarget(arch, s, p, a), p)
  {
    if arch == C67 { SetHalves(s, p, 0); }
  }

  lemma {:induction false} PatchAllOutside(arch: Arch, s: Code, ps: seq<nat>, a: int)
    requires forall i :: 0 <= i < |ps| ==> ps[i] + SlotSize(arch) <= |s|
    ensures PatchedOutside(arch, s, PatchAll(arch, s, ps, a), ps)
    decreases |ps|
  {
    if ps != [] {
      var front, last := ps[..|ps| - 1], ps[|ps| - 1];
      var mid := PatchAll(arch, s, front, a);
      PatchAllOutside(arch, s, front, a);
      SetTargetOutside(arch, mid, last, a);
    }
  }

  /** A slot apart from all the patched ones keeps its bytes. */
  lemma SlotUntouched(arch: Arch, s: Code, r: Code, ps: seq<nat>, q: nat)
    requires PatchedOutside(arch, s, r, ps) && q + SlotSize(arch) <= |s|
    requires forall i :: 0 <= i < |ps| ==> Apart(arch, ps[i], q)
    ensures Agree(s, r, q, q + SlotSize(arch))
  {
  }

  lemma TargetFrame(arch: Arch, s: Code, s': Code, relocs: seq<Reloc>, p: nat, a: int)
    requires Agree(s, s', p, p + SlotSize(arch))
    ensures BranchesTo(arch, s', relocs, p, a) == BranchesTo(arch, s, relocs, p, a)
  {
    LinkFrame(arch, s, s', p);
    ReadFrame(s, s', p);
  }

  /** What gsym_addr demands of one position of the chain. */
  ghost predicate Patchable(arch: Arch, s: Code, relocs: seq<Reloc>, p: nat, a: int) {
    p + SlotSize(arch) <= |s| && IsSlot(arch, s, p) && TargetOk(arch, p, a) &&
    -0x8000_0000 < a - p < 0x8000_0000 && (arch == C67 ==> Reloc(p, a) in relocs)
  }

  /** Patching disjoint slots: each branch goes to `a` exactly when `a` is expressible from it. */
  lemma {:induction false} PatchedChain(arch: Arch, s: Code, relocs: seq<Reloc>, ps: seq<nat>, a: int, k: nat)
    requires Separate(arch, ps) && k < |ps|
    requires forall i :: 0 <= i < |ps| ==> ps[i] + SlotSize(arch) <= |s| && Patchable(arch, s, relocs, ps[i], a)
    ensures BranchesTo(arch, PatchAll(arch, s, ps, a), relocs, ps[k], a) <==> TargetFits(arch, ps[k], a)
    decreases |ps|
  {
    var front, last := ps[..|ps| - 1], ps[|ps| - 1];
    var mid := PatchAll(arch, s, front, a);
    if k == |ps| - 1 {
      PatchAllOutside(arch, s, front, a);
      SlotUntouched(arch, s, mid, front, last);
      LinkFrame(arch, s, mid, last);
      SetTargetBranches(arch, mid, relocs, last, a);
    } else {
      PatchedChain(arch, s, relocs, front, a, k);
      assert Apart(arch, ps[k], last);
      SetTargetOutside(arch, mid, last, a);
      TargetFrame(arch, mid, SetTarget(arch, mid, last, a), relocs, ps[k], a);
    }
  }
}
