/** The ARM procedure linkage table: entries are reserved with their GOT offset and filled in
    once the addresses of the two sections are known. */
module PltArm {
  import opened Base
  import opened A32
  import opened CodeBytes
  import opened Patch
  import opened Text

  /** What create_plt_entry is told of an entry: its GOT offset, and whether Thumb code jumps to it. */
  datatype Slot = Slot(off: Word, stub: bool)

  /** bx pc; nop */
  const STUB: Word := 0x46c0_4778

  function Length(e: Slot): nat { if e.stub then 20 else 16 }

  /** Where entry k starts, behind PLT0 and the entries before it. */
  function Start(slots: seq<Slot>, k: nat): nat
    requires k <= |slots|
  {
    if k == 0 then 20 else Start(slots, k - 1) + Length(slots[k - 1])
  }

  /** Where the four ARM instructions of entry k start. */
  function Body(slots: seq<Slot>, k: nat): nat
    requires k < |slots|
  {
    Start(slots, k) + if slots[k].stub then 4 else 0
  }

  lemma {:induction false} StartGrows(slots: seq<Slot>, i: nat, j: nat)
    requires i <= j <= |slots|
    ensures 20 <= Start(slots, i) <= Start(slots, j)
    ensures i < j ==> Start(slots, i) + Length(slots[i]) <= Start(slots, j)
    decreases j
  {
    if i < j {
      StartGrows(slots, i, j - 1);
    } else if i > 0 {
      StartGrows(slots, i - 1, j - 1);
    }
  }

  lemma {:induction false} StartPrefix(slots: seq<Slot>, e: Slot, k: nat)
    requires k <= |slots|
    ensures Start(slots + [e], k) == Start(slots, k)
  {
    if k > 0 { StartPrefix(slots, e, k - 1); }
  }

  /** A table with an entry for each of `slots`, not yet relocated. */
  ghost predicate Reserved(s: Code, slots: seq<Slot>) {
    if slots == [] then s == []
    else |s| == Start(slots, |slots|) && FirstWords(s) && forall k :: 0 <= k < |slots| ==> BlankAt(s, slots, k)
  }

  /** The entry e at p: the stub, then four words of which the second holds the offset. */
  ghost predicate Blank(s: Code, p: nat, e: Slot) {
    p + Length(e) <= |s| &&
    if e.stub then Read32(s, p) == STUB && Read32(s, p + 4) == 0 && Read32(s, p + 8) == e.off
    else Read32(s, p) == 0 && Read32(s, p + 4) == e.off
  }

  ghost predicate BlankAt(s: Code, slots: seq<Slot>, k: nat) { k < |slots| && Blank(s, Start(slots, k), slots[k]) }

  ghost predicate FirstWords(s: Code) {
    |s| >= 20 && Read32(s, 0) == 0xe52de004 && Read32(s, 4) == 0xe59fe004 && Read32(s, 8) == 0xe08fe00e &&
    Read32(s, 12) == 0xe5bef008
  }

  function Header(): Code {
    Bytes32(0xe52de004) + Bytes32(0xe59fe004) + Bytes32(0xe08fe00e) + Bytes32(0xe5bef008) + ZEROS
  }

  lemma HeaderParts(h: Code)
    requires h == Header()
    ensures |h| == 20 && h[0..4] == Bytes32(0xe52de004) && h[4..8] == Bytes32(0xe59fe004)
    ensures h[8..12] == Bytes32(0xe08fe00e) && h[12..16] == Bytes32(0xe5bef008)
  {
  }

  lemma HeaderWords()
    ensures |Header()| == 20 && FirstWords(Header())
  {
    var h := Header();
    HeaderParts(h);
    ReadBytes(h, 0, 0xe52de004);
    ReadBytes(h, 4, 0xe59fe004);
    ReadBytes(h, 8, 0xe08fe00e);
    ReadBytes(h, 12, 0xe5bef008);
  }

  function Reservation(off: Word): Code { ZEROS + Bytes32(off) + ZEROS + ZEROS }

  function Entry(e: Slot): (b: Code)
    ensures |b| == Length(e)
  {
    (if e.stub then Bytes32(STUB) else []) + Reservation(e.off)
  }

  lemma BlankAppended(s: Code, b: Code, p: nat, e: Slot)
    requires Blank(s, p, e)
    ensures Blank(s + b, p, e)
  {
    ReadAppended(s, b, p);
    ReadAppended(s, b, p + 4);
    if e.stub { ReadAppended(s, b, p + 8); }
  }

  lemma ReservedParts(off: Word)
    ensures |Reservation(off)| == 16 && Reservation(off)[0..4] == Bytes32(0) && Reservation(off)[4..8] == Bytes32(off)
  {
  }

  lemma StubParts(off: Word, b: Code)
    requires b == Bytes32(STUB) + Reservation(off)
    ensures b[0..4] == Bytes32(STUB) && b[4..8] == Bytes32(0) && b[8..12] == Bytes32(off)
  {
    ReservedParts(off);
    assert b[4..8] == Reservation(off)[0..4] && b[8..12] == Reservation(off)[4..8];
  }

  lemma StubLast(s: Code, off: Word, b: Code)
    requires b == Bytes32(STUB) + Reservation(off)
    ensures |b| == 20 && Read32(s + b, |s|) == STUB && Read32(s + b, |s| + 4) == 0 && Read32(s + b, |s| + 8) == off
  {
    StubParts(off, b);
    ReadLast(s, b, |s|, STUB);
    ReadLast(s, b, |s| + 4, 0);
    ReadLast(s, b, |s| + 8, off);
  }

  lemma PlainLast(s: Code, off: Word, b: Code)
    requires b == Reservation(off)
    ensures |b| == 16 && Read32(s + b, |s|) == 0 && Read32(s + b, |s| + 4) == off
  {
    ReservedParts(off);
    ReadLast(s, b, |s|, 0);
    ReadLast(s, b, |s| + 4, off);
  }

  lemma BlankLast(s: Code, e: Slot)
    ensures Blank(s + Entry(e), |s|, e)
  {
    if e.stub {
      StubLast(s, e.off, Entry(e));
    } else {
      assert Entry(e) == Reservation(e.off);
      PlainLast(s, e.off, Entry(e));
    }
  }

  lemma FirstAppended(s: Code, b: Code)
    requires FirstWords(s)
    ensures FirstWords(s + b)
  {
    ReadAppended(s, b, 0);
    ReadAppended(s, b, 4);
    ReadAppended(s, b, 8);
    ReadAppended(s, b, 12);
  }

  lemma EntryReserved(s: Code, slots: seq<Slot>, e: Slot)
    requires if slots == [] then |s| == 20 && FirstWords(s) else Reserved(s, slots)
    ensures Reserved(s + Entry(e), slots + [e])
  {
    var s1, all, n := s + Entry(e), slots + [e], |slots|;
    FirstAppended(s, Entry(e));
    StartPrefix(slots, e, n);
    forall k | 0 <= k < |all| ensures BlankAt(s1, all, k) {
      StartPrefix(slots, e, if k < n then k else n);
      if k < n {
        assert BlankAt(s, slots, k);
        BlankAppended(s, Entry(e), Start(slots, k), slots[k]);
      } else {
        BlankLast(s, e);
      }
    }
  }

  /** create_plt_entry. The two writes of the stub overlap in bytes that are zero and belong to the entry. */
  method CreatePltEntry(plt: Text<Byte>, gotOffset: Word, stub: bool, ghost slots: seq<Slot>) returns (pltOffset: nat)
    requires Reserved(plt.data, slots)
    modifies plt
    ensures Reserved(plt.data, slots + [Slot(gotOffset, stub)]) && pltOffset == Start(slots, |slots|)
  {
    if |plt.data| == 0 { EmitHeader(plt); }
    pltOffset := |plt.data|;
    ghost var before := plt.data;
    EntryReserved(before, slots, Slot(gotOffset, stub));
    EmitEntry(plt, gotOffset, stub);
  }

  method EmitHeader(plt: Text<Byte>)
    requires plt.data == []
    modifies plt
    ensures |plt.data| == 20 && FirstWords(plt.data)
  {
    HeaderWords();
    plt.EmitAll(Header());
    assert plt.data == Header();
  }

  method EmitEntry(plt: Text<Byte>, gotOffset: Word, stub: bool)
    modifies plt
    ensures plt.data == old(plt.data) + Entry(Slot(gotOffset, stub))
  {
    if stub { plt.EmitAll(Bytes32(STUB)); }
    plt.EmitAll(Reservation(gotOffset));
    assert plt.data == old(plt.data) + Entry(Slot(gotOffset, stub));
  }

  // ---- What a relocated entry does ----

  lemma Quarter(x: Word, h: nat, l: nat)
    requires x == 4 * h + l && l < 4
    ensures Ror2(x) == h + l * 0x4000_0000
  {
  }

  lemma RorNext(y: Word, n: nat, x: Word, h: nat, l: nat)
    requires Ror(y, n) == x && x == 4 * h + l && l < 4
    ensures Ror(y, n + 1) == h + l * 0x4000_0000
  {
    Quarter(x, h, l);
  }

  /** A byte of four base-4 digits, rotated by two and by four digits. */
  lemma RorDigits(y: Word, a: nat, b: nat, c: nat, d: nat, n: nat)
    requires a < 4 && b < 4 && c < 4 && d < 4 && y == 64 * a + 16 * b + 4 * c + d && n == 0
    ensures Ror(y, n + 1 + 1) == 4 * a + b + (4 * c + d) * 0x1000_0000
    ensures Ror(y, n + 1 + 1 + 1 + 1) == y * 0x100_0000
  {
    RorNext(y, n, y, 16 * a + 4 * b + c, d);
    RorNext(y, n + 1, Ror(y, n + 1), 4 * a + b + d * 0x1000_0000, c);
    RorNext(y, n + 1 + 1, Ror(y, n + 1 + 1), a + d * 0x400_0000 + c * 0x1000_0000, b);
    RorNext(y, n + 1 + 1 + 1, Ror(y, n + 1 + 1 + 1), d * 0x100_0000 + c * 0x400_0000 + b * 0x1000_0000, a);
  }

  lemma Digits(y: Word) returns (a: nat, b: nat, c: nat, d: nat)
    requires y < 0x100
    ensures a < 4 && b < 4 && c < 4 && d < 4 && y == 64 * a + 16 * b + 4 * c + d
  {
    var q := y / 4;
    var r := q / 4;
    a, b, c, d := r / 4, r % 4, q % 4, y % 4;
  }

  lemma TopPart(y: Word, n: nat)
    requires y < 0x10 && n == 2
    ensures Ror(y, n) == y * 0x1000_0000
  {
    var a, b, c, d := Digits(y);
    var zero := 0;
    RorDigits(y, a, b, c, d, zero);
  }

  lemma HighByte(y: Word, n: nat)
    requires y < 0x100 && n == 4
    ensures Ror(y, n) == y * 0x100_0000
  {
    var a, b, c, d := Digits(y);
    var zero := 0;
    RorDigits(y, a, b, c, d, zero);
  }

  lemma MiddleByte(y: Word, n: nat)
    requires y < 0x100 && n == 6
    ensures Ror(y, n) == y * 0x10_0000
  {
    var k := n - 2;
    HighByte(y, k);
    RorNext(y, k, Ror(y, k), y * 0x40_0000, 0);
    RorNext(y, k + 1, Ror(y, k + 1), y * 0x10_0000, 0);
  }

  lemma LowByte(y: Word, n: nat)
    requires y < 0x100 && n == 10
    ensures Ror(y, n) == y * 0x1000
  {
    var k := n - 4;
    MiddleByte(y, k);
    RorNext(y, k, Ror(y, k), y * 0x4_0000, 0);
    RorNext(y, k + 1, Ror(y, k + 1), y * 0x1_0000, 0);
    RorNext(y, k + 2, Ror(y, k + 2), y * 0x4000, 0);
    RorNext(y, k + 3, Ror(y, k + 3), y * 0x1000, 0);
  }

  /** The values of the three rotated operands. */
  lemma Expanded(operand: nat, rotation: nat, y: Word)
    requires y < 0x100 && rotation < 16 && operand == rotation * 0x100 + y
    ensures Expand(operand) == Ror(y, rotation)
  {
  }

  /** ADD ip, rn, #operand. */
  function AddImmediate(rn: nat, operand: nat): Word
    requires rn < 16 && operand < 0x1000
  {
    BuildFields(14, 1, 4, 0, rn, 12, operand);
    Build(14, 1, 4, 0, rn, 12, operand)
  }

  lemma AddWord(rn: nat, operand: nat)
    requires rn < 16 && operand < 0x1000
    ensures AddImmediate(rn, operand) == 0xe280_c000 + rn * 0x1_0000 + operand
  {
  }

  lemma AddFields(rn: nat, operand: nat, w: Word)
    requires rn < 16 && operand < 0x1000 && w == AddImmediate(rn, operand)
    ensures Cond(w) == 14 && Form(w) == 1 && Opcode(w) == 4 && S(w) == 0
    ensures Rn(w) == rn && Rd(w) == 12 && Operand(w) == operand
  {
    BuildFields(14, 1, 4, 0, rn, 12, operand);
  }

  /** ip := rn + value. */
  function AddTo(regs: Regs, rn: nat, value: Word): Regs
    requires rn < 16
  {
    regs[12 := (regs[rn] + value) % W32]
  }

  lemma ExecAdd(w: Word, rn: nat, m: Machine)
    requires Cond(w) == 14 && Form(w) == 1 && Opcode(w) == 4 && S(w) == 0 && Rn(w) == rn && Rd(w) == 12
    ensures Exec(w, m) == m.(regs := AddTo(m.regs, rn, Expand(Operand(w))))
  {
  }

  lemma AddExecutes(rn: nat, operand: nat, m: Machine, w: Word, value: Word)
    requires rn < 16 && operand < 0x1000 && w == AddImmediate(rn, operand) && value == Expand(operand)
    ensures Exec(w, m) == m.(regs := AddTo(m.regs, rn, value))
  {
    AddFields(rn, operand, w);
    ExecAdd(w, rn, m);
  }

  /** The word through which three instructions and a load with write-back jump. */
  function JumpAt(w0: Word, w1: Word, w2: Word, w3: Word, m: Machine): Word {
    (Exec(w2, Exec(w1, Exec(w0, m))).regs[12] + w3 % 0x1000) % W32
  }

  /** Executed at address `at`, they jump through the word at `target`. */
  ghost predicate WordsJump(w0: Word, w1: Word, w2: Word, w3: Word, at: Word, target: Word) {
    w3 / 0x1000 == 0xe5bcf &&  // ldr pc, [ip, #imm]!
    forall m: Machine :: m.regs[15] == (at + 8) % W32 ==> JumpAt(w0, w1, w2, w3, m) == target
  }

  /** The four words at p do. */
  ghost predicate JumpsThrough(s: Code, p: nat, at: Word, target: Word)
    requires p + 16 <= |s|
  {
    WordsJump(Read32(s, p), Read32(s, p + 4), Read32(s, p + 8), Read32(s, p + 12), at, target)
  }

  /** The offset cut into 4, 8, 8 and 12 bits. */
  lemma Pieces(off: Word)
    ensures off / 0x1000_0000 % 0x10 * 0x1000_0000 + off / 0x10_0000 % 0x100 * 0x10_0000 +
            off / 0x1000 % 0x100 * 0x1000 + off % 0x1000 == off
  {
    var a := off / 0x1000;
    var b := a / 0x100;
    var c := b / 0x100;
    assert b == off / 0x10_0000 && c == off / 0x1000_0000;
  }

  lemma SumMod(pc: int, a: int, b: int, c: int, d: int)
    ensures ((((pc + a) % W32 + b) % W32 + c) % W32 + d) % W32 == (pc + a + b + c + d) % W32
  {
    ModAdd(pc + a, b);
    ModAdd(pc + a + b, c);
    ModAdd(pc + a + b + c, d);
  }

  lemma ModAdd(x: int, y: int)
    ensures (x % W32 + y) % W32 == (x + y) % W32
  {
  }

  /** Three additions, the first to pc. */
  lemma AddsUp(w0: Word, w1: Word, w2: Word, n: nat, a: nat, b: nat, m: Machine)
    requires n < 0x10 && a < 0x100 && b < 0x100
    requires w0 == AddImmediate(15, 0x200 + n) && w1 == AddImmediate(12, 0x600 + a) && w2 == AddImmediate(12, 0xa00 + b)
    ensures Exec(w2, Exec(w1, Exec(w0, m))).regs ==
            AddTo(AddTo(AddTo(m.regs, 15, n * 0x1000_0000), 12, a * 0x10_0000), 12, b * 0x1000)
  {
    var two, six, ten := 2, 6, 10;
    TopPart(n, two);
    MiddleByte(a, six);
    LowByte(b, ten);
    Expanded(0x200 + n, two, n);
    Expanded(0x600 + a, six, a);
    Expanded(0xa00 + b, ten, b);
    AddExecutes(15, 0x200 + n, m, w0, n * 0x1000_0000);
    AddExecutes(12, 0x600 + a, Exec(w0, m), w1, a * 0x10_0000);
    AddExecutes(12, 0xa00 + b, Exec(w1, Exec(w0, m)), w2, b * 0x1000);
  }

  lemma AddToSum(regs: Regs, x: Word, y: Word, z: Word, last: Word)
    ensures (AddTo(AddTo(AddTo(regs, 15, x), 12, y), 12, z)[12] + last) % W32 == (regs[15] + x + y + z + last) % W32
  {
    SumMod(regs[15], x, y, z, last);
  }

  lemma JumpLands(w0: Word, w1: Word, w2: Word, w3: Word, at: Word, off: Word, target: Word, n: nat, a: nat, b: nat,
        last: nat, m: Machine)
    requires n < 0x10 && a < 0x100 && b < 0x100 && last == w3 % 0x1000 && target == (at + 8 + off) % W32
    requires n * 0x1000_0000 + a * 0x10_0000 + b * 0x1000 + last == off
    requires w0 == AddImmediate(15, 0x200 + n) && w1 == AddImmediate(12, 0x600 + a) && w2 == AddImmediate(12, 0xa00 + b)
    requires m.regs[15] == (at + 8) % W32
    ensures JumpAt(w0, w1, w2, w3, m) == target
  {
    Landing(m.regs, at, off, n * 0x1000_0000, a * 0x10_0000, b * 0x1000, last, target);
    AddsUp(w0, w1, w2, n, a, b, m);
  }

  lemma Landing(regs: Regs, at: Word, off: Word, x: Word, y: Word, z: Word, last: nat, target: Word)
    requires x + y + z + last == off && last < 0x1000 && target == (at + 8 + off) % W32 && regs[15] == (at + 8) % W32
    ensures (AddTo(AddTo(AddTo(regs, 15, x), 12, y), 12, z)[12] + last) % W32 == target
  {
    AddToSum(regs, x, y, z, last);
    ModAdd(at + 8, off);
  }

  lemma EntryJumps(s: Code, p: nat, at: Word, off: Word, target: Word, n: nat, a: nat, b: nat, last: nat)
    requires p + 16 <= |s| && target == (at + 8 + off) % W32
    requires n < 0x10 && a < 0x100 && b < 0x100 && last < 0x1000
    requires n * 0x1000_0000 + a * 0x10_0000 + b * 0x1000 + last == off
    requires Read32(s, p) == AddImmediate(15, 0x200 + n)
    requires Read32(s, p + 4) == AddImmediate(12, 0x600 + a)
    requires Read32(s, p + 8) == AddImmediate(12, 0xa00 + b)
    requires Read32(s, p + 12) == 0xe5bc_f000 + last
    ensures JumpsThrough(s, p, at, target)
  {
    var w0, w1, w2, w3 := Read32(s, p), Read32(s, p + 4), Read32(s, p + 8), Read32(s, p + 12);
    assert w3 / 0x1000 == 0xe5bcf && w3 % 0x1000 == last;
    forall m: Machine | m.regs[15] == (at + 8) % W32 ensures JumpAt(w0, w1, w2, w3, m) == target {
      JumpLands(w0, w1, w2, w3, at, off, target, n, a, b, last, m);
    }
  }

  // ---- Relocation ----

  method FillEntry(plt: Text<Byte>, p: nat, off: Word, ghost at: Word, ghost target: Word)
    requires p + 16 <= |plt.data| && target == (at + 8 + off) % W32
    modifies plt
    ensures OutsideSame(old(plt.data), plt.data, p, p + 16) && JumpsThrough(plt.data, p, at, target)
  {
    var n, a, b, last := off / 0x1000_0000 % 0x10, off / 0x10_0000 % 0x100, off / 0x1000 % 0x100, off % 0x1000;
    Pieces(off);
    AddWord(15, 0x200 + n);
    AddWord(12, 0x600 + a);
    AddWord(12, 0xa00 + b);
    PutWords(plt, p, 0xe28f_c200 + n, 0xe28c_c600 + a, 0xe28c_ca00 + b, 0xe5bc_f000 + last);
    EntryJumps(plt.data, p, at, off, target, n, a, b, last);
  }

  function At(addr: int, p: nat): Word { (addr + p) % W32 }

  /** The GOT offset that relocate_plt finds for an entry: behind a stub it reads the first of the four words, which is
      zero, and is one word off in the position. */
  function Loaded(e: Slot): Word { if e.stub then 4 else e.off }

  /** The entry e at p, loaded at `addr`, jumps through the GOT word found for it, and a stub stays in front. */
  ghost predicate Reaches(s: Code, p: nat, e: Slot, addr: Word, got: Word) {
    p + Length(e) <= |s| && (e.stub ==> Read32(s, p) == STUB) &&
    var q := if e.stub then p + 4 else p;
    JumpsThrough(s, q, At(addr, q), At(got, Loaded(e)))
  }

  ghost predicate ReachesAt(s: Code, slots: seq<Slot>, k: nat, addr: Word, got: Word) {
    k < |slots| && Reaches(s, Start(slots, k), slots[k], addr, got)
  }

  lemma JumpStill(s: Code, s': Code, lo: int, hi: int, p: nat, at: Word, target: Word)
    requires p + 16 <= |s| && OutsideSame(s, s', lo, hi) && JumpsThrough(s, p, at, target) && (p + 16 <= lo || hi <= p)
    ensures JumpsThrough(s', p, at, target)
  {
    SameWord(s, s', lo, hi, p);
    SameWord(s, s', lo, hi, p + 4);
    SameWord(s, s', lo, hi, p + 8);
    SameWord(s, s', lo, hi, p + 12);
  }

  lemma ReachesStill(s: Code, s': Code, lo: int, hi: int, p: nat, e: Slot, addr: Word, got: Word)
    requires OutsideSame(s, s', lo, hi) && Reaches(s, p, e, addr, got) && (p + Length(e) <= lo || hi <= p)
    ensures Reaches(s', p, e, addr, got)
  {
    var q := if e.stub then p + 4 else p;
    JumpStill(s, s', lo, hi, q, At(addr, q), At(got, Loaded(e)));
    if e.stub { SameWord(s, s', lo, hi, p); }
  }

  lemma BlankStill(s: Code, s': Code, lo: int, hi: int, p: nat, e: Slot)
    requires OutsideSame(s, s', lo, hi) && Blank(s, p, e) && hi <= p
    ensures Blank(s', p, e)
  {
    SameWord(s, s', lo, hi, p);
    SameWord(s, s', lo, hi, p + 4);
    if e.stub { SameWord(s, s', lo, hi, p + 8); }
  }

  /** The first n entries are relocated, the others are still blank. */
  ghost predicate Filled(s: Code, slots: seq<Slot>, n: nat, addr: Word, got: Word) {
    n <= |slots| && |s| == Start(slots, |slots|) &&
    (forall k :: 0 <= k < n ==> ReachesAt(s, slots, k, addr, got)) &&
    (forall k :: n <= k < |slots| ==> BlankAt(s, slots, k))
  }

  lemma FilledNext(s: Code, s': Code, slots: seq<Slot>, n: nat, addr: Word, got: Word)
    requires n < |slots| && Filled(s, slots, n, addr, got)
    requires OutsideSame(s, s', Start(slots, n), Start(slots, n + 1)) && ReachesAt(s', slots, n, addr, got)
    ensures Filled(s', slots, n + 1, addr, got)
  {
    var lo, hi, m := Start(slots, n), Start(slots, n + 1), n + 1;
    forall k | 0 <= k < m ensures ReachesAt(s', slots, k, addr, got) {
      if k < n {
        StartGrows(slots, k, n);
        assert ReachesAt(s, slots, k, addr, got);
        ReachesStill(s, s', lo, hi, Start(slots, k), slots[k], addr, got);
      }
    }
    forall k | m <= k < |slots| ensures BlankAt(s', slots, k) {
      StartGrows(slots, m, k);
      assert BlankAt(s, slots, k);
      BlankStill(s, s', lo, hi, Start(slots, k), slots[k]);
    }
  }

  /** PLT0, loaded at `at`: push {lr}, ldr lr, [pc, #imm] from the word behind it, the addition, and a jump through the
      third word of the GOT. */
  ghost predicate FirstJumps(s: Code, at: Word, got: Word) {
    |s| >= 20 && Read32(s, 0) == 0xe52de004 && Read32(s, 4) / 0x1000 == 0xe59fe && Read32(s, 12) / 0x1000 == 0xe5bef &&
    var literal := 4 + 8 + Read32(s, 4) % 0x1000;
    literal + 4 <= |s| &&
    forall m: Machine ::
      m.regs[14] == Read32(s, literal) && m.regs[15] == At(at, 8 + 8) ==>
        At(Exec(Read32(s, 8), m).regs[14], Read32(s, 12) % 0x1000) == At(got, 8)
  }

  /** The literal that makes it so. */
  ghost predicate FirstReaches(s: Code, addr: Word, got: Word) {
    FirstWords(s) && |s| >= 20 && At(addr + 16, Read32(s, 16)) == got
  }

  lemma AddLr(w: Word, m: Machine)
    requires w == 0xe08f_e00e
    ensures Exec(w, m).regs == m.regs[14 := (m.regs[15] + m.regs[14]) % W32]
  {
    assert Cond(w) == 14 && S(w) == 0;
    assert Form(w) == 0 && Opcode(w) == 4 && Rn(w) == 15 && Rd(w) == 14 && Operand(w) % 16 == 14;
  }

  lemma FirstExecutes(s: Code, addr: Word, got: Word)
    requires FirstReaches(s, addr, got)
    ensures FirstJumps(s, addr, got)
  {
    var load, w, jump, literal := Read32(s, 4), Read32(s, 8), Read32(s, 12), Read32(s, 16);
    assert load / 0x1000 == 0xe59fe && load % 0x1000 == 4;
    assert jump / 0x1000 == 0xe5bef && jump % 0x1000 == 8;
    forall m: Machine | m.regs[14] == literal && m.regs[15] == At(addr, 8 + 8)
      ensures At(Exec(w, m).regs[14], 8) == At(got, 8)
    {
      LiteralAdded(addr, literal, got, m.regs[15]);
      AddLr(w, m);
    }
  }

  lemma LiteralAdded(addr: Word, literal: Word, got: Word, pc: Word)
    requires pc == At(addr, 16) && At(addr + 16, literal) == got
    ensures (pc + literal) % W32 == got
  {
    ModAdd(addr + 16, literal);
  }

  /** The offset for the body at q, from the word that was read and the position p. */
  lemma OffsetRight(addr: Word, got: Word, p: nat, e: Slot, read: Word, off: Word)
    requires off == (got - addr - 12 + read - p + 4) % W32 && read == if e.stub then 0 else e.off
    ensures var q := if e.stub then p + 4 else p; (At(addr, q) + 8 + off) % W32 == At(got, Loaded(e))
  {
    var q := if e.stub then p + 4 else p;
    var raw := got - addr - 12 + read - p + 4;
    ModAdd(addr + q, 8 + off);
    ModAdd(raw, addr + q + 8);
    assert addr + q + 8 + raw == got + Loaded(e);
  }

  /** One round of the loop, at p; q is where the four instructions go. */
  method FillAt(plt: Text<Byte>, p: nat, x: Word, ghost e: Slot, ghost addr: Word, ghost got: Word) returns (q: nat)
    requires Blank(plt.data, p, e) && x == (got - addr - 12) % W32
    modifies plt
    ensures q + 16 == p + Length(e) && OutsideSame(old(plt.data), plt.data, p, p + Length(e))
    ensures Reaches(plt.data, p, e, addr, got)
  {
    ghost var before := plt.data;
    var read := Read32(plt.data, p + 4);
    var off := (x + read - p + 4) % W32;
    SameOffset(x, got - addr - 12, read, p, off);
    OffsetRight(addr, got, p, e, read, off);
    q := p;
    if Read32(plt.data, p) == STUB { q := p + 4; }
    FillEntry(plt, q, off, At(addr, q), At(got, Loaded(e)));
    if e.stub { SameWord(before, plt.data, q, q + 16, p); }
  }

  /** relocate_plt: every entry jumps through a GOT word, its own unless a stub stands in front, and PLT0 through the
      third. */
  method RelocatePlt(plt: Text<Byte>, addr: Word, got: Word, ghost slots: seq<Slot>)
    requires Reserved(plt.data, slots)
    modifies plt
    ensures |plt.data| == |old(plt.data)|
    ensures slots != [] ==> FirstJumps(plt.data, addr, got) && Filled(plt.data, slots, |slots|, addr, got)
  {
    var end := |plt.data|;
    if 0 < end {
      var x := (got - addr - 12) % W32;
      ghost var s0 := plt.data;
      Put(plt, 16, (x - 4) % W32);
      StartRelocation(s0, plt.data, slots, addr, got, x);
      ghost var n := 0;
      var p := 20;
      while p < end
        invariant n <= |slots| && p == Start(slots, n) && Filled(plt.data, slots, n, addr, got)
        invariant |plt.data| == end && FirstReaches(plt.data, addr, got)
        decreases end - p
      {
        ghost var before := plt.data;
        assert n < |slots|;
        assert BlankAt(before, slots, n);
        StartGrows(slots, 0, n);
        var q := FillAt(plt, p, x, slots[n], addr, got);
        FilledNext(before, plt.data, slots, n, addr, got);
        FirstStill(before, plt.data, addr, got);
        p := q + 16;
        n := n + 1;
      }
      StartGrows(slots, n, |slots|);
      FirstExecutes(plt.data, addr, got);
    }
  }

  lemma SameOffset(x: Word, raw: int, read: Word, p: nat, off: Word)
    requires x == raw % W32 && off == (x + read - p + 4) % W32
    ensures off == (raw + read - p + 4) % W32
  {
    ModAdd(raw, read - p + 4);
  }

  lemma StartRelocation(s: Code, s': Code, slots: seq<Slot>, addr: Word, got: Word, x: Word)
    requires Reserved(s, slots) && slots != [] && OutsideSame(s, s', 16, 20) && x == (got - addr - 12) % W32
    requires Read32(s', 16) == (x - 4) % W32
    ensures Filled(s', slots, 0, addr, got) && FirstReaches(s', addr, got)
  {
    forall k | 0 <= k < |slots| ensures BlankAt(s', slots, k) {
      StartGrows(slots, 0, k);
      assert BlankAt(s, slots, k);
      BlankStill(s, s', 16, 20, Start(slots, k), slots[k]);
    }
    SameWord(s, s', 16, 20, 0);
    SameWord(s, s', 16, 20, 4);
    SameWord(s, s', 16, 20, 8);
    SameWord(s, s', 16, 20, 12);
    FirstValue(addr, got, x, Read32(s', 16));
  }

  lemma FirstValue(addr: Word, got: Word, x: Word, w: Word)
    requires x == (got - addr - 12) % W32 && w == (x - 4) % W32
    ensures At(addr + 16, w) == got
  {
    ModAdd(got - addr - 12, -4);
    ModAdd(got - addr - 16, addr + 16);
  }

  lemma FirstStill(s: Code, s': Code, addr: Word, got: Word)
    requires FirstReaches(s, addr, got) && |s'| == |s| && forall i :: 0 <= i < 20 ==> s'[i] == s[i]
    ensures FirstReaches(s', addr, got)
  {
    SameWord(s, s', 20, |s|, 0);
    SameWord(s, s', 20, |s|, 4);
    SameWord(s, s', 20, |s|, 8);
    SameWord(s, s', 20, |s|, 12);
    SameWord(s, s', 20, |s|, 16);
  }

  // ---- Entries with a Thumb stub ----

  /** The words of an entry jump through one place only. */
  lemma OneTarget(w0: Word, w1: Word, w2: Word, w3: Word, at: Word, target: Word, target': Word)
    requires WordsJump(w0, w1, w2, w3, at, target) && WordsJump(w0, w1, w2, w3, at, target')
    ensures target == target'
  {
    var regs: Regs := seq(16, i => if i == 15 then (at + 8) % W32 else 0);
    var m := Machine(regs, Flags(false, false, false, false));
    assert m.regs[15] == (at + 8) % W32;
    assert JumpAt(w0, w1, w2, w3, m) == target;
  }

  lemma OneSlot(got: Word, i: Word, j: Word)
    ensures At(got, i) == At(got, j) <==> i == j
  {
    var u, v := got + i, got + j;
    assert u % W32 == if u < W32 then u else u - W32;
    assert v % W32 == if v < W32 then v else v - W32;
  }

  /** An entry jumps through its own GOT word exactly when no stub stands in front of it, or its word is the second. */
  lemma StubExact(s: Code, slots: seq<Slot>, addr: Word, got: Word, k: nat)
    requires Filled(s, slots, |slots|, addr, got) && k < |slots|
    ensures Body(slots, k) + 16 <= |s|
    ensures JumpsThrough(s, Body(slots, k), At(addr, Body(slots, k)), At(got, slots[k].off)) <==>
              !slots[k].stub || slots[k].off == 4
  {
    var e, p := slots[k], Body(slots, k);
    assert ReachesAt(s, slots, k, addr, got);
    OneSlot(got, Loaded(e), e.off);
    if JumpsThrough(s, p, At(addr, p), At(got, e.off)) {
      OneTarget(Read32(s, p), Read32(s, p + 4), Read32(s, p + 8), Read32(s, p + 12), At(addr, p), At(got, Loaded(e)),
                At(got, e.off));
    }
  }

  /** Every GOT word in `rels` leads to PLT0, loaded at `addr`. */
  ghost predicate PointsAtStart(got: Code, rels: seq<nat>, n: nat, addr: Word) {
    n <= |rels| && forall k: nat :: k < n ==> rels[k] + 4 <= |got| && Read32(got, rels[k]) == addr
  }

  lemma PointsNext(s: Code, s': Code, rels: seq<nat>, n: nat, addr: Word)
    requires SlotsApart(rels, 4, |s|) && n < |rels| && PointsAtStart(s, rels, n, addr)
    requires OutsideSame(s, s', rels[n], rels[n] + 4) && Read32(s', rels[n]) == addr
    ensures PointsAtStart(s', rels, n + 1, addr)
  {
    forall j: nat | j < n ensures Read32(s', rels[j]) == Read32(s, rels[j]) {
      SameWord(s, s', rels[n], rels[n] + 4, rels[j]);
    }
  }

  /** The loop over the relocations of the table, given by the GOT offsets they are for. */
  method RelocateGot(got: Text<Byte>, rels: seq<nat>, addr: Word)
    requires SlotsApart(rels, 4, |got.data|)
    modifies got
    ensures PointsAtStart(got.data, rels, |rels|, addr) && OutsideSlotsSame(old(got.data), got.data, rels, |rels|, 4)
  {
    for k := 0 to |rels|
      invariant PointsAtStart(got.data, rels, k, addr) && OutsideSlotsSame(old(got.data), got.data, rels, k, 4)
    {
      ghost var before := got.data;
      Put(got, rels[k], addr);
      PointsNext(before, got.data, rels, k, addr);
      OutsideSlotsNext(old(got.data), before, got.data, rels, k, 4);
    }
  }
}
