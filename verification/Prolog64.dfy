/** The stores at the start of an A64 function, executed: every parameter lies in the frame where the compiler takes it
    to be. */
module Prolog64 {
  import opened Base
  import CodeBytes
  import opened Pcs64
  import opened Text

  type Word = CodeBytes.Word

  // ---- The instructions used ----

  /** Registers in words, the low one first. */
  type Dword = d: seq<Word> | |d| == 2 witness [0, 0]

  type Quad = q: seq<Word> | |q| == 4 witness [0, 0, 0, 0]

  datatype Machine = Machine(sp: int, x: nat -> Dword, v: nat -> Quad, mem: map<int, Word>)

  /** Consecutive words from the address a on. */
  function Put(mem: map<int, Word>, a: int, ws: seq<Word>): map<int, Word> {
    if ws == [] then mem else Put(mem, a, ws[..|ws| - 1])[a + 4 * (|ws| - 1) := ws[|ws| - 1]]
  }

  /** The general register r; 31 is the zero register. */
  function Gpr(m: Machine, r: nat): Dword { if r == 31 then [0, 0] else m.x(r) }

  function Op(w: Word): int { w / 0x40_0000 }

  function Rt(w: Word): nat { w % 0x20 }

  function Rn(w: Word): nat { w / 0x20 % 0x20 }

  function Rt2(w: Word): nat { w / 0x400 % 0x20 }

  function Imm7(w: Word): int {
    var i := w / 0x8000 % 0x80;
    if i < 0x40 then i else i - 0x80
  }

  function Imm12(w: Word): nat { w / 0x400 % 0x1000 }

  /** STP of general registers relative to sp, plain or changing sp first; STP of vector registers; STR of the low part
      of a vector register. None for anything else. */
  function Step(w: Word, m: Machine): Option<Machine> {
    if Rn(w) != 31 then None
    else if Op(w) == 0x2a4 then Some(m.(mem := Put(m.mem, m.sp + 8 * Imm7(w), Gpr(m, Rt(w)) + Gpr(m, Rt2(w)))))
    else if Op(w) == 0x2a6 then
      var sp := m.sp + 8 * Imm7(w);
      Some(m.(sp := sp, mem := Put(m.mem, sp, Gpr(m, Rt(w)) + Gpr(m, Rt2(w)))))
    else if Op(w) == 0x2b4 then Some(m.(mem := Put(m.mem, m.sp + 16 * Imm7(w), m.v(Rt(w)) + m.v(Rt2(w)))))
    else if Op(w) == 0x3f4 then Some(m.(mem := Put(m.mem, m.sp + 8 * Imm12(w), m.v(Rt(w))[..2])))
    else if Op(w) == 0x2f4 then Some(m.(mem := Put(m.mem, m.sp + 4 * Imm12(w), m.v(Rt(w))[..1])))
    else None
  }

  function Run(code: seq<Word>, m: Machine): Option<Machine> {
    if code == [] then Some(m)
    else
      match Run(code[..|code| - 1], m)
      case Some(n) => Step(code[|code| - 1], n)
      case None => None
  }

  // ---- Memory ----

  /** The words ws lie at a. */
  predicate Lies(mem: map<int, Word>, a: int, ws: seq<Word>) {
    forall k :: 0 <= k < |ws| ==> a + 4 * k in mem && mem[a + 4 * k] == ws[k]
  }

  predicate SameAt(mem: map<int, Word>, mem': map<int, Word>, b: int) {
    (b in mem <==> b in mem') && (b in mem ==> mem'[b] == mem[b])
  }

  /** Only what lies from lo up to hi may differ. */
  ghost predicate SameAway(mem: map<int, Word>, mem': map<int, Word>, lo: int, hi: int) {
    forall b :: b < lo || hi <= b ==> SameAt(mem, mem', b)
  }

  lemma {:induction false} PutHolds(mem: map<int, Word>, a: int, ws: seq<Word>)
    ensures Lies(Put(mem, a, ws), a, ws) && SameAway(mem, Put(mem, a, ws), a, a + 4 * |ws|)
  {
    if ws != [] {
      var front := ws[..|ws| - 1];
      PutHolds(mem, a, front);
      forall k | 0 <= k < |ws| ensures a + 4 * k in Put(mem, a, ws) && Put(mem, a, ws)[a + 4 * k] == ws[k] {
        if k < |ws| - 1 { assert front[k] == ws[k]; }
      }
      forall b | b < a || a + 4 * |ws| <= b ensures SameAt(mem, Put(mem, a, ws), b) {
        assert SameAt(mem, Put(mem, a, front), b);
      }
    }
  }

  lemma HoldsAway(mem: map<int, Word>, mem': map<int, Word>, lo: int, hi: int, a: int, ws: seq<Word>)
    requires Lies(mem, a, ws) && SameAway(mem, mem', lo, hi) && (a + 4 * |ws| <= lo || hi <= a)
    ensures Lies(mem', a, ws)
  {
    forall k | 0 <= k < |ws| ensures a + 4 * k in mem' && mem'[a + 4 * k] == ws[k] {
      assert SameAt(mem, mem', a + 4 * k);
    }
  }

  lemma AwayTwice(mem: map<int, Word>, mem': map<int, Word>, mem'': map<int, Word>, lo: int, hi: int, lo': int,
        hi': int)
    requires SameAway(mem, mem', lo, hi) && SameAway(mem', mem'', lo', hi') && lo <= lo' && hi' <= hi
    ensures SameAway(mem, mem'', lo, hi)
  {
    forall b | b < lo || hi <= b ensures SameAt(mem, mem'', b) {
      assert SameAt(mem, mem', b) && SameAt(mem', mem'', b);
    }
  }

  lemma HoldsParts(mem: map<int, Word>, a: int, ws: seq<Word>, us: seq<Word>)
    requires Lies(mem, a, ws + us)
    ensures Lies(mem, a, ws) && Lies(mem, a + 4 * |ws|, us)
  {
    forall k | 0 <= k < |ws| ensures a + 4 * k in mem && mem[a + 4 * k] == ws[k] { assert (ws + us)[k] == ws[k]; }
    forall k | 0 <= k < |us| ensures a + 4 * |ws| + 4 * k in mem && mem[a + 4 * |ws| + 4 * k] == us[k] {
      assert (ws + us)[|ws| + k] == us[k];
    }
  }

  // ---- The words emitted ----

  function VectorSave(i: nat): int { 0xad00_87e0 + i * 0x1_0000 + i * 0x800 + i * 2 }

  function GeneralSave(i: nat): int { 0xa90a_07e0 + i * 0x1_0000 + i * 0x800 + i * 2 }

  /** The machine after ws have been stored at a. */
  function Stored(m: Machine, a: int, ws: seq<Word>): Machine { m.(mem := Put(m.mem, a, ws)) }

  lemma EnterSteps(m: Machine)
    ensures Step(0xa9b2_7bfd, m) == Some(Stored(m.(sp := m.sp - 224), m.sp - 224, m.x(29) + m.x(30)))
  {
    var w := 0xa9b2_7bfd;
    assert Op(w) == 0x2a6 && Imm7(w) == -28 && Rt(w) == 29 && Rt2(w) == 30 && Rn(w) == 31;
  }

  lemma X8Steps(m: Machine)
    ensures Step(0xa909_23e8, m) == Some(Stored(m, m.sp + 144, m.x(8) + m.x(8)))
  {
    var w := 0xa909_23e8;
    assert Op(w) == 0x2a4 && Imm7(w) == 18 && Rt(w) == 8 && Rt2(w) == 8 && Rn(w) == 31;
  }

  lemma VectorSaveSteps(i: nat, w: int, m: Machine)
    requires i < 4 && w == VectorSave(i)
    ensures 0 <= w < W32 && Step(w, m) == Some(Stored(m, m.sp + 16 + 32 * i, m.v(2 * i) + m.v(2 * i + 1)))
  {
    VectorFields(i, w);
  }

  /** STP of op, with the registers t and t + 1 and sp. */
  predicate IsPair(w: Word, op: int, imm: int, t: int) {
    Op(w) == op && Imm7(w) == imm && Rn(w) == 31 && Rt(w) == t && Rt2(w) == t + 1
  }

  lemma VectorFields(i: nat, w: int)
    requires i < 4 && w == VectorSave(i)
    ensures 0 <= w < W32 && IsPair(w, 0x2b4, 1 + 2 * i, 2 * i)
  {
    PairWords();
  }

  lemma PairWords()
    ensures IsPair(0xad00_87e0, 0x2b4, 1, 0) && IsPair(0xad01_8fe2, 0x2b4, 3, 2)
    ensures IsPair(0xad02_97e4, 0x2b4, 5, 4) && IsPair(0xad03_9fe6, 0x2b4, 7, 6)
    ensures IsPair(0xa90a_07e0, 0x2a4, 20, 0) && IsPair(0xa90b_0fe2, 0x2a4, 22, 2)
    ensures IsPair(0xa90c_17e4, 0x2a4, 24, 4) && IsPair(0xa90d_1fe6, 0x2a4, 26, 6)
  {
  }

  lemma GeneralSaveSteps(i: nat, w: int, m: Machine)
    requires i < 4 && w == GeneralSave(i)
    ensures 0 <= w < W32 && Step(w, m) == Some(Stored(m, m.sp + 160 + 16 * i, m.x(2 * i) + m.x(2 * i + 1)))
  {
    GeneralFields(i, w);
  }

  lemma GeneralFields(i: nat, w: int)
    requires i < 4 && w == GeneralSave(i)
    ensures 0 <= w < W32 && IsPair(w, 0x2a4, 20 + 2 * i, 2 * i)
  {
    PairWords();
  }

  /** STR of the low size bytes, 4 or 8, of v(r) at the n-th such place. */
  function ElementStore(size: nat, r: nat, n: nat): int {
    (if size == 8 then 0xfd00_03e0 else 0xbd00_03e0) + r + n * 0x400
  }

  lemma ElementSteps(size: nat, r: nat, n: nat, w: int, m: Machine)
    requires (size == 4 || size == 8) && r < 32 && n < 0x1000 && w == ElementStore(size, r, n)
    ensures 0 <= w < W32 && Step(w, m) == Some(Stored(m, m.sp + size * n, m.v(r)[..size / 4]))
  {
    var base := if size == 8 then 0xfd00_03e0 else 0xbd00_03e0;
    ElementFields(base, r, n, w);
    assert Op(w) == if size == 8 then 0x3f4 else 0x2f4;
  }

  lemma ElementFields(base: int, r: nat, n: nat, w: int)
    requires (base == 0xfd00_03e0 || base == 0xbd00_03e0) && r < 32 && n < 0x1000 && w == base + r + n * 0x400
    ensures 0 <= w < W32 && Rn(w) == 31 && Rt(w) == r && Imm12(w) == n && Op(w) == base / 0x40_0000
  {
    assert w / 0x400 == base / 0x400 + n && w % 0x400 == 0x3e0 + r;
    assert w / 0x20 == w / 0x400 * 0x20 + 31;
  }

  // ---- Emission ----

  method EmitStep(text: Text<Word>, w: Word, ghost start: nat, ghost m0: Machine, ghost m: Machine)
    requires start <= |text.data| && Run(text.data[start..], m0) == Some(m) && Step(w, m).Some?
    modifies text
    ensures old(text.data) <= text.data && start <= |text.data|
    ensures Run(text.data[start..], m0) == Step(w, m)
  {
    ghost var code := text.data[start..];
    text.Emit(w);
    assert text.data[start..] == code + [w];
    assert (code + [w])[..|code|] == code;
  }

  /** The frame is there, with x29 and x30 at its bottom, and the caller's memory is as it was. */
  ghost predicate Entered(m0: Machine, m: Machine) {
    m.x == m0.x && m.v == m0.v && m.sp == m0.sp - 224 && Lies(m.mem, m.sp, m0.x(29) + m0.x(30)) &&
    SameAway(m0.mem, m.mem, m.sp, m.sp + 224)
  }

  predicate VectorLies(m0: Machine, m: Machine, r: nat) { Lies(m.mem, m.sp + 16 + 16 * r, m0.v(r)) }

  predicate GeneralLies(m0: Machine, m: Machine, r: nat) { Lies(m.mem, m.sp + 160 + 8 * r, m0.x(r)) }

  predicate X8Lies(m0: Machine, m: Machine) { Lies(m.mem, m.sp + 144, m0.x(8)) }

  ghost predicate VectorsLie(m0: Machine, m: Machine, n: nat) { forall r: nat :: r < n ==> VectorLies(m0, m, r) }

  ghost predicate GeneralsLie(m0: Machine, m: Machine, n: nat) { forall r: nat :: r < n ==> GeneralLies(m0, m, r) }

  /** A store inside the frame, above x29 and x30. */
  lemma StillEntered(m0: Machine, m: Machine, a: int, ws: seq<Word>)
    requires Entered(m0, m) && m.sp + 16 <= a && a + 4 * |ws| <= m.sp + 224
    ensures Entered(m0, Stored(m, a, ws)) && SameAway(m.mem, Stored(m, a, ws).mem, a, a + 4 * |ws|)
  {
    PutHolds(m.mem, a, ws);
    HoldsAway(m.mem, Put(m.mem, a, ws), a, a + 4 * |ws|, m.sp, m0.x(29) + m0.x(30));
    AwayTwice(m0.mem, m.mem, Put(m.mem, a, ws), m.sp, m.sp + 224, a, a + 4 * |ws|);
  }

  lemma PairStored(m: Machine, a: int, us: seq<Word>, ws: seq<Word>, b: int)
    requires b == a + 4 * |us|
    ensures Lies(Stored(m, a, us + ws).mem, a, us) && Lies(Stored(m, a, us + ws).mem, b, ws)
  {
    PutHolds(m.mem, a, us + ws);
    HoldsParts(Put(m.mem, a, us + ws), a, us, ws);
  }

  lemma VectorAway(m0: Machine, m: Machine, m': Machine, lo: int, hi: int, r: nat)
    requires VectorLies(m0, m, r) && m'.sp == m.sp && SameAway(m.mem, m'.mem, lo, hi)
    requires m.sp + 16 + 16 * r + 16 <= lo || hi <= m.sp + 16 + 16 * r
    ensures VectorLies(m0, m', r)
  {
    HoldsAway(m.mem, m'.mem, lo, hi, m.sp + 16 + 16 * r, m0.v(r));
  }

  lemma GeneralAway(m0: Machine, m: Machine, m': Machine, lo: int, hi: int, r: nat)
    requires GeneralLies(m0, m, r) && m'.sp == m.sp && SameAway(m.mem, m'.mem, lo, hi)
    requires m.sp + 160 + 8 * r + 8 <= lo || hi <= m.sp + 160 + 8 * r
    ensures GeneralLies(m0, m', r)
  {
    HoldsAway(m.mem, m'.mem, lo, hi, m.sp + 160 + 8 * r, m0.x(r));
  }

  lemma VectorsGrow(m0: Machine, m: Machine, i: nat, a: int, m': Machine)
    requires Entered(m0, m) && VectorsLie(m0, m, 2 * i) && i < 4 && a == m.sp + 16 + 32 * i
    requires m' == Stored(m, a, m0.v(2 * i) + m0.v(2 * i + 1))
    ensures Entered(m0, m') && VectorsLie(m0, m', 2 * i + 2)
  {
    StillEntered(m0, m, a, m0.v(2 * i) + m0.v(2 * i + 1));
    PairStored(m, a, m0.v(2 * i), m0.v(2 * i + 1), a + 16);
    forall r: nat | r < 2 * i + 2 ensures VectorLies(m0, m', r) {
      if r < 2 * i { VectorAway(m0, m, m', a, a + 32, r); } else { assert r == 2 * i || r == 2 * i + 1; }
    }
  }

  lemma GeneralsGrow(m0: Machine, m: Machine, i: nat, a: int, m': Machine)
    requires Entered(m0, m) && GeneralsLie(m0, m, 2 * i) && i < 4 && a == m.sp + 160 + 16 * i
    requires m' == Stored(m, a, m0.x(2 * i) + m0.x(2 * i + 1))
    ensures Entered(m0, m') && GeneralsLie(m0, m', 2 * i + 2) && SameAway(m.mem, m'.mem, a, a + 16)
  {
    StillEntered(m0, m, a, m0.x(2 * i) + m0.x(2 * i + 1));
    PairStored(m, a, m0.x(2 * i), m0.x(2 * i + 1), a + 8);
    forall r: nat | r < 2 * i + 2 ensures GeneralLies(m0, m', r) {
      if r < 2 * i { GeneralAway(m0, m, m', a, a + 16, r); } else { assert r == 2 * i || r == 2 * i + 1; }
    }
  }

  lemma VectorsStay(m0: Machine, m: Machine, n: nat, m': Machine, lo: int, hi: int)
    requires VectorsLie(m0, m, n) && n <= 8 && m'.sp == m.sp && SameAway(m.mem, m'.mem, lo, hi) && m.sp + 144 <= lo
    ensures VectorsLie(m0, m', n)
  {
    forall r: nat | r < n ensures VectorLies(m0, m', r) { VectorAway(m0, m, m', lo, hi, r); }
  }

  /** The code from start on, executed on m0, leads to m. */
  ghost predicate Leads(text: Text<Word>, start: nat, m0: Machine, m: Machine)
    reads text
  {
    start <= |text.data| && Run(text.data[start..], m0) == Some(m)
  }

  lemma VectorSaved(m0: Machine, m: Machine, i: nat) returns (m': Machine)
    requires Entered(m0, m) && VectorsLie(m0, m, 2 * i) && i < 4
    ensures m' == Stored(m, m.sp + 16 + 32 * i, m.v(2 * i) + m.v(2 * i + 1))
    ensures Entered(m0, m') && VectorsLie(m0, m', 2 * i + 2)
  {
    m' := Stored(m, m.sp + 16 + 32 * i, m.v(2 * i) + m.v(2 * i + 1));
    VectorsGrow(m0, m, i, m.sp + 16 + 32 * i, m');
  }

  method SaveVectors(text: Text<Word>, n: nat, ghost start: nat, ghost m0: Machine, ghost m1: Machine)
    returns (ghost m: Machine)
    requires n <= 4 && Leads(text, start, m0, m1) && Entered(m0, m1)
    modifies text
    ensures old(text.data) <= text.data
    ensures Leads(text, start, m0, m) && Entered(m0, m) && VectorsLie(m0, m, 2 * n)
  {
    m := m1;
    var i := 0;
    while i < n
      invariant 0 <= i <= n && old(text.data) <= text.data
      invariant Leads(text, start, m0, m) && Entered(m0, m) && VectorsLie(m0, m, 2 * i)
    {
      var w := VectorSave(i);
      VectorSaveSteps(i, w, m);
      EmitStep(text, w, start, m0, m);
      m := VectorSaved(m0, m, i);
      i := i + 1;
    }
  }

  method SaveX8(text: Text<Word>, nv: nat, ghost start: nat, ghost m0: Machine, ghost m1: Machine)
    returns (ghost m: Machine)
    requires nv <= 8 && Leads(text, start, m0, m1) && Entered(m0, m1) && VectorsLie(m0, m1, nv)
    modifies text
    ensures old(text.data) <= text.data
    ensures Leads(text, start, m0, m) && Entered(m0, m) && VectorsLie(m0, m, nv) && X8Lies(m0, m)
  {
    X8Steps(m1);
    EmitStep(text, 0xa909_23e8, start, m0, m1);
    m := X8Saved(m0, m1, nv);
  }

  lemma X8Saved(m0: Machine, m: Machine, nv: nat) returns (m': Machine)
    requires nv <= 8 && Entered(m0, m) && VectorsLie(m0, m, nv)
    ensures m' == Stored(m, m.sp + 144, m.x(8) + m.x(8))
    ensures Entered(m0, m') && VectorsLie(m0, m', nv) && X8Lies(m0, m')
  {
    var a := m.sp + 144;
    m' := Stored(m, a, m.x(8) + m.x(8));
    StillEntered(m0, m, a, m.x(8) + m.x(8));
    PairStored(m, a, m.x(8), m.x(8), a + 8);
    VectorsStay(m0, m, nv, m', a, a + 16);
  }

  /** What has been saved so far. */
  ghost predicate Saving(m0: Machine, m: Machine, nv: nat, useX8: bool, nx: nat) {
    Entered(m0, m) && VectorsLie(m0, m, nv) && (useX8 ==> X8Lies(m0, m)) && GeneralsLie(m0, m, nx)
  }

  lemma SavingNext(m0: Machine, m: Machine, nv: nat, useX8: bool, i: nat, m': Machine)
    requires Saving(m0, m, nv, useX8, 2 * i) && nv <= 8 && i < 4
    requires m' == Stored(m, m.sp + 160 + 16 * i, m.x(2 * i) + m.x(2 * i + 1))
    ensures Saving(m0, m', nv, useX8, 2 * i + 2)
  {
    var a := m.sp + 160 + 16 * i;
    GeneralsGrow(m0, m, i, a, m');
    VectorsStay(m0, m, nv, m', a, a + 16);
    if useX8 { HoldsAway(m.mem, m'.mem, a, a + 16, m.sp + 144, m0.x(8)); }
  }

  method SaveGenerals(text: Text<Word>, n: nat, nv: nat, useX8: bool, ghost start: nat, ghost m0: Machine,
        ghost m1: Machine)
    returns (ghost m: Machine)
    requires n <= 4 && nv <= 8 && Leads(text, start, m0, m1) && Saving(m0, m1, nv, useX8, 0)
    modifies text
    ensures old(text.data) <= text.data
    ensures Leads(text, start, m0, m) && Saving(m0, m, nv, useX8, 2 * n)
  {
    m := m1;
    var i := 0;
    while i < n
      invariant 0 <= i <= n && old(text.data) <= text.data
      invariant Leads(text, start, m0, m) && Saving(m0, m, nv, useX8, 2 * i)
    {
      var w := GeneralSave(i);
      GeneralSaveSteps(i, w, m);
      EmitStep(text, w, start, m0, m);
      ghost var next := Stored(m, m.sp + 160 + 16 * i, m.x(2 * i) + m.x(2 * i + 1));
      SavingNext(m0, m, nv, useX8, i, next);
      m := next;
      i := i + 1;
    }
  }

  /** The frame, and the registers saved in it. */
  method SaveRegisters(text: Text<Word>, lastFloat: nat, useX8: bool, lastInt: nat, ghost m0: Machine)
    returns (ghost m: Machine)
    requires lastFloat <= 4 && lastInt <= 4
    modifies text
    ensures old(text.data) <= text.data
    ensures Leads(text, |old(text.data)|, m0, m) && Saving(m0, m, 2 * lastFloat, useX8, 2 * lastInt)
  {
    ghost var start := |text.data|;
    assert text.data[start..] == [];
    EnterSteps(m0);
    EmitStep(text, 0xa9b2_7bfd, start, m0, m0);
    m := Stored(m0.(sp := m0.sp - 224), m0.sp - 224, m0.x(29) + m0.x(30));
    PutHolds(m0.mem, m0.sp - 224, m0.x(29) + m0.x(30));
    FrameEntered(m0, m);
    m := SaveVectors(text, lastFloat, start, m0, m);
    if useX8 { m := SaveX8(text, 2 * lastFloat, start, m0, m); }
    m := SaveGenerals(text, lastInt, 2 * lastFloat, useX8, start, m0, m);
  }

  lemma FrameEntered(m0: Machine, m: Machine)
    requires m == Stored(m0.(sp := m0.sp - 224), m0.sp - 224, m0.x(29) + m0.x(30))
    ensures Entered(m0, m)
  {
    PutHolds(m0.mem, m0.sp - 224, m0.x(29) + m0.x(30));
    forall b | b < m.sp || m.sp + 224 <= b ensures SameAt(m0.mem, m.mem, b) { }
  }

  // ---- Parameters ----

  /** What arm64_hfa tells besides the number of floats: their size. */
  predicate FloatSizes(ts: seq<Type>, es: seq<nat>) {
    |es| == |ts| && forall i :: 0 <= i < |ts| && ts[i].hfa > 0 ==> FloatSize(ts[i], es[i])
  }

  predicate FloatSize(t: Type, e: nat) { (e == 4 || e == 8 || e == 16) && t.size == t.hfa * e }

  /** An aggregate of floats or doubles lies in the vector registers one by one and in memory side by side. */
  predicate Packed(t: Type, e: nat) { t.hfa > 0 && e < 16 }

  /** Relative to the frame, at the offset that the compiler notes, the parameter lies as it does in memory. */
  ghost predicate InFrame(m0: Machine, m: Machine, t: Type, e: nat, l: Loc) {
    var at := m.sp + PrologOffset(Code(l));
    match l
    case X(first, count, _) => forall k: nat :: k < count ==> Lies(m.mem, at + 8 * k, m0.x(first + k))
    case V(first, count) =>
      if Packed(t, e) then ElementsLie(m0, m, first, at, e, count)
      else forall k: nat :: k < count ==> Lies(m.mem, at + 16 * k, m0.v(first + k))
    case Stack(offset, _, _) => at == m0.sp + (offset - 32)
  }

  /** n floats of e bytes each, side by side from a on. */
  ghost predicate ElementsLie(m0: Machine, m: Machine, first: nat, a: int, e: nat, n: nat) {
    e <= 16 && forall k: nat :: k < n ==> Lies(m.mem, a + e * k, m0.v(first + k)[..e / 4])
  }

  lemma ElementsApart(e: nat, k: nat, n: nat)
    requires (e == 4 || e == 8) && k < n
    ensures e * k + 4 * (e / 4) <= e * n
  {
  }

  lemma ElementStored(m0: Machine, m: Machine, first: nat, a: int, e: nat, n: nat, b: int, m': Machine)
    requires (e == 4 || e == 8) && n < 4 && b == a + e * n && ElementsLie(m0, m, first, a, e, n)
    requires Entered(m0, m) && m.sp + 16 <= a && b + e <= m.sp + 224 && m' == Stored(m, b, m0.v(first + n)[..e / 4])
    ensures Entered(m0, m') && ElementsLie(m0, m', first, a, e, n + 1) && SameAway(m.mem, m'.mem, b, b + e)
  {
    var ws := m0.v(first + n)[..e / 4];
    StillEntered(m0, m, b, ws);
    PutHolds(m.mem, b, ws);
    forall k: nat | k < n + 1 ensures Lies(m'.mem, a + e * k, m0.v(first + k)[..e / 4]) {
      if k < n { ElementKept(m.mem, m'.mem, a, e, k, n, b, m0.v(first + k)[..e / 4]); }
    }
  }

  lemma ElementKept(mem: map<int, Word>, mem': map<int, Word>, a: int, e: nat, k: nat, n: nat, b: int, ws: seq<Word>)
    requires (e == 4 || e == 8) && k < n && b == a + e * n && |ws| == e / 4
    requires Lies(mem, a + e * k, ws) && SameAway(mem, mem', b, b + e)
    ensures Lies(mem', a + e * k, ws)
  {
    ElementsApart(e, k, n);
    HoldsAway(mem, mem', b, b + e, a + e * k, ws);
  }

  /** The place of float k of an aggregate at offset off, counted in floats. */
  function Place(e: nat, off: nat, k: nat): nat
    requires e > 0
  {
    off / e + k
  }

  lemma ElementPlace(e: nat, off: nat, k: nat, n: nat)
    requires (e == 4 || e == 8) && off % 16 == 0 && n == Place(e, off, k) && off < 144 && k < 8
    ensures e * n == off + e * k && n < 0x1000
  {
  }

  lemma ElementWord(e: nat, first: nat, k: nat, n: nat, w: int, m: Machine)
    requires (e == 4 || e == 8) && first + k < 8 && n == Place(e, 16 + 16 * first, k)
    requires w == ElementStore(e, first + k, n)
    ensures 0 <= w < W32
    ensures Step(w, m) == Some(Stored(m, m.sp + (16 + 16 * first + e * k), m.v(first + k)[..e / 4]))
  {
    ElementPlace(e, 16 + 16 * first, k, n);
    ElementSteps(e, first + k, n, w, m);
  }

  /** The stores for one aggregate. */
  method StoreElements(text: Text<Word>, e: nat, first: nat, count: nat, ghost start: nat, ghost m0: Machine,
        ghost m1: Machine, ghost a: int)
    returns (ghost m: Machine)
    requires (e == 4 || e == 8) && count <= 4 && first + count <= 8 && 0 < count
    requires Leads(text, start, m0, m1) && Entered(m0, m1) && a == m1.sp + 16 + 16 * first
    modifies text
    ensures old(text.data) <= text.data && Leads(text, start, m0, m) && Entered(m0, m)
    ensures ElementsLie(m0, m, first, a, e, count) && SameAway(m1.mem, m.mem, a, a + 16 * count)
  {
    var off := 16 + 16 * first;
    m := m1;
    var j := 0;
    while j < count
      invariant 0 <= j <= count && old(text.data) <= text.data && Leads(text, start, m0, m) && Entered(m0, m)
      invariant ElementsLie(m0, m, first, a, e, j) && SameAway(m1.mem, m.mem, a, a + 16 * count)
    {
      var n := Place(e, off, j);
      var w := ElementStore(e, first + j, n);
      ElementWord(e, first, j, n, w, m);
      EmitStep(text, w, start, m0, m);
      m := ElementSaved(m0, m1, m, first, a, e, j, count);
      j := j + 1;
    }
  }

  lemma ElementSaved(m0: Machine, m1: Machine, m: Machine, first: nat, a: int, e: nat, n: nat, count: nat)
    returns (m': Machine)
    requires (e == 4 || e == 8) && n < count <= 4 && first + count <= 8 && a == m.sp + 16 + 16 * first
    requires ElementsLie(m0, m, first, a, e, n) && Entered(m0, m) && SameAway(m1.mem, m.mem, a, a + 16 * count)
    ensures m' == Stored(m, m.sp + (16 + 16 * first + e * n), m.v(first + n)[..e / 4])
    ensures Entered(m0, m') && ElementsLie(m0, m', first, a, e, n + 1) && SameAway(m1.mem, m'.mem, a, a + 16 * count)
  {
    var b := a + e * n;
    m' := Stored(m, b, m0.v(first + n)[..e / 4]);
    ElementStored(m0, m, first, a, e, n, b, m');
    AwayTwice(m1.mem, m.mem, m'.mem, a, a + 16 * count, b, b + e);
  }

  /** The end of the registers of each class that the parameters use. */
  ghost predicate VectorsFrom(m0: Machine, m: Machine, lo: nat, hi: nat) {
    forall r: nat :: lo <= r < hi ==> VectorLies(m0, m, r)
  }

  /** Up to n, and those that need no stores of their own, the parameters lie in the frame. */
  ghost predicate Placed(m0: Machine, m: Machine, ts: seq<Type>, es: seq<nat>, n: nat)
    requires AllWellFormed(ts) && |es| == |ts|
  {
    forall i :: 0 <= i < |ts| && (i < n || !Packed(ts[i], es[i])) ==> InFrame(m0, m, ts[i], es[i], LocOf(ts, i))
  }

  lemma SavedInFrame(m0: Machine, m: Machine, t: Type, e: nat, l: Loc, lastInt: nat, lastFloat: nat)
    requires Entered(m0, m) && VectorsLie(m0, m, 2 * lastFloat) && GeneralsLie(m0, m, 2 * lastInt)
    requires Saved(l, lastInt, lastFloat) && !Packed(t, e) && lastInt <= 4 && lastFloat <= 4
    requires (l.Stack? ==> l.offset >= 32) && PrologOffset(Code(l)) == FrameStart(l)
    ensures InFrame(m0, m, t, e, l)
  {
    match l
    case X(first, count, _) =>
      forall k: nat | k < count ensures Lies(m.mem, m.sp + PrologOffset(Code(l)) + 8 * k, m0.x(first + k)) {
        assert GeneralLies(m0, m, first + k);
      }
    case V(first, count) =>
      forall k: nat | k < count ensures Lies(m.mem, m.sp + PrologOffset(Code(l)) + 16 * k, m0.v(first + k)) {
        assert VectorLies(m0, m, first + k);
      }
    case Stack(_, _, _) =>
  }

  /** What lies in the frame is not touched by stores for another parameter. */
  lemma InFrameAway(m0: Machine, m: Machine, m': Machine, t: Type, e: nat, l: Loc, lo: int, hi: int)
    requires InFrame(m0, m, t, e, l) && m'.sp == m.sp && SameAway(m.mem, m'.mem, lo, hi)
    requires var p := m.sp + PrologOffset(Code(l)); p + FrameSize(l) <= lo || hi <= p
    ensures InFrame(m0, m', t, e, l)
  {
    var at := m.sp + PrologOffset(Code(l));
    match l
    case X(first, count, _) =>
      forall k: nat | k < count ensures Lies(m'.mem, at + 8 * k, m0.x(first + k)) {
        HoldsAway(m.mem, m'.mem, lo, hi, at + 8 * k, m0.x(first + k));
      }
    case V(first, count) =>
      if Packed(t, e) {
        ElementsAway(m0, m, m', first, at, e, count, lo, hi);
      } else {
        forall k: nat | k < count ensures Lies(m'.mem, at + 16 * k, m0.v(first + k)) {
          HoldsAway(m.mem, m'.mem, lo, hi, at + 16 * k, m0.v(first + k));
        }
      }
    case Stack(_, _, _) =>
  }

  lemma ElementsAway(m0: Machine, m: Machine, m': Machine, first: nat, a: int, e: nat, n: nat, lo: int, hi: int)
    requires ElementsLie(m0, m, first, a, e, n) && SameAway(m.mem, m'.mem, lo, hi) && (a + 16 * n <= lo || hi <= a)
    ensures ElementsLie(m0, m', first, a, e, n)
  {
    forall k: nat | k < n ensures Lies(m'.mem, a + e * k, m0.v(first + k)[..e / 4]) {
      ElementInside(e, k, n);
      HoldsAway(m.mem, m'.mem, lo, hi, a + e * k, m0.v(first + k)[..e / 4]);
    }
  }

  lemma ElementInside(e: nat, k: nat, n: nat)
    requires e <= 16 && k < n
    ensures 0 <= e * k && e * k + 4 * (e / 4) <= 16 * n
  {
    assert e * k <= 16 * k by { assert (16 - e) * k >= 0; }
  }

  /** Besides the parameters: x8 if need be, every general register saved, and the vector registers that no parameter
      uses, which va_arg may look for. */
  ghost predicate RestSaved(m0: Machine, m: Machine, ts: seq<Type>, useX8: bool, lastInt: nat, lastFloat: nat)
    requires AllWellFormed(ts)
  {
    (useX8 ==> X8Lies(m0, m)) && GeneralsLie(m0, m, 2 * lastInt) &&
    forall r: nat :: After(ts).nv <= r < 2 * lastFloat ==> VectorLies(m0, m, r)
  }

  lemma RestStays(m0: Machine, m: Machine, ts: seq<Type>, useX8: bool, lastInt: nat, lastFloat: nat, m': Machine,
        lo: int, hi: int)
    requires AllWellFormed(ts) && RestSaved(m0, m, ts, useX8, lastInt, lastFloat) && lastInt <= 4 && lastFloat <= 4
    requires m'.sp == m.sp && SameAway(m.mem, m'.mem, lo, hi)
    requires m.sp + 16 <= lo && hi <= m.sp + 16 + 16 * After(ts).nv <= m.sp + 144
    ensures RestSaved(m0, m', ts, useX8, lastInt, lastFloat)
  {
    if useX8 { HoldsAway(m.mem, m'.mem, lo, hi, m.sp + 144, m0.x(8)); }
    forall r: nat | r < 2 * lastInt ensures GeneralLies(m0, m', r) { GeneralAway(m0, m, m', lo, hi, r); }
    forall r: nat | After(ts).nv <= r < 2 * lastFloat ensures VectorLies(m0, m', r) {
      VectorAway(m0, m, m', lo, hi, r);
    }
  }

  /** The place of an aggregate of floats in registers. */
  lemma FloatsAt(ts: seq<Type>, i: nat, code: nat)
    requires AllWellFormed(ts) && i < |ts| && code == Code(LocOf(ts, i)) && ts[i].hfa > 0 && 16 <= code < 32
    ensures var l := LocOf(ts, i);
            l.V? && l.count == ts[i].hfa <= 4 && l.first == (code - 16) / 2 && l.first + l.count <= After(ts).nv <= 8 &&
            PrologOffset(code) == 16 + 16 * l.first
  {
    LocTakes(ts, i);
    CodeRead(ts, i);
    CountersGrow(ts, i + 1, |ts|);
    AfterInv(ts);
    assert ts[..|ts|] == ts;
  }

  lemma PlacedNext(m0: Machine, m: Machine, ts: seq<Type>, es: seq<nat>, i: nat, m': Machine, p: int)
    requires AllWellFormed(ts) && FloatSizes(ts, es) && i < |ts| && Placed(m0, m, ts, es, i)
    requires m'.sp == m.sp && p == m.sp + PrologOffset(Code(LocOf(ts, i)))
    requires SameAway(m.mem, m'.mem, p, p + FrameSize(LocOf(ts, i))) && InFrame(m0, m', ts[i], es[i], LocOf(ts, i))
    ensures Placed(m0, m', ts, es, i + 1)
  {
    forall j | 0 <= j < |ts| && (j < i + 1 || !Packed(ts[j], es[j]))
      ensures InFrame(m0, m', ts[j], es[j], LocOf(ts, j))
    {
      if j != i {
        if j < i { FrameSlotsDisjoint(ts, j, i); } else { FrameSlotsDisjoint(ts, i, j); }
        InFrameAway(m0, m, m', ts[j], es[j], LocOf(ts, j), p, p + FrameSize(LocOf(ts, i)));
      }
    }
  }

  lemma ElementsPlaced(m0: Machine, m: Machine, ts: seq<Type>, es: seq<nat>, i: nat, code: nat, m': Machine, first: nat,
        count: nat, e: nat, a: int)
    requires AllWellFormed(ts) && FloatSizes(ts, es) && i < |ts| && Placed(m0, m, ts, es, i) && m'.sp == m.sp
    requires code == Code(LocOf(ts, i)) && 16 <= code < 32 && ts[i].hfa > 0 && Packed(ts[i], e)
    requires first == (code - 16) / 2 && count == ts[i].hfa && e == es[i] && a == m.sp + 16 + 16 * first
    requires ElementsLie(m0, m', first, a, e, count) && SameAway(m.mem, m'.mem, a, a + 16 * count)
    ensures Placed(m0, m', ts, es, i + 1)
  {
    FloatsAt(ts, i, code);
    PlacedNext(m0, m, ts, es, i, m', a);
  }

  /** An aggregate that never came in vector registers needs no stores. */
  lemma NotPacked(m0: Machine, m: Machine, ts: seq<Type>, es: seq<nat>, i: nat, code: nat)
    requires AllWellFormed(ts) && FloatSizes(ts, es) && i < |ts| && Placed(m0, m, ts, es, i) && Entered(m0, m)
    requires code == Code(LocOf(ts, i)) && !(16 <= code < 32 && Packed(ts[i], es[i]))
    ensures Placed(m0, m, ts, es, i + 1)
  {
    CodeRead(ts, i);
    LocTakes(ts, i);
    if Packed(ts[i], es[i]) { assert LocOf(ts, i).Stack?; }
  }

  /** One round of the loop over the parameters. */
  method StoreParameter(text: Text<Word>, ts: seq<Type>, es: seq<nat>, code: nat, i: nat, ghost start: nat,
        ghost m0: Machine, ghost m1: Machine, ghost useX8: bool, ghost lastInt: nat, ghost lastFloat: nat)
    returns (ghost m: Machine)
    requires AllWellFormed(ts) && FloatSizes(ts, es) && i < |ts| && code == Code(LocOf(ts, i))
    requires Leads(text, start, m0, m1) && Entered(m0, m1) && Placed(m0, m1, ts, es, i)
    requires RestSaved(m0, m1, ts, useX8, lastInt, lastFloat) && lastInt <= 4 && lastFloat <= 4
    modifies text
    ensures old(text.data) <= text.data && Leads(text, start, m0, m) && Entered(m0, m)
    ensures Placed(m0, m, ts, es, i + 1) && RestSaved(m0, m, ts, useX8, lastInt, lastFloat)
  {
    m := m1;
    if 16 <= code < 32 && ts[i].hfa > 0 && es[i] < 16 {
      var first, count, e := (code - 16) / 2, ts[i].hfa, es[i];
      FloatsAt(ts, i, code);
      ghost var a := m1.sp + 16 + 16 * first;
      m := StoreElements(text, e, first, count, start, m0, m1, a);
      ElementsPlaced(m0, m1, ts, es, i, code, m, first, count, e, a);
      RestStays(m0, m1, ts, useX8, lastInt, lastFloat, m, a, a + 16 * count);
    } else {
      NotPacked(m0, m, ts, es, i, code);
    }
  }

  /** Whether x8 is saved: for an ellipsis, for a result behind it, and for a parameter whose address comes in x0. */
  method NeedsX8(codes: seq<nat>, ret: nat, variadic: bool) returns (useX8: bool)
    ensures useX8 <==> variadic || ret == 1 || 1 in codes
  {
    useX8 := variadic || ret == 1;
    var i := 0;
    while i < |codes|
      invariant 0 <= i <= |codes| && (useX8 <==> variadic || ret == 1 || 1 in codes[..i])
    {
      assert codes[..i + 1] == codes[..i] + [codes[i]];
      if codes[i] == 1 { useX8 := true; }
      i := i + 1;
    }
    assert codes[..|codes|] == codes;
  }

  lemma AllSavedPlaced(m0: Machine, m: Machine, ts: seq<Type>, es: seq<nat>, useX8: bool, lastInt: nat, lastFloat: nat)
    requires AllWellFormed(ts) && |es| == |ts| && AllSaved(ts, |ts|, lastInt, lastFloat)
    requires Saving(m0, m, 2 * lastFloat, useX8, 2 * lastInt) && lastInt <= 4 && lastFloat <= 4
    ensures Placed(m0, m, ts, es, 0) && RestSaved(m0, m, ts, useX8, lastInt, lastFloat)
  {
    forall i | 0 <= i < |ts| && !Packed(ts[i], es[i]) ensures InFrame(m0, m, ts[i], es[i], LocOf(ts, i)) {
      CodeRead(ts, i);
      SavedInFrame(m0, m, ts[i], es[i], LocOf(ts, i), lastInt, lastFloat);
    }
  }

  /** What va_arg may look for is saved as well. */
  ghost predicate VariadicSaved(m0: Machine, m: Machine, ts: seq<Type>)
    requires AllWellFormed(ts)
  {
    GeneralsLie(m0, m, 8) && forall r: nat :: After(ts).nv <= r < 8 ==> VectorLies(m0, m, r)
  }

  /** The prolog up to where sp becomes the frame pointer, for any state of the machine at the call: 224 bytes of frame
      with the caller's x29 and x30, each parameter at the offset noted for it, and nothing changed outside. */
  method GfuncProlog(text: Text<Word>, ts: seq<Type>, es: seq<nat>, codes: seq<nat>, ret: nat, variadic: bool,
        ghost m0: Machine)
    returns (ghost m: Machine)
    requires AllWellFormed(ts) && FloatSizes(ts, es) && |codes| == |ts| && Coded(ts, codes, |ts|)
    modifies text
    ensures old(text.data) <= text.data && Run(text.data[|old(text.data)|..], m0) == Some(m)
    ensures Entered(m0, m)
    ensures forall i :: 0 <= i < |ts| ==> InFrame(m0, m, ts[i], es[i], LocOf(ts, i))
    ensures ret == 1 ==> X8Lies(m0, m)
    ensures variadic ==> X8Lies(m0, m) && VariadicSaved(m0, m, ts)
  {
    ghost var start := |text.data|;
    var lastInt, lastFloat := SavedPairs(ts, codes, variadic);
    var useX8 := NeedsX8(codes, ret, variadic);
    m := SaveRegisters(text, lastFloat, useX8, lastInt, m0);
    AllSavedPlaced(m0, m, ts, es, useX8, lastInt, lastFloat);
    var i := 0;
    while i < |ts|
      invariant 0 <= i <= |ts| && old(text.data) <= text.data
      invariant Leads(text, start, m0, m) && Entered(m0, m) && Placed(m0, m, ts, es, i)
      invariant RestSaved(m0, m, ts, useX8, lastInt, lastFloat)
    {
      m := StoreParameter(text, ts, es, codes[i], i, start, m0, m, useX8, lastInt, lastFloat);
      i := i + 1;
    }
  }
}
