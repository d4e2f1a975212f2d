/** The frame of an ARM function, with the instructions executed that build it and leave it. */
module ArmFrame {
  import opened A32
  import Aapcs
  import opened Base
  import opened CodeBytes
  import opened Text

  // ---- Several registers at once ----

  const FP := 11
  const IP := 12
  const SP := 13
  const LR := 14
  const PC := 15

  /** `mem` holds words by their addresses. */
  datatype State = State(m: Machine, mem: map<int, Word>)

  /** The registers from k on of a list whose lowest bit stands for register k. */
  function Listed(list: nat, k: nat): (rs: seq<nat>)
    requires k <= 16
    ensures forall i :: 0 <= i < |rs| ==> rs[i] < 16
    decreases 16 - k
  {
    if k == 16 then [] else if list % 2 == 1 then [k] + Listed(list / 2, k + 1) else Listed(list / 2, k + 1)
  }

  /** The registers rs, stored at a and upwards. */
  function Stored(mem: map<int, Word>, a: int, regs: Regs, rs: seq<nat>): map<int, Word>
    requires forall i :: 0 <= i < |rs| ==> rs[i] < 16
  {
    if rs == [] then mem
    else Stored(mem, a, regs, rs[..|rs| - 1])[a + 4 * (|rs| - 1) := regs[rs[|rs| - 1]]]
  }

  /** The registers rs, loaded from a and upwards. */
  function Loaded(mem: map<int, Word>, a: int, regs: Regs, rs: seq<nat>): Option<Regs>
    requires forall i :: 0 <= i < |rs| ==> rs[i] < 16
  {
    if rs == [] then Some(regs)
    else
      match Loaded(mem, a, regs, rs[..|rs| - 1])
      case Some(r) =>
        var b := a + 4 * (|rs| - 1);
        if b in mem then Some(r[rs[|rs| - 1] := mem[b]]) else None
      case None => None
  }

  /** PUSH, section A8.8.133 of DDI 0406C; LDM fp, section A8.8.58; or a data-processing instruction without a shift.
      None for anything else, for a stack that wraps around, and for reading what was never stored. */
  function Step(w: Word, s: State): Option<State> {
    var rs := Listed(w % 0x1_0000, 0);
    if w / 0x1_0000 == 0xe92d then
      var sp := s.m.regs[SP] - 4 * |rs|;
      if sp < 0 then None
      else Some(State(s.m.(regs := s.m.regs[SP := sp]), Stored(s.mem, sp, s.m.regs, rs)))
    else if w / 0x1_0000 == 0xe89b then
      match Loaded(s.mem, s.m.regs[FP], s.m.regs, rs)
      case Some(regs) => Some(s.(m := s.m.(regs := regs)))
      case None => None
    else if w / 0x400_0000 % 4 == 0 && (Form(w) == 1 || Operand(w) / 0x10 == 0) then Some(s.(m := Exec(w, s.m)))
    else None
  }

  function Run(code: seq<Word>, s: State): Option<State> {
    if code == [] then Some(s)
    else
      match Run(code[..|code| - 1], s)
      case Some(t) => Step(code[|code| - 1], t)
      case None => None
  }

  lemma MoveSteps(w: Word, s: State)
    requires w == 0xe1a0_c00d || w == 0xe1a0_b00d
    ensures Step(w, s) == Some(s.(m := s.m.(regs := s.m.regs[(if w == 0xe1a0_c00d then IP else FP) := s.m.regs[SP]])))
  {
    var d := if w == 0xe1a0_c00d then IP else FP;
    assert Cond(w) == 14 && Form(w) == 0 && Opcode(w) == 0xd && S(w) == 0 && Rd(w) == d && Operand(w) == 13;
  }

  function Shifted(list: nat, n: nat): nat { if n == 0 then list else 2 * Shifted(list, n - 1) }

  lemma {:induction false} ListedHigher(list: nat, k: nat, n: nat)
    requires k + n <= 16
    ensures Listed(Shifted(list, n), k) == Listed(list, k + n)
    decreases n
  {
    if n > 0 {
      ListedEven(Shifted(list, n - 1), k);
      ListedHigher(list, k + 1, n - 1);
    }
  }

  lemma ListedEven(half: nat, k: nat)
    requires k < 16
    ensures Listed(2 * half, k) == Listed(half, k + 1)
  {
  }

  lemma {:induction false} ListedNone(k: nat)
    requires k <= 16
    ensures Listed(0, k) == []
    decreases 16 - k
  {
    if k < 16 { ListedNone(k + 1); }
  }

  lemma ListedThree()
    ensures Listed(0x5800, 0) == [FP, IP, LR] && Listed(0xa800, 0) == [FP, SP, PC]
  {
    assert Shifted(0xb, 11) == 0x5800 && Shifted(0x15, 11) == 0xa800;
    ListedHigher(0xb, 0, 11);
    ListedHigher(0x15, 0, 11);
    ListedNone(15);
    ListedTail();
  }

  lemma ListedTail()
    ensures Listed(0xb, 11) == [FP, IP, LR] && Listed(0x15, 11) == [FP, SP, PC]
  {
    assert Listed(1, 14) == [LR] && Listed(1, 15) == [PC];
    assert Listed(2, 13) == [LR] && Listed(2, 14) == [PC];
    assert Listed(5, 12) == [IP, LR] && Listed(5, 13) == [SP, PC];
    assert Listed(10, 12) == [SP, PC];
  }

  lemma ListedArgs()
    ensures Listed(3, 0) == [0, 1] && Listed(15, 0) == [0, 1, 2, 3]
  {
    ListedNone(2);
    ListedNone(4);
    assert Listed(1, 1) == [1] && Listed(1, 3) == [3] && Listed(3, 2) == [2, 3] && Listed(7, 1) == [1, 2, 3];
  }

  // ---- The prolog ----

  predicate At(mem: map<int, Word>, a: int, v: Word) { a in mem && mem[a] == v }

  predicate SameAt(mem: map<int, Word>, mem': map<int, Word>, b: int) {
    (b in mem <==> b in mem') && (b in mem ==> mem'[b] == mem[b])
  }

  ghost predicate SameAway(mem: map<int, Word>, mem': map<int, Word>, lo: int, hi: int) {
    forall b :: b < lo || hi <= b ==> SameAt(mem, mem', b)
  }

  lemma {:induction false} StoredThere(mem: map<int, Word>, a: int, regs: Regs, rs: seq<nat>)
    requires forall i :: 0 <= i < |rs| ==> rs[i] < 16
    ensures forall i :: 0 <= i < |rs| ==> At(Stored(mem, a, regs, rs), a + 4 * i, regs[rs[i]])
    ensures SameAway(mem, Stored(mem, a, regs, rs), a, a + 4 * |rs|)
  {
    if rs != [] {
      var front := rs[..|rs| - 1];
      StoredThere(mem, a, regs, front);
      forall i | 0 <= i < |rs| ensures At(Stored(mem, a, regs, rs), a + 4 * i, regs[rs[i]]) {
        if i < |rs| - 1 { assert At(Stored(mem, a, regs, front), a + 4 * i, regs[front[i]]); }
      }
      forall b | b < a || a + 4 * |rs| <= b ensures SameAt(mem, Stored(mem, a, regs, rs), b) {
        assert SameAt(mem, Stored(mem, a, regs, front), b);
      }
    }
  }

  /** After PUSH of rs. */
  function Pushed(s: State, rs: seq<nat>): State
    requires (forall i :: 0 <= i < |rs| ==> rs[i] < 16) && s.m.regs[SP] >= 4 * |rs|
  {
    var sp := s.m.regs[SP] - 4 * |rs|;
    State(s.m.(regs := s.m.regs[SP := sp]), Stored(s.mem, sp, s.m.regs, rs))
  }

  /** After MOV of sp to register d. */
  function Moved(s: State, d: nat): State
    requires d < 16
  {
    s.(m := s.m.(regs := s.m.regs[d := s.m.regs[SP]]))
  }

  /** r0 up to r(n-1). */
  function Args(n: int): (rs: seq<nat>)
    requires n == 0 || n == 2 || n == 4
    ensures |rs| == n && forall i :: 0 <= i < n ==> rs[i] == i
  {
    if n == 0 then [] else if n == 2 then [0, 1] else [0, 1, 2, 3]
  }

  lemma PushSteps(w: int, n: int, s: State)
    requires (n == 2 && w == 0xe92d_0003) || (n == 4 && w == 0xe92d_000f)
    requires s.m.regs[SP] >= 4 * n
    ensures 0 <= w < W32 && Step(w, s) == Some(Pushed(s, Args(n)))
  {
    ListedArgs();
    assert w / 0x1_0000 == 0xe92d && w % 0x1_0000 == if n == 2 then 3 else 15;
  }

  lemma PushThreeSteps(s: State)
    requires s.m.regs[SP] >= 12
    ensures Step(0xe92d_5800, s) == Some(Pushed(s, [FP, IP, LR]))
  {
    ListedThree();
  }

  /** The code from start on, executed on s0, leads to s. */
  ghost predicate Leads(text: Text<Word>, start: nat, s0: State, s: State)
    reads text
  {
    start <= |text.data| && Run(text.data[start..], s0) == Some(s)
  }

  method EmitStep(text: Text<Word>, w: Word, ghost start: nat, ghost s0: State, ghost s: State, ghost t: State)
    requires Leads(text, start, s0, s) && Step(w, s) == Some(t)
    modifies text
    ensures old(text.data) <= text.data && Leads(text, start, s0, t)
  {
    ghost var code := text.data[start..];
    text.Emit(w);
    assert text.data[start..] == code + [w];
    assert (code + [w])[..|code|] == code;
  }

  method EmitMove(text: Text<Word>, w: Word, ghost start: nat, ghost s0: State, ghost s: State, ghost t: State)
    requires (w == 0xe1a0_c00d && t == Moved(s, IP)) || (w == 0xe1a0_b00d && t == Moved(s, FP))
    requires Leads(text, start, s0, s) || (start == |text.data| && s == s0)
    modifies text
    ensures old(text.data) <= text.data && Leads(text, start, s0, t)
  {
    if start == |text.data| && s == s0 { assert text.data[start..] == []; }
    MoveSteps(w, s);
    EmitStep(text, w, start, s0, s, t);
  }

  method EmitArgs(text: Text<Word>, n: int, ghost start: nat, ghost s0: State, ghost s: State) returns (ghost t: State)
    requires 0 <= n <= 4 && n % 2 == 0 && s.m.regs[SP] >= 4 * n && Leads(text, start, s0, s)
    modifies text
    ensures old(text.data) <= text.data && Leads(text, start, s0, t) && t == if n == 0 then s else Pushed(s, Args(n))
  {
    t := s;
    if n != 0 {
      var w := 0xe92d_0000 + if n == 2 then 3 else 15;
      PushSteps(w, n, s);
      t := Pushed(s, Args(n));
      EmitStep(text, w, start, s0, s, t);
    }
  }

  method EmitThree(text: Text<Word>, ghost start: nat, ghost s0: State, ghost s: State) returns (ghost t: State)
    requires s.m.regs[SP] >= 12 && Leads(text, start, s0, s)
    modifies text
    ensures old(text.data) <= text.data && Leads(text, start, s0, t) && t == Pushed(s, [FP, IP, LR])
  {
    PushThreeSteps(s);
    t := Pushed(s, [FP, IP, LR]);
    EmitStep(text, 0xe92d_5800, start, s0, s, t);
  }

  /** The frame pointer is below the caller's fp, sp and return address, n registers and what the caller stacked; the
      arguments are where the offsets of the parameters have them. */
  ghost predicate Framed(s0: State, s: State, n: int) {
    var r0, fp := s0.m.regs, s0.m.regs[SP] - 12 - 4 * n;
    && s.m.regs[FP] == s.m.regs[SP] == fp
    && At(s.mem, fp, r0[FP]) && At(s.mem, fp + 4, r0[SP]) && At(s.mem, fp + 8, r0[LR])
    && (forall k: nat :: k < n && k < 16 ==> At(s.mem, fp + Aapcs.FrameAddr(n, Aapcs.Reg(k)), r0[k]))
    && (forall a: nat :: fp + Aapcs.FrameAddr(n, Aapcs.Stack(a)) == r0[SP] + a)
    && SameAway(s0.mem, s.mem, fp, r0[SP])
  }

  lemma FrameBuilt(s0: State, n: int, s1: State, s2: State, s3: State, s4: State)
    requires (n == 0 || n == 2 || n == 4) && s0.m.regs[SP] >= 12 + 4 * n
    requires s1 == Moved(s0, IP) && s2 == (if n == 0 then s1 else Pushed(s1, Args(n)))
    requires s3 == Pushed(s2, [FP, IP, LR]) && s4 == Moved(s3, FP)
    ensures Framed(s0, s4, n)
  {
    var r0, fp := s0.m.regs, s0.m.regs[SP] - 12 - 4 * n;
    StoredThere(s1.mem, fp + 12, s1.m.regs, Args(n));
    StoredThere(s2.mem, fp, s2.m.regs, [FP, IP, LR]);
    ThreeThere(s4.mem, fp, s2.m.regs);
    ArgsStay(s2.mem, s4.mem, fp, n, s1.m.regs, r0);
    forall b | b < fp || r0[SP] <= b ensures SameAt(s0.mem, s4.mem, b) {
      assert SameAt(s1.mem, s2.mem, b) && SameAt(s2.mem, s4.mem, b);
    }
  }

  lemma ArgsStay(mem: map<int, Word>, mem': map<int, Word>, fp: int, n: int, regs: Regs, r0: Regs)
    requires (n == 0 || n == 2 || n == 4) && SameAway(mem, mem', fp, fp + 12)
    requires forall k :: 0 <= k < 4 ==> regs[k] == r0[k]
    requires forall i :: 0 <= i < n ==> At(mem, fp + 12 + 4 * i, regs[Args(n)[i]])
    ensures forall k: nat :: k < n && k < 16 ==> At(mem', fp + Aapcs.FrameAddr(n, Aapcs.Reg(k)), r0[k])
  {
    forall k: nat | k < n ensures At(mem', fp + Aapcs.FrameAddr(n, Aapcs.Reg(k)), r0[k]) {
      assert At(mem, fp + 12 + 4 * k, regs[Args(n)[k]]);
      assert SameAt(mem, mem', fp + 12 + 4 * k);
    }
  }

  lemma ThreeThere(mem: map<int, Word>, a: int, regs: Regs)
    requires forall i :: 0 <= i < 3 ==> At(mem, a + 4 * i, regs[[FP, IP, LR][i]])
    ensures At(mem, a, regs[FP]) && At(mem, a + 4, regs[IP]) && At(mem, a + 8, regs[LR])
  {
    assert At(mem, a + 4 * 0, regs[[FP, IP, LR][0]]);
    assert At(mem, a + 4 * 1, regs[[FP, IP, LR][1]]);
    assert At(mem, a + 4 * 2, regs[[FP, IP, LR][2]]);
  }

  /** The prolog up to where sp becomes the frame pointer, for any state at the call that has the stack for it; n is
      what Aapcs.GfuncProlog counts. */
  method Prolog(text: Text<Word>, n: int, ghost s0: State) returns (ghost s: State)
    requires 0 <= n <= 4 && n % 2 == 0 && s0.m.regs[SP] >= 12 + 4 * n
    modifies text
    ensures old(text.data) <= text.data && Run(text.data[|old(text.data)|..], s0) == Some(s)
    ensures Framed(s0, s, n)
  {
    ghost var start := |text.data|;
    ghost var s1 := Moved(s0, IP);
    EmitMove(text, 0xe1a0_c00d, start, s0, s0, s1);
    ghost var s2 := EmitArgs(text, n, start, s0, s1);
    ghost var s3 := EmitThree(text, start, s0, s2);
    s := Moved(s3, FP);
    EmitMove(text, 0xe1a0_b00d, start, s0, s3, s);
    FrameBuilt(s0, n, s1, s2, s3, s);
  }

  /** Where caller and callee agree on a parameter, each of its words is found at its offset from the frame pointer:
      what the caller had in a register was stored there, and what it stacked is there already. */
  lemma ParameterWord(s0: State, s: State, n: int, p: Aapcs.Plan, addr: int, t: Aapcs.Shape, w: nat)
    requires Framed(s0, s, n) && n <= 4 && Aapcs.Agrees(n, p, addr, t) && w < t.words
    ensures match Aapcs.WordAt(p, w)
            case Reg(k) => 0 <= k < n && At(s.mem, s.m.regs[FP] + addr + 4 * w, s0.m.regs[k])
            case Stack(a) => a >= 0 ==> s.m.regs[FP] + addr + 4 * w == s0.m.regs[SP] + a
  {
    match Aapcs.WordAt(p, w)
    case Reg(k) => FrameRegister(s0, s, n, k);
    case Stack(a) => if a >= 0 { FrameStacked(s0, s, n, a); }
  }

  lemma FrameRegister(s0: State, s: State, n: int, k: nat)
    requires Framed(s0, s, n) && k < n <= 4
    ensures At(s.mem, s.m.regs[FP] + Aapcs.FrameAddr(n, Aapcs.Reg(k)), s0.m.regs[k])
  {
  }

  lemma FrameStacked(s0: State, s: State, n: int, a: nat)
    requires Framed(s0, s, n)
    ensures s.m.regs[FP] + Aapcs.FrameAddr(n, Aapcs.Stack(a)) == s0.m.regs[SP] + a
  {
  }

  /** The body left the three words at the frame pointer as they were. */
  predicate ThreeKept(mem: map<int, Word>, mem': map<int, Word>, fp: int) {
    SameAt(mem, mem', fp) && SameAt(mem, mem', fp + 4) && SameAt(mem, mem', fp + 8)
  }

  /** The epilog's LDM undoes the prolog: whatever else the body did, the caller's fp and sp are back, and execution
      goes on at the return address. */
  lemma EpilogReturns(s0: State, s1: State, n: int, s: State)
    requires Framed(s0, s1, n) && s.m.regs[FP] == s1.m.regs[FP] && ThreeKept(s1.mem, s.mem, s1.m.regs[FP])
    ensures var r0 := s0.m.regs;
            Step(0xe89b_a800, s) ==
            Some(s.(m := s.m.(regs := s.m.regs[FP := r0[FP]][SP := r0[SP]][PC := r0[LR]])))
  {
    var fp := s.m.regs[FP];
    ListedThree();
    FrameWords(s0, s1, n, fp);
    LoadedThree(s1.mem, s.mem, fp, s.m.regs, s0.m.regs[FP], s0.m.regs[SP], s0.m.regs[LR]);
  }

  lemma FrameWords(s0: State, s: State, n: int, fp: int)
    requires Framed(s0, s, n) && fp == s.m.regs[FP]
    ensures At(s.mem, fp, s0.m.regs[FP]) && At(s.mem, fp + 4, s0.m.regs[SP]) && At(s.mem, fp + 8, s0.m.regs[LR])
  {
  }

  lemma LoadedThree(mem0: map<int, Word>, mem: map<int, Word>, a: int, regs: Regs, x: Word, y: Word, z: Word)
    requires At(mem0, a, x) && At(mem0, a + 4, y) && At(mem0, a + 8, z) && ThreeKept(mem0, mem, a)
    ensures Loaded(mem, a, regs, [FP, SP, PC]) == Some(regs[FP := x][SP := y][PC := z])
  {
    var three, two, one: seq<nat> := [FP, SP, PC], [FP, SP], [FP];
    assert three[..2] == two && two[..1] == one && one[..0] == [];
    assert Loaded(mem, a, regs, one) == Some(regs[FP := x]);
    assert Loaded(mem, a, regs, two) == Some(regs[FP := x][SP := y]);
  }
}
