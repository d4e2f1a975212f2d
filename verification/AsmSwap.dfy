/** Immediate operands in the ARM assembler: encoded by rotation, or by an instruction with the opposite meaning
    when the constant itself cannot be encoded. */
module AsmSwap {
  import opened A32
  import opened A32Const
  import opened Base
  import opened Bits
  import opened CodeBytes

  // ---- The swap ----

  /** The opcode with the opposite meaning, -1 if there is none. */
  function Swap(o: int): int {
    if o == 0x0 then 0xe else if o == 0xe then 0x0
    else if o == 0x2 then 0x4 else if o == 0x4 then 0x2
    else if o == 0x5 then 0x6 else if o == 0x6 then 0x5
    else if o == 0xa then 0xb else if o == 0xb then 0xa
    else if o == 0xd then 0xf else if o == 0xf then 0xd
    else -1
  }

  predicate Negates(o: int) { o == 0x2 || o == 0x4 || o == 0xa || o == 0xb }

  /** The constant for the swapped opcode. */
  function SwapConst(o: int, v: Word): Word {
    if Negates(o) then (0 - v) % W32 else Not(v)
  }

  /** Both write the same value. */
  lemma SwapValue(o: int, x: Word, v: Word, carry: int)
    requires Swap(o) >= 0
    ensures Alu(Swap(o), x, SwapConst(o, v), carry) == Alu(o, x, v, carry)
  {
    assert Not(Not(v)) == v;
    NegatedSum(x, v);
  }

  lemma NegatedFlags(x: Word, v: Word)
    requires v != 0 && v != 0x8000_0000
    ensures AddWithCarry(x, (0 - v) % W32, 0) == AddWithCarry(x, Not(v), 1)
  {
    assert (0 - v) % W32 == W32 - v;
    assert ToInt(W32 - v) == ToInt(Not(v)) + 1;
  }

  lemma NegatedTwice(v: Word)
    requires v != 0
    ensures (0 - v) % W32 == W32 - v && (0 - (0 - v) % W32) % W32 == v
  {
  }

  ghost predicate SameFlags(o: int, v: Word)
    requires Arithmetic(o) && Swap(o) >= 0
  {
    forall x: Word, carry :: 0 <= carry <= 1 ==> Nzcv(Swap(o), x, SwapConst(o, v), carry) == Nzcv(o, x, v, carry)
  }

  lemma FlagsKept(o: int, x: Word, v: Word, carry: int)
    requires Arithmetic(o) && Swap(o) >= 0 && (Negates(o) ==> v != 0 && v != 0x8000_0000)
    ensures Nzcv(Swap(o), x, SwapConst(o, v), carry) == Nzcv(o, x, v, carry)
  {
    assert Not(Not(v)) == v;
    if Negates(o) {
      NegatedTwice(v);
      NegatedFlags(x, v);
      NegatedFlags(x, W32 - v);
    }
  }

  lemma FlagsDiffer(o: int, v: Word)
    requires Negates(o) && (v == 0 || v == 0x8000_0000)
    ensures !SameFlags(o, v)
  {
    assert (0 - v) % W32 == v;
    assert Nzcv(Swap(o), 0, SwapConst(o, v), 0) != Nzcv(o, 0, v, 0);
  }

  /** The swap keeps the four flags for every operand, except for ADD, SUB, CMP and CMN of 0 or 0x80000000. */
  lemma FlagsExact(o: int, v: Word)
    requires Arithmetic(o) && Swap(o) >= 0
    ensures SameFlags(o, v) <==> (Negates(o) ==> v != 0 && v != 0x8000_0000)
  {
    if Negates(o) && (v == 0 || v == 0x8000_0000) {
      FlagsDiffer(o, v);
    } else {
      forall x: Word, carry | 0 <= carry <= 1 ensures Nzcv(Swap(o), x, SwapConst(o, v), carry) == Nzcv(o, x, v, carry) {
        FlagsKept(o, x, v, carry);
      }
    }
  }

  /** Those two constants are encodable as they are. */
  lemma ExceptionsEncodable(v: Word)
    requires v == 0 || v == 0x8000_0000
    ensures Encodable(v)
  {
    if v == 0 { assert Rol(0, 0) == 0; } else { assert Rol(0x8000_0000, 1) == 2; }
  }

  // ---- Encoding by rotation ----

  lemma {:induction false} RolNext(y: Word, n: nat)
    ensures Rol(y, n + 1) == Rol2(Rol(y, n))
    decreases n
  {
    if n > 0 { RolNext(Rol2(y), n - 1); }
  }

  /** The loop of the assembler: rotate left by two until a byte is left. */
  method RotateToByte(v: Word) returns (n: nat, b: Word)
    ensures n <= 16 && (n < 16 <==> Encodable(v))
    ensures n < 16 ==> b < 0x100 && Ror(b, n) == v && (n == 0 <==> v < 0x100)
  {
    n, b := 0, v;
    while n < 16
      invariant n <= 16 && b == Rol(v, n) && forall k: nat :: k < n ==> Rol(v, k) >= 0x100
    {
      if b < 0x100 {
        RorRol(v, n);
        return;
      }
      RolNext(v, n);
      b := Rol2(b);
      n := n + 1;
    }
  }

  // ---- The instruction ----

  /** `op` with another opcode. */
  function WithOpcode(op: Word, o: int): int { op + (o - Opcode(op)) * 0x20_0000 }

  lemma OpcodeReplaced(op: Word, o: int)
    requires IsTemplate(op) && 0 <= o < 16
    ensures var p := WithOpcode(op, o);
            0 <= p < W32 && IsTemplate(p) && Cond(p) == Cond(op) && Opcode(p) == o && S(p) == S(op) &&
            Rn(p) == Rn(op) && Rd(p) == Rd(op)
  {
    BuildOfFields(op);
    BuildFields(Cond(op), 1, o, S(op), Rn(op), Rd(op), 0);
    assert WithOpcode(op, o) == Build(Cond(op), 1, o, S(op), Rn(op), Rd(op), 0);
  }

  /** The word for a template and a rotated byte. */
  lemma Encoded(op: Word, n: nat, b: Word, v: Word, w: int)
    requires IsTemplate(op) && n < 16 && b < 0x100 && Ror(b, n) == v && w == op + n * 0x100 + b
    requires n == 0 <==> v < 0x100
    ensures 0 <= w < W32 && Implements(w, op, v)
  {
    WithByte(op, n, b, v);
  }

  /** `w` does what `op` with the constant v would, but for the carry flag. */
  ghost predicate SameButCarry(w: Word, op: Word, v: Word) {
    forall m: Machine :: SameButCarryAt(w, op, v, m)
  }

  predicate SameButCarryAt(w: Word, op: Word, v: Word, m: Machine) {
    var a, b := Exec(w, m), Meant(op, v, m);
    a.regs == b.regs && a.flags == b.flags.(c := a.flags.c)
  }

  /** The swap of a logical opcode that sets the flags leaves another carry, unless the inverted constant is a byte and
      the carry is set whenever the instruction is executed. */
  predicate CarryLost(op: Word, v: Word) {
    !Arithmetic(Opcode(op)) && S(op) == 1 && Cond(op) != 15 &&
    (Not(v) >= 0x100 || (Cond(op) != 2 && Cond(op) != 8))
  }

  /** Flags under which a condition passes, with the carry clear if it may be. */
  function Passing(cond: int): Flags {
    Flags(cond == 4 || cond == 11, cond == 0 || cond == 13, cond == 2 || cond == 8, cond == 6)
  }

  lemma PassingPasses(cond: int, f: Flags)
    requires 0 <= cond < 15
    ensures Passes(cond, Passing(cond)) && (Passing(cond).c <==> cond == 2 || cond == 8)
    ensures (cond == 2 || cond == 8) && Passes(cond, f) ==> f.c
  {
  }

  lemma InvertedCarry(v: Word, carry: bool)
    requires v >= 0x100
    ensures ConstCarry(Not(v), carry) != ConstCarry(v, carry) <==> Not(v) >= 0x100 || !carry
  {
  }

  /** On one state: the swapped instruction p with its constant against what `op` means. */
  lemma SwappedAt(op: Word, p: Word, v: Word, m: Machine)
    requires IsTemplate(op) && Swap(Opcode(op)) >= 0 && p == WithOpcode(op, Swap(Opcode(op)))
    requires Negates(Opcode(op)) ==> v != 0 && v != 0x8000_0000
    ensures 0 <= p < W32
    ensures var a, b, o := Meant(p, SwapConst(Opcode(op), v), m), Meant(op, v, m), Opcode(op);
            a.regs == b.regs && a.flags == b.flags.(c := a.flags.c) &&
            (a.flags.c == b.flags.c <==>
               Arithmetic(o) || S(op) == 0 || !Passes(Cond(op), m.flags) ||
               ConstCarry(Not(v), m.flags.c) == ConstCarry(v, m.flags.c))
  {
    var o := Opcode(op);
    OpcodeReplaced(op, Swap(o));
    SwapValue(o, m.regs[Rn(op)], v, Bit(m.flags.c));
    if Arithmetic(o) { FlagsKept(o, m.regs[Rn(op)], v, Bit(m.flags.c)); }
  }

  /** With its constant encoded in w, what the swapped instruction does, and when that is exact. */
  lemma SwappedWord(op: Word, p: Word, w: Word, v: Word)
    requires IsTemplate(op) && Swap(Opcode(op)) >= 0 && p == WithOpcode(op, Swap(Opcode(op)))
    requires Negates(Opcode(op)) ==> v != 0 && v != 0x8000_0000
    requires 0x100 <= v && Implements(w, p, SwapConst(Opcode(op), v))
    ensures SameButCarry(w, op, v) && (Implements(w, op, v) <==> !CarryLost(op, v))
  {
    forall m: Machine ensures SameButCarryAt(w, op, v, m) { SwappedAt(op, p, v, m); }
    if CarryLost(op, v) {
      var m := Machine(seq(16, _ => 0), Passing(Cond(op)));
      PassingPasses(Cond(op), m.flags);
      SwappedAt(op, p, v, m);
      InvertedCarry(v, m.flags.c);
      assert Exec(w, m) != Meant(op, v, m);
    } else {
      forall m: Machine ensures Exec(w, m) == Meant(op, v, m) {
        SwappedAt(op, p, v, m);
        InvertedCarry(v, m.flags.c);
        if Cond(op) < 15 { PassingPasses(Cond(op), m.flags); }
      }
    }
  }

  /** What a swap comes to. */
  ghost predicate SwappedTo(w: Word, op: Word, v: Word) {
    SameButCarry(w, op, v) && (Implements(w, op, v) <==> !CarryLost(op, v))
  }

  lemma EncodedSwap(op: Word, p: Word, n: nat, b: Word, c: Word, v: Word, w: int)
    requires IsTemplate(op) && Swap(Opcode(op)) >= 0 && p == WithOpcode(op, Swap(Opcode(op))) && IsTemplate(p)
    requires n < 16 && b < 0x100 && Ror(b, n) == c && c == SwapConst(Opcode(op), v)
    requires n == 0 <==> c < 0x100
    requires 0x100 <= v && v != 0x8000_0000 && w == p + n * 0x100 + b
    ensures 0 <= w < W32 && SwappedTo(w, op, v)
  {
    Encoded(p, n, b, c, w);
    SwappedWord(op, p, w, v);
  }

  /** A byte is encodable as it is. */
  lemma NotAByte(v: Word)
    requires !Encodable(v)
    ensures v >= 0x100
  {
    assert Rol(v, 0) == v;
  }

  /** asm_data_processing_opcode for an immediate operand. `negative` is the operand class of the constants -255 to -1,
      for which the constant itself is not tried. None is the assembler's error. */
  method DataProcessingImmediate(op: Word, negative: bool, v: Word) returns (w: Option<Word>)
    requires IsTemplate(op) && (negative ==> 0xffff_ff01 <= v)
    ensures w.Some? ==> SameButCarry(w.value, op, v)
    ensures w.Some? ==> (Implements(w.value, op, v) <==> (!negative && Encodable(v)) || !CarryLost(op, v))
    ensures w.Some? <==> (!negative && Encodable(v)) ||
                         (Swap(Opcode(op)) >= 0 && Encodable(SwapConst(Opcode(op), v)))
  {
    if !negative {
      var n, b := RotateToByte(v);
      if n < 16 {
        Encoded(op, n, b, v, op + n * 0x100 + b);
        return Some(op + n * 0x100 + b);
      }
      NotAByte(v);
      if v == 0 || v == 0x8000_0000 { ExceptionsEncodable(v); }
    }
    w := SwappedImmediate(op, v);
  }

  method SwappedImmediate(op: Word, v: Word) returns (w: Option<Word>)
    requires IsTemplate(op) && v >= 0x100 && v != 0x8000_0000
    ensures w.Some? <==> Swap(Opcode(op)) >= 0 && Encodable(SwapConst(Opcode(op), v))
    ensures w.Some? ==> SwappedTo(w.value, op, v)
  {
    var o := Opcode(op);
    if Swap(o) < 0 { return None; }
    OpcodeReplaced(op, Swap(o));
    var p: Word := WithOpcode(op, Swap(o));
    var n, b := RotateToByte(SwapConst(o, v));
    if n >= 16 { return None; }
    var r: int := p + n * 0x100 + b;
    EncodedSwap(op, p, n, b, SwapConst(o, v), v, r);
    w := Some(r);
  }
}
