/** The meaning of A32 data-processing instructions with an immediate or a plain register operand. */
module A32 {
  import opened Base
  import opened Bits
  import opened CodeBytes

  type Regs = r: seq<Word> | |r| == 16 witness seq(16, _ => 0)

  // ---- Fields ----

  function Cond(w: Word): int { w / 0x1000_0000 }

  /** Bits 27..25: 1 for an immediate operand, 0 for a register. */
  function Form(w: Word): int { w / 0x200_0000 % 8 }

  function Opcode(w: Word): int { w / 0x20_0000 % 16 }

  function S(w: Word): int { w / 0x10_0000 % 2 }

  function Rn(w: Word): nat { w / 0x1_0000 % 16 }

  function Rd(w: Word): nat { w / 0x1000 % 16 }

  function Operand(w: Word): int { w % 0x1000 }

  function Build(cond: int, form: int, opcode: int, s: int, rn: int, rd: int, operand: int): int {
    cond * 0x1000_0000 + form * 0x200_0000 + opcode * 0x20_0000 + s * 0x10_0000 + rn * 0x1_0000 + rd * 0x1000 + operand
  }

  lemma BuildFields(cond: int, form: int, opcode: int, s: int, rn: int, rd: int, operand: int)
    requires 0 <= cond < 16 && 0 <= form < 8 && 0 <= opcode < 16 && 0 <= s < 2
    requires 0 <= rn < 16 && 0 <= rd < 16 && 0 <= operand < 0x1000
    ensures var w := Build(cond, form, opcode, s, rn, rd, operand);
            0 <= w < 0x1_0000_0000 && Cond(w) == cond && Form(w) == form && Opcode(w) == opcode && S(w) == s &&
            Rn(w) == rn && Rd(w) == rd && Operand(w) == operand
  {
    var w := Build(cond, form, opcode, s, rn, rd, operand);
    var w1 := w / 0x1000;
    assert w1 == cond * 0x1_0000 + form * 0x2000 + opcode * 0x200 + s * 0x100 + rn * 0x10 + rd;
    var w2 := w / 0x1_0000;
    assert w2 == cond * 0x1000 + form * 0x200 + opcode * 0x20 + s * 0x10 + rn;
    var w3 := w / 0x10_0000;
    assert w3 == cond * 0x100 + form * 0x20 + opcode * 2 + s;
    var w4 := w / 0x20_0000;
    assert w4 == cond * 0x80 + form * 0x10 + opcode;
    assert w / 0x200_0000 == cond * 8 + form;
  }

  lemma BuildOfFields(w: Word)
    ensures w == Build(Cond(w), Form(w), Opcode(w), S(w), Rn(w), Rd(w), Operand(w))
  {
    var w1 := w / 0x1000;
    var w2 := w1 / 16;
    var w3 := w2 / 16;
    var w4 := w3 / 2;
    var w5 := w4 / 16;
    assert w2 == w / 0x1_0000 && w3 == w / 0x10_0000 && w4 == w / 0x20_0000 && w5 == w / 0x200_0000;
    assert w5 / 8 == w / 0x1000_0000;
  }

  // ---- Operands and results ----

  /** Rotation right by two bits. */
  function Ror2(y: Word): Word { y / 4 + y % 4 * 0x4000_0000 }

  function Rol2(y: Word): Word { y % 0x4000_0000 * 4 + y / 0x4000_0000 }

  /** Rotation right by 2n bits. */
  function Ror(y: Word, n: nat): Word {
    if n == 0 then y else Ror2(Ror(y, n - 1))
  }

  /** Rotation left by 2n bits. */
  function Rol(y: Word, n: nat): Word
    decreases n
  {
    if n == 0 then y else Rol(Rol2(y), n - 1)
  }

  /** ARMExpandImm, section A5.2.4 of DDI 0406C. */
  function Expand(operand: int): Word
    requires 0 <= operand < 0x1000
  {
    Ror(operand % 0x100, operand / 0x100)
  }

  function AndW(x: Word, v: Word): Word {
    AndBounds(x, v);
    And(x, v)
  }

  function OrW(x: Word, v: Word): Word {
    Pow2Value(32);
    OrBound(x, v, 32);
    Or(x, v)
  }

  function XorW(x: Word, v: Word): Word {
    Pow2Value(32);
    OrBound(x, v, 32);
    Xor(x, v)
  }

  function Alu(opcode: int, x: Word, v: Word, carry: int): Word {
    if opcode == 0x0 || opcode == 0x8 then AndW(x, v)
    else if opcode == 0x1 || opcode == 0x9 then XorW(x, v)
    else if opcode == 0x2 || opcode == 0xa then (x - v) % W32
    else if opcode == 0x3 then (v - x) % W32
    else if opcode == 0x4 || opcode == 0xb then (x + v) % W32
    else if opcode == 0x5 then (x + v + carry) % W32
    else if opcode == 0x6 then (x + Not(v) + carry) % W32
    else if opcode == 0x7 then (v + Not(x) + carry) % W32
    else if opcode == 0xc then OrW(x, v)
    else if opcode == 0xd then v
    else if opcode == 0xe then AndW(x, Not(v))
    else Not(v)
  }

  /** The instruction with the value of its second operand given: TST, TEQ, CMP and CMN write no register. */
  function Write(w: Word, v: Word, regs: Regs, carry: int): Regs {
    if 8 <= Opcode(w) < 12 then regs
    else regs[Rd(w) := Alu(Opcode(w), regs[Rn(w)], v, carry)]
  }

  // ---- Conditions and flags ----

  datatype Flags = Flags(n: bool, z: bool, c: bool, v: bool)

  datatype Machine = Machine(regs: Regs, flags: Flags)

  /** ConditionPassed, section A8.3.1 of DDI 0406C. Condition 15 belongs to other instructions. */
  predicate Passes(cond: int, f: Flags) {
    if cond == 0 then f.z else if cond == 1 then !f.z
    else if cond == 2 then f.c else if cond == 3 then !f.c
    else if cond == 4 then f.n else if cond == 5 then !f.n
    else if cond == 6 then f.v else if cond == 7 then !f.v
    else if cond == 8 then f.c && !f.z else if cond == 9 then !f.c || f.z
    else if cond == 10 then f.n == f.v else if cond == 11 then f.n != f.v
    else if cond == 12 then !f.z && f.n == f.v else if cond == 13 then f.z || f.n != f.v
    else cond == 14
  }

  /** AddWithCarry, section A2.2.1. */
  function AddWithCarry(x: Word, y: Word, carry: int): Flags {
    var u, s := x + y + carry, ToInt(x) + ToInt(y) + carry;
    Flags(u % W32 >= 0x8000_0000, u % W32 == 0, u >= W32, !(-0x8000_0000 <= s < 0x8000_0000))
  }

  /** SUB, RSB, ADD, ADC, SBC, RSC, CMP and CMN; the other opcodes are logical. */
  predicate Arithmetic(o: int) { 2 <= o <= 7 || o == 0xa || o == 0xb }

  function Nzcv(o: int, x: Word, v: Word, carry: int): Flags
    requires Arithmetic(o)
  {
    if o == 0x4 || o == 0xb then AddWithCarry(x, v, 0)
    else if o == 0x5 then AddWithCarry(x, v, carry)
    else if o == 0x6 then AddWithCarry(x, Not(v), carry)
    else if o == 0x3 then AddWithCarry(Not(x), v, 1)
    else if o == 0x7 then AddWithCarry(Not(x), v, carry)
    else AddWithCarry(x, Not(v), 1)
  }

  /** The flags that opcode o sets; a logical one takes its carry from the operand. */
  function NewFlags(o: int, x: Word, v: Word, carry: bool, f: Flags): Flags {
    if Arithmetic(o) then Nzcv(o, x, v, Bit(f.c))
    else
      var r := Alu(o, x, v, Bit(f.c));
      Flags(r >= 0x8000_0000, r == 0, carry, f.v)
  }

  function Bit(b: bool): int { if b then 1 else 0 }

  /** The carry out of an immediate operand, section A5.2.4: only a rotation changes it. */
  function OperandCarry(operand: int, carry: bool): bool
    requires 0 <= operand < 0x1000
  {
    if operand / 0x100 == 0 then carry else Expand(operand) >= 0x8000_0000
  }

  /** The carry for a constant encoded with as little rotation as possible. */
  function ConstCarry(v: Word, carry: bool): bool { if v < 0x100 then carry else v >= 0x8000_0000 }

  // ---- Execution ----

  /** The instruction w, its operand being v with the carry given. */
  function Effect(w: Word, v: Word, carry: bool, m: Machine): Machine {
    if !Passes(Cond(w), m.flags) then m
    else
      Machine(Write(w, v, m.regs, Bit(m.flags.c)),
              if S(w) == 1 then NewFlags(Opcode(w), m.regs[Rn(w)], v, carry, m.flags) else m.flags)
  }

  /** Immediate operands, and registers that are not shifted. */
  function Exec(w: Word, m: Machine): Machine {
    if Form(w) == 1 then Effect(w, Expand(Operand(w)), OperandCarry(Operand(w), m.flags.c), m)
    else Effect(w, m.regs[Operand(w) % 16], m.flags.c, m)
  }

  function ExecAll(code: seq<Word>, m: Machine): Machine {
    if code == [] then m else Exec(code[|code| - 1], ExecAll(code[..|code| - 1], m))
  }

  /** What `op` is meant to do with the constant c. */
  function Meant(op: Word, c: Word, m: Machine): Machine { Effect(op, c, ConstCarry(c, m.flags.c), m) }

  /** `w` does what `op` with the constant `c` would do, on every state of registers and flags: it is executed under the
      same condition, writes the same, and sets the same flags if any. */
  ghost predicate Implements(w: Word, op: Word, c: Word) {
    forall m: Machine :: Exec(w, m) == Meant(op, c, m)
  }

  ghost predicate ImplementsAll(code: seq<Word>, op: Word, c: Word) {
    forall m: Machine :: ExecAll(code, m) == Meant(op, c, m)
  }

  lemma ExecLast(code: seq<Word>, w: Word, m: Machine)
    ensures ExecAll(code + [w], m) == Exec(w, ExecAll(code, m))
  {
    assert (code + [w])[..|code|] == code;
  }

  // ---- Rotation ----

  lemma RotateBack(x: Word)
    ensures Ror2(Rol2(x)) == x && Rol2(Ror2(x)) == x
  {
    var y := Rol2(x);
    assert y / 4 == x % 0x4000_0000 && y % 4 == x / 0x4000_0000;
    var z := Ror2(x);
    assert z / 0x4000_0000 == x % 4 && z % 0x4000_0000 == x / 4;
  }

  lemma {:induction false} RorRol(c: Word, n: nat)
    ensures Ror(Rol(c, n), n) == c
    decreases n
  {
    if n > 0 {
      RorRol(Rol2(c), n - 1);
      RotateBack(c);
    }
  }

  lemma RotatedParts(x: Word, h: nat, l: nat)
    requires x == h * 0x4000_0000 + l && l < 0x4000_0000
    ensures Rol2(x) == l * 4 + h
  {
  }

  /** Rotation works bit by bit. */
  lemma RotateAnd(x: Word, y: Word)
    ensures AndW(Rol2(x), Rol2(y)) == Rol2(AndW(x, y))
  {
    var h, l, h', l' := x / 0x4000_0000, x % 0x4000_0000, y / 0x4000_0000, y % 0x4000_0000;
    Pow2Value(30);
    assert Pow2(2) == 4;
    AndConcat(30, x, h, l, y, h', l');
    AndConcat(2, Rol2(x), l, h, Rol2(y), l', h');
    AndBounds(l, l');
    AndBounds(h, h');
    RotatedParts(AndW(x, y), And(h, h'), And(l, l'));
  }

  lemma {:induction false} RotateContained(c: Word, m: Word, n: nat)
    ensures AndW(c, Ror(m, n)) == c <==> AndW(Rol(c, n), m) == Rol(c, n)
    decreases n
  {
    if n > 0 {
      var m1 := Ror(m, n - 1);
      RotateContained(Rol2(c), m, n - 1);
      RotateAnd(c, Ror2(m1));
      RotateBack(m1);
      RotateBack(c);
      RotateBack(AndW(c, Ror2(m1)));
    }
  }

  /** c & ~mask is zero exactly when the constant rotated back under the mask is a byte. */
  lemma MaskTest(c: Word, n: nat)
    ensures AndW(c, Not(Ror(0xff, n))) == 0 <==> Rol(c, n) < 0x100
    ensures AndW(c, Ror(0xff, n)) == c <==> Rol(c, n) < 0x100
  {
    Pow2Value(32);
    AndComplement(c, Ror(0xff, n), 32);
    RotateContained(c, 0xff, n);
    AndBounds(Rol(c, n), 0xff);
    Pow2Value(8);
    if Rol(c, n) < 0x100 { AndLowOnes(Rol(c, n), 8); }
  }
}
