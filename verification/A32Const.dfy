/** Constants on A32: stuff_const, stuff_const_harder and calcaddr of arm-gen.c. */
module A32Const {
  import opened Base
  import opened Bits
  import opened CodeBytes
  import opened A32
  import opened Text

  // ---- One immediate operand ----

  /** The constants an immediate operand can express: bytes rotated by an even amount. */
  ghost predicate Encodable(c: Word) {
    exists n: nat :: n < 16 && Rol(c, n) < 0x100
  }

  /** An instruction in immediate form whose operand field is still empty. */
  predicate IsTemplate(op: Word) {
    Form(op) == 1 && Operand(op) == 0
  }

  lemma WithOperand(op: Word, v: int)
    requires IsTemplate(op) && 0 <= v < 0x1000
    ensures 0 < op + v < W32 && Form(op + v) == 1 && Operand(op + v) == v
    ensures Cond(op + v) == Cond(op) && S(op + v) == S(op)
    ensures Opcode(op + v) == Opcode(op) && Rn(op + v) == Rn(op) && Rd(op + v) == Rd(op)
  {
    BuildOfFields(op);
    BuildFields(Cond(op), 1, Opcode(op), S(op), Rn(op), Rd(op), v);
  }

  lemma WithByte(op: Word, n: nat, b: int, c: Word)
    requires IsTemplate(op) && n < 16 && 0 <= b < 0x100 && Ror(b, n) == c && (n == 0 <==> c < 0x100)
    ensures 0 < op + n * 0x100 + b < W32 && Implements(op + n * 0x100 + b, op, c)
  {
    WithOperand(op, n * 0x100 + b);
    assert (n * 0x100 + b) / 0x100 == n && (n * 0x100 + b) % 0x100 == b;
    SameFields(op + (n * 0x100 + b), op, c);
  }

  /** The same fields and the operand c. */
  lemma SameFields(w: Word, op: Word, c: Word)
    requires Form(w) == 1 && Cond(w) == Cond(op) && S(w) == S(op)
    requires Opcode(w) == Opcode(op) && Rn(w) == Rn(op) && Rd(w) == Rd(op)
    requires Expand(Operand(w)) == c && (Operand(w) / 0x100 == 0 <==> c < 0x100)
    ensures Implements(w, op, c)
  {
  }

  /** One pass of stuff_const: `op` with `c` as its immediate, or 0 when `c` is not a rotated byte. */
  method EncodeImmediate(op: Word, c: Word) returns (w: Word)
    requires IsTemplate(op)
    ensures w != 0 <==> Encodable(c)
    ensures w != 0 ==> Implements(w, op, c)
  {
    if c < 256 {
      WithByte(op, 0, c, c);
      assert Rol(c, 0) < 0x100;
      return op + c;
    }
    var n := 1;
    while n < 16
      invariant 1 <= n <= 16 && forall k: nat :: k < n ==> Rol(c, k) >= 0x100
    {
      MaskTest(c, n);
      if AndW(c, Not(Ror(0xff, n))) == 0 {
        var b := Rol(c, n);
        RorRol(c, n);
        assert Rol(c, 0) >= 0x100;
        WithByte(op, n, b, c);
        return op + n * 0x100 + b;
      }
      n := n + 1;
    }
    w := 0;
  }

  // ---- stuff_const ----

  /** The opcodes whose S-less form has a partner taking the negated or inverted constant. */
  predicate HasPartner(op: Word) {
    var o := Opcode(op);
    S(op) == 0 && (o == 0x4 || o == 0x2 || o == 0xd || o == 0xf || o == 0x0 || o == 0xe)
  }

  /** add/sub, mov/mvn, and/bic. */
  function PartnerOpcode(o: int): int {
    if o == 0x4 then 0x2 else if o == 0x2 then 0x4
    else if o == 0xd then 0xf else if o == 0xf then 0xd
    else if o == 0x0 then 0xe else 0x0
  }

  /** `op` with the differing opcode bits flipped: op ^ 0xC00000, op ^ 0x400000 or op ^ 0x1C00000. */
  function PartnerOp(op: Word): int {
    op + (PartnerOpcode(Opcode(op)) - Opcode(op)) * 0x20_0000
  }

  function PartnerConst(op: Word, c: Word): Word {
    if Opcode(op) == 0x4 || Opcode(op) == 0x2 then (0 - c) % W32 else Not(c)
  }

  /** eor, and, orr of all ones have a register or MVN form. */
  predicate AllOnesCase(op: Word, c: Word) {
    S(op) == 0 && c == 0xffff_ffff && (Opcode(op) == 0x1 || Opcode(op) == 0x0 || Opcode(op) == 0xc)
  }

  lemma PartnerFields(op: Word)
    requires IsTemplate(op) && HasPartner(op)
    ensures var p := PartnerOp(op);
            0 <= p < W32 && IsTemplate(p) && Opcode(p) == PartnerOpcode(Opcode(op)) && S(p) == 0 &&
            Cond(p) == Cond(op) && Rn(p) == Rn(op) && Rd(p) == Rd(op)
  {
    BuildOfFields(op);
    var o := PartnerOpcode(Opcode(op));
    BuildFields(Cond(op), 1, o, 0, Rn(op), Rd(op), 0);
    assert PartnerOp(op) == Build(Cond(op), 1, o, 0, Rn(op), Rd(op), 0);
  }

  lemma NegatedSum(x: Word, v: Word)
    ensures (x - (0 - v) % W32) % W32 == (x + v) % W32 && (x + (0 - v) % W32) % W32 == (x - v) % W32
  {
    assert (0 - v) % W32 == if v == 0 then 0 else W32 - v;
  }

  lemma PartnerValue(op: Word, c: Word, x: Word, carry: int)
    requires HasPartner(op)
    ensures Alu(PartnerOpcode(Opcode(op)), x, PartnerConst(op, c), carry) == Alu(Opcode(op), x, c, carry)
  {
    assert Not(Not(c)) == c;
    NegatedSum(x, c);
  }

  lemma PartnerImplements(w: Word, op: Word, c: Word)
    requires IsTemplate(op) && HasPartner(op)
    requires 0 <= PartnerOp(op) < W32 && Implements(w, PartnerOp(op), PartnerConst(op, c))
    ensures Implements(w, op, c)
  {
    PartnerFields(op);
    forall m: Machine ensures Exec(w, m) == Meant(op, c, m) {
      PartnerValue(op, c, m.regs[Rn(op)], Bit(m.flags.c));
    }
  }

  lemma AllOnes(x: Word)
    ensures XorW(x, 0xffff_ffff) == Not(x) && AndW(x, 0xffff_ffff) == x && OrW(x, 0xffff_ffff) == 0xffff_ffff
  {
    Pow2Value(32);
    AndLowOnes(x, 32);
  }

  /** EOR with all ones is MVN of the register, AND with all ones is MOV of it, ORR is MVN of zero. */
  function AllOnesForm(op: Word): int {
    if Opcode(op) == 0x1 then Build(Cond(op), 0, 0xf, 0, 0, Rd(op), Rn(op))
    else if Opcode(op) == 0x0 then Build(Cond(op), 0, 0xd, 0, 0, Rd(op), Rn(op))
    else Build(Cond(op), 1, 0xf, 0, 0, Rd(op), 0)
  }

  lemma AllOnesFields(op: Word)
    requires IsTemplate(op) && AllOnesCase(op, 0xffff_ffff)
    ensures var w := AllOnesForm(op);
            0 < w < W32 && Cond(w) == Cond(op) && S(w) == 0 && Rd(w) == Rd(op) &&
            Opcode(w) == (if Opcode(op) == 0x0 then 0xd else 0xf) &&
            Form(w) == (if Opcode(op) == 0xc then 1 else 0) && Operand(w) == (if Opcode(op) == 0xc then 0 else Rn(op))
  {
    if Opcode(op) == 0x1 { BuildFields(Cond(op), 0, 0xf, 0, 0, Rd(op), Rn(op)); }
    else if Opcode(op) == 0x0 { BuildFields(Cond(op), 0, 0xd, 0, 0, Rd(op), Rn(op)); }
    else { BuildFields(Cond(op), 1, 0xf, 0, 0, Rd(op), 0); }
  }

  lemma AllOnesAlu(o: int, x: Word, carry: int)
    requires o == 0x1 || o == 0x0 || o == 0xc
    ensures Alu(o, x, 0xffff_ffff, carry) == if o == 0x1 then Not(x) else if o == 0x0 then x else 0xffff_ffff
  {
    AllOnes(x);
  }

  lemma AllOnesValue(w: Word, op: Word, m: Machine)
    requires AllOnesCase(op, 0xffff_ffff) && Cond(w) == Cond(op) && S(w) == 0
    requires Rd(w) == Rd(op) && Opcode(w) == (if Opcode(op) == 0x0 then 0xd else 0xf)
    requires Form(w) == (if Opcode(op) == 0xc then 1 else 0) && Operand(w) == (if Opcode(op) == 0xc then 0 else Rn(op))
    ensures Exec(w, m) == Meant(op, 0xffff_ffff, m)
  {
    AllOnesAlu(Opcode(op), m.regs[Rn(op)], Bit(m.flags.c));
    if Opcode(op) == 0xc { assert Expand(Operand(w)) == 0; } else { assert Operand(w) % 16 == Rn(op); }
  }

  lemma AllOnesImplements(op: Word)
    requires IsTemplate(op) && AllOnesCase(op, 0xffff_ffff)
    ensures 0 < AllOnesForm(op) < W32 && Implements(AllOnesForm(op), op, 0xffff_ffff)
  {
    AllOnesFields(op);
    forall m: Machine ensures Exec(AllOnesForm(op), m) == Meant(op, 0xffff_ffff, m) {
      AllOnesValue(AllOnesForm(op), op, m);
    }
  }

  /** stuff_const: sound for every state of registers and flags, and 0 exactly when no form fits. */
  method StuffConst(op: Word, c: Word) returns (w: Word)
    requires IsTemplate(op)
    ensures w != 0 ==> Implements(w, op, c)
    ensures w != 0 <==> Encodable(c) || AllOnesCase(op, c) || (HasPartner(op) && Encodable(PartnerConst(op, c)))
  {
    var tryNeg, negop, nc := false, 0, 0;
    if S(op) == 0 {
      if Opcode(op) == 0x4 || Opcode(op) == 0x2 {
        tryNeg, negop, nc := true, PartnerOp(op), (0 - c) % W32;
      } else if Opcode(op) == 0xd || Opcode(op) == 0xf {
        tryNeg, negop, nc := true, PartnerOp(op), Not(c);
      } else if Opcode(op) == 0x1 {
        if c == 0xffff_ffff {
          AllOnesImplements(op);
          return AllOnesForm(op);
        }
      } else if Opcode(op) == 0x0 || Opcode(op) == 0xe {
        if Opcode(op) == 0x0 && c == 0xffff_ffff {
          AllOnesImplements(op);
          return AllOnesForm(op);
        }
        tryNeg, negop, nc := true, PartnerOp(op), Not(c);
      } else if Opcode(op) == 0xc {
        if c == 0xffff_ffff {
          AllOnesImplements(op);
          return AllOnesForm(op);
        }
      }
    }
    w := EncodeImmediate(op, c);
    if w == 0 && tryNeg {
      PartnerFields(op);
      w := EncodeImmediate(negop, nc);
      if w != 0 { PartnerImplements(w, op, c); }
    }
  }

  // ---- Pieces of a constant ----

  /** The sixteen rotated-byte masks. */
  function A(i: nat): Word { Ror(0xff, i) }

  lemma MaskValues()
    ensures A(0) == 0xff && A(4) == 0xff00_0000 && A(8) == 0x00ff_0000 && A(12) == 0xff00
    ensures forall d: nat | 4 <= d <= 12 :: A(d) % 0x100 == 0
  {
    assert A(0) == 0xff;
    assert A(1) == 0xc000_003f;
    assert A(2) == 0xf000_000f;
    assert A(3) == 0xfc00_0003;
    assert A(4) == 0xff00_0000;
    assert A(5) == 0x3fc0_0000;
    assert A(6) == 0x0ff0_0000;
    assert A(7) == 0x03fc_0000;
    assert A(8) == 0x00ff_0000;
    assert A(9) == 0x003f_c000;
    assert A(10) == 0x000f_f000;
    assert A(11) == 0x0003_fc00;
    assert A(12) == 0x0000_ff00;
  }

  lemma ByteBelow(y: Word)
    requires y % 0x100 == 0
    ensures AndW(0xff, y) == 0
  {
    Pow2Value(8);
    AndConcat(8, 0xff, 0, 0xff, y, y / 0x100, 0);
  }

  lemma RotateDisjoint(x: Word, y: Word)
    requires AndW(x, y) == 0
    ensures AndW(Ror2(x), Ror2(y)) == 0
  {
    RotateAnd(Ror2(x), Ror2(y));
    RotateBack(x);
    RotateBack(y);
    RotateBack(AndW(Ror2(x), Ror2(y)));
  }

  /** Masks four or more steps apart, either way round, share no bit. */
  lemma {:induction false} MasksDisjoint(i: nat, j: nat)
    requires 4 <= j - i <= 12
    ensures AndW(A(i), A(j)) == 0 && AndW(A(j), A(i)) == 0
    decreases i
  {
    if i == 0 {
      MaskValues();
      ByteBelow(A(j));
    } else {
      MasksDisjoint(i - 1, j - 1);
      RotateDisjoint(A(i - 1), A(j - 1));
    }
    AndBounds(A(i), A(j));
  }

  lemma PieceEncodable(v: Word, i: nat)
    requires i < 16
    ensures Encodable(AndW(v, A(i)))
  {
    AndIdempotent(v, A(i));
    MaskTest(AndW(v, A(i)), i);
  }

  /** v is confined to two, or three, masks that share no bit. */
  ghost predicate Pair(v: Word, i: nat, j: nat) {
    j < 16 && 4 <= j - i <= 12 && AndW(v, OrW(A(i), A(j))) == v
  }

  ghost predicate Triple(v: Word, i: nat, j: nat, k: nat) {
    k < 16 && 4 <= j - i && 4 <= k - j && k - i <= 12 && AndW(v, OrW(OrW(A(i), A(j)), A(k))) == v
  }

  lemma PairSum(v: Word, i: nat, j: nat)
    requires Pair(v, i, j)
    ensures AndW(v, A(i)) + AndW(v, A(j)) == v
  {
    MasksDisjoint(i, j);
    AndSum(v, A(i), A(j));
  }

  lemma TripleSum(v: Word, i: nat, j: nat, k: nat)
    requires Triple(v, i, j, k)
    ensures AndW(v, A(i)) + AndW(v, A(j)) + AndW(v, A(k)) == v
  {
    MasksDisjoint(i, j);
    MasksDisjoint(i, k);
    MasksDisjoint(j, k);
    var a, b, c := A(i), A(j), A(k);
    AndSum(c, a, b);
    AndBounds(c, a + b);
    AndSum(v, a, b);
    AndSum(v, a + b, c);
  }

  /** The four byte masks cover every word. */
  lemma BytesSum(v: Word)
    ensures AndW(v, A(0)) + AndW(v, A(4)) + AndW(v, A(8)) + AndW(v, A(12)) == v
  {
    MaskValues();
    var a, b, c, d := A(0), A(4), A(8), A(12);
    MasksDisjoint(0, 4);
    MasksDisjoint(0, 8);
    MasksDisjoint(0, 12);
    MasksDisjoint(4, 8);
    MasksDisjoint(4, 12);
    MasksDisjoint(8, 12);
    AndSum(c, a, b);
    AndBounds(c, a + b);
    AndSum(d, a, b);
    AndSum(d, a + b, c);
    AndBounds(d, a + b + c);
    AndSum(v, a, b);
    AndSum(v, a + b, c);
    AndSum(v, a + b + c, d);
    AllOnes(v);
  }

  // ---- Sequences of pieces ----

  predicate IsAddSub(op: Word) {
    IsTemplate(op) && S(op) == 0 && (Opcode(op) == 0x4 || Opcode(op) == 0x2)
  }

  /** `op` reading back its own destination: (op & 0xfff0ffff) | ((op & 0xf000) << 4). */
  function Again(op: Word): int {
    op + (Rd(op) - Rn(op)) * 0x1_0000
  }

  lemma AgainFields(op: Word)
    requires IsAddSub(op)
    ensures var o := Again(op);
            0 <= o < W32 && IsAddSub(o) && Cond(o) == Cond(op) && Rn(o) == Rd(op) && Rd(o) == Rd(op) &&
            Opcode(o) == Opcode(op)
  {
    BuildOfFields(op);
    BuildFields(Cond(op), 1, Opcode(op), 0, Rd(op), Rd(op), 0);
    assert Again(op) == Build(Cond(op), 1, Opcode(op), 0, Rd(op), Rd(op), 0);
  }

  lemma ModNested(b: int, o: int)
    ensures (b % W32 - o) % W32 == (b - o) % W32 && (b % W32 + o) % W32 == (b + o) % W32
  {
    var q := b / W32;
    assert b % W32 - o == b - o - q * W32 && b % W32 + o == b + o - q * W32;
  }

  /** Adding (or subtracting) two parts one after the other is adding (or subtracting) their sum. */
  lemma AluTwice(o: int, x: Word, s: Word, p: Word, carry: int)
    requires (o == 4 || o == 2) && s + p < W32
    ensures Alu(o, Alu(o, x, s, carry), p, carry) == Alu(o, x, s + p, carry)
  {
    if o == 4 { ModNested(x + s, p); } else { ModNested(x - s, p); }
  }

  lemma WriteTwice(op: Word, o2: Word, s: Word, p: Word, regs: Regs, carry: int)
    requires IsAddSub(op) && s + p < W32
    requires Rn(o2) == Rd(op) && Rd(o2) == Rd(op) && Opcode(o2) == Opcode(op)
    ensures Write(o2, p, Write(op, s, regs, carry), carry) == Write(op, s + p, regs, carry)
  {
    AluTwice(Opcode(op), regs[Rn(op)], s, p, carry);
  }

  lemma FirstPiece(op: Word, w: Word, p: Word)
    requires Implements(w, op, p)
    ensures ImplementsAll([w], op, p)
  {
    forall m: Machine ensures ExecAll([w], m) == Meant(op, p, m) {
      assert [] + [w] == [w] && ExecAll([], m) == m;
      ExecLast([], w, m);
    }
  }

  lemma NextPiece(code: seq<Word>, op: Word, o2: Word, s: Word, w: Word, p: Word)
    requires IsAddSub(op) && s + p < W32 && o2 == Again(op)
    requires ImplementsAll(code, op, s) && Implements(w, o2, p)
    ensures ImplementsAll(code + [w], op, s + p)
  {
    AgainFields(op);
    forall m: Machine ensures ExecAll(code + [w], m) == Meant(op, s + p, m) {
      ExecLast(code, w, m);
      WriteTwice(op, o2, s, p, m.regs, Bit(m.flags.c));
    }
  }

  /** The partner instruction on the negated constant. */
  lemma PartnerImplementsAll(code: seq<Word>, op: Word, no: Word, nv: Word, v: Word)
    requires IsAddSub(op) && no == PartnerOp(op) && nv == (0 - v) % W32 && ImplementsAll(code, no, nv)
    ensures ImplementsAll(code, op, v)
  {
    PartnerFields(op);
    forall m: Machine ensures ExecAll(code, m) == Meant(op, v, m) {
      PartnerValue(op, v, m.regs[Rn(op)], Bit(m.flags.c));
    }
  }

  // ---- stuff_const_harder ----

  ghost predicate Direct(v: Word) {
    Encodable(v) || Encodable((0 - v) % W32)
  }

  ghost predicate SomePair(v: Word) {
    exists i: nat, j: nat :: Pair(v, i, j)
  }

  ghost predicate SomeTriple(v: Word) {
    exists i: nat, j: nat, k: nat :: Triple(v, i, j, k)
  }

  /** How many instructions a constant costs: the fewest pieces of it, or of its negation, that cover it. */
  ghost function Cost(v: Word): nat {
    var nv := (0 - v) % W32;
    if Direct(v) then 1
    else if SomePair(v) || SomePair(nv) then 2
    else if SomeTriple(v) || SomeTriple(nv) then 3
    else 4
  }

  predicate AreMasks(a: array<Word>)
    reads a
  {
    a.Length == 16 && forall k: nat :: k < 16 ==> a[k] == A(k)
  }

  ghost predicate NoPartner(v: Word, i: nat, j: int) { forall q: nat :: j < q ==> !Pair(v, i, q) }

  lemma NoPartnerNext(v: Word, i: nat, j: nat)
    requires NoPartner(v, i, j) && !Pair(v, i, j)
    ensures NoPartner(v, i, j - 1)
  {
  }

  method TestPair(a: array<Word>, v: Word, i: nat, j: nat) returns (hit: bool)
    requires AreMasks(a) && i + 4 <= j < 16 && j <= i + 12
    ensures hit <==> Pair(v, i, j)
  {
    hit := AndW(v, OrW(a[i], a[j])) == v;
  }

  method FindPartner(a: array<Word>, v: Word, i: nat) returns (found: bool, j: nat)
    requires AreMasks(a) && i < 12
    ensures found ==> Pair(v, i, j)
    ensures !found ==> forall q: nat :: !Pair(v, i, q)
  {
    found, j := false, if i < 4 then i + 12 else 15;
    while j >= i + 4
      invariant i + 3 <= j <= i + 12 && j < 16 && NoPartner(v, i, j)
    {
      found := TestPair(a, v, i, j);
      if found { return; }
      NoPartnerNext(v, i, j);
      j := j - 1;
    }
  }

  ghost predicate NoPairBelow(v: Word, i: nat) { forall p: nat, q: nat :: p < i ==> !Pair(v, p, q) }

  lemma NoPairAtAll(v: Word, i: nat)
    requires i >= 12 && NoPairBelow(v, i)
    ensures !SomePair(v)
  {
  }

  method FindPair(a: array<Word>, v: Word) returns (found: bool, i: nat, j: nat)
    requires AreMasks(a)
    ensures found ==> Pair(v, i, j)
    ensures !found ==> !SomePair(v)
  {
    found, i, j := false, 0, 0;
    while i < 12
      invariant i <= 12 && NoPairBelow(v, i)
    {
      found, j := FindPartner(a, v, i);
      if found { return; }
      i := i + 1;
    }
    NoPairAtAll(v, i);
  }

  method TestTriple(a: array<Word>, v: Word, i: nat, j: nat, k: nat) returns (hit: bool)
    requires AreMasks(a) && i < 8 && i + 4 <= j < 12 && j + 4 <= k < 16 && k <= i + 12
    ensures hit <==> Triple(v, i, j, k)
  {
    hit := AndW(v, OrW(OrW(a[i], a[j]), a[k])) == v;
  }

  ghost predicate NoThird(v: Word, i: nat, j: nat, k: int) { forall r: nat :: k < r ==> !Triple(v, i, j, r) }

  lemma NoThirdNext(v: Word, i: nat, j: nat, k: nat)
    requires NoThird(v, i, j, k) && !Triple(v, i, j, k)
    ensures NoThird(v, i, j, k - 1)
  {
  }

  /** The innermost loop of the search for three masks. */
  method FindThird(a: array<Word>, v: Word, i: nat, j: nat) returns (found: bool, k: nat)
    requires AreMasks(a) && i < 8 && i + 4 <= j < 12
    ensures found ==> Triple(v, i, j, k)
    ensures !found ==> forall r: nat :: !Triple(v, i, j, r)
  {
    found, k := false, if i < 4 then i + 12 else 15;
    while k >= j + 4
      invariant k <= i + 12 && k < 16 && NoThird(v, i, j, k)
    {
      found := TestTriple(a, v, i, j, k);
      if found { return; }
      NoThirdNext(v, i, j, k);
      k := k - 1;
    }
  }

  method FindSecond(a: array<Word>, v: Word, i: nat) returns (found: bool, j: nat, k: nat)
    requires AreMasks(a) && i < 8
    ensures found ==> Triple(v, i, j, k)
    ensures !found ==> forall q: nat, r: nat :: !Triple(v, i, q, r)
  {
    found, j, k := false, i + 4, 0;
    while j < 12
      invariant i + 4 <= j <= 12 && forall q: nat, r: nat :: q < j ==> !Triple(v, i, q, r)
    {
      found, k := FindThird(a, v, i, j);
      if found { return; }
      j := j + 1;
    }
  }

  ghost predicate NoTripleBelow(v: Word, i: nat) { forall p: nat, q: nat, r: nat :: p < i ==> !Triple(v, p, q, r) }

  lemma NoTripleAtAll(v: Word, i: nat)
    requires i >= 8 && NoTripleBelow(v, i)
    ensures !SomeTriple(v)
  {
  }

  method FindTriple(a: array<Word>, v: Word) returns (found: bool, i: nat, j: nat, k: nat)
    requires AreMasks(a)
    ensures found ==> Triple(v, i, j, k)
    ensures !found ==> !SomeTriple(v)
  {
    found, i, j, k := false, 0, 0, 0;
    while i < 8
      invariant i <= 8 && NoTripleBelow(v, i)
    {
      found, j, k := FindSecond(a, v, i);
      if found { return; }
      i := i + 1;
    }
    NoTripleAtAll(v, i);
  }

  /** The text after `start`. */
  ghost function Since(text: Text<Word>, start: nat): seq<Word>
    requires start <= |text.data|
    reads text
  {
    text.data[start..]
  }

  /** o(stuff_const(op, v & mask)) as the first piece. */
  method EmitFirst(text: Text<Word>, op: Word, v: Word, mask: Word, ghost i: nat)
    requires IsAddSub(op) && i < 16 && mask == A(i)
    modifies text
    ensures old(text.data) <= text.data && |text.data| == |old(text.data)| + 1
    ensures ImplementsAll(Since(text, |old(text.data)|), op, AndW(v, mask))
  {
    PieceEncodable(v, i);
    var w := StuffConst(op, AndW(v, mask));
    text.Emit(w);
    FirstPiece(op, w, AndW(v, mask));
    assert Since(text, |old(text.data)|) == [w];
  }

  /** o(stuff_const(o2, v & mask)) as a further piece, after code that amounts to `s`, now amounting to `t`. */
  method EmitNext(text: Text<Word>, op: Word, o2: Word, v: Word, mask: Word, ghost i: nat, ghost start: nat,
        ghost s: Word, ghost t: Word)
    requires IsAddSub(op) && o2 == Again(op) && i < 16 && mask == A(i)
    requires start <= |text.data| && ImplementsAll(Since(text, start), op, s) && t == s + AndW(v, mask)
    modifies text
    ensures old(text.data) <= text.data && |text.data| == |old(text.data)| + 1
    ensures ImplementsAll(Since(text, start), op, t)
  {
    PieceEncodable(v, i);
    AgainFields(op);
    var w := StuffConst(o2, AndW(v, mask));
    ghost var code := Since(text, start);
    text.Emit(w);
    NextPiece(code, op, o2, s, w, AndW(v, mask));
    assert Since(text, start) == code + [w];
  }

  method EmitPair(text: Text<Word>, op: Word, o2: Word, v: Word, a: array<Word>, i: nat, j: nat)
    requires IsAddSub(op) && o2 == Again(op) && AreMasks(a) && Pair(v, i, j)
    modifies text
    ensures old(text.data) <= text.data && |text.data| == |old(text.data)| + 2
    ensures ImplementsAll(Since(text, |old(text.data)|), op, v)
  {
    PairSum(v, i, j);
    ghost var p := AndW(v, A(i));
    EmitFirst(text, op, v, a[i], i);
    EmitNext(text, op, o2, v, a[j], j, |old(text.data)|, p, v);
  }

  method EmitTriple(text: Text<Word>, op: Word, o2: Word, v: Word, a: array<Word>, i: nat, j: nat, k: nat)
    requires IsAddSub(op) && o2 == Again(op) && AreMasks(a) && Triple(v, i, j, k)
    modifies text
    ensures old(text.data) <= text.data && |text.data| == |old(text.data)| + 3
    ensures ImplementsAll(Since(text, |old(text.data)|), op, v)
  {
    TripleSum(v, i, j, k);
    ghost var start := |text.data|;
    var b, c, d := a[i], a[j], a[k];
    ghost var p, q := AndW(v, b), AndW(v, c);
    ghost var pq := p + q;
    EmitFirst(text, op, v, b, i);
    EmitNext(text, op, o2, v, c, j, start, p, pq);
    EmitNext(text, op, o2, v, d, k, start, pq, v);
  }

  method EmitBytes(text: Text<Word>, op: Word, o2: Word, v: Word, a: array<Word>)
    requires IsAddSub(op) && o2 == Again(op) && AreMasks(a)
    modifies text
    ensures old(text.data) <= text.data && |text.data| == |old(text.data)| + 4
    ensures ImplementsAll(Since(text, |old(text.data)|), op, v)
  {
    BytesSum(v);
    ghost var start := |text.data|;
    var i, j, k := 4, 8, 12;
    var b, c, d := a[i], a[j], a[k];
    ghost var p, q, r := AndW(v, a[0]), AndW(v, b), AndW(v, c);
    ghost var pq, pqr := p + q, p + q + r;
    EmitFirst(text, op, v, a[0], 0);
    EmitNext(text, op, o2, v, b, i, start, p, pq);
    EmitNext(text, op, o2, v, c, j, start, pq, pqr);
    EmitNext(text, op, o2, v, d, k, start, pqr, v);
  }

  method BuildMasks() returns (a: array<Word>)
    ensures fresh(a) && AreMasks(a)
  {
    a := new Word[16];
    a[0] := 0xff;
    var n := 1;
    while n < 16
      invariant 1 <= n <= 16 && forall k: nat :: k < n ==> a[k] == A(k)
    {
      a[n] := Ror2(a[n - 1]);
      n := n + 1;
    }
  }

  /** stuff_const_harder: the emitted code adds (or subtracts) exactly `v`, for every `v`, in Cost(v) instructions. */
  method StuffConstHarder(text: Text<Word>, op: Word, v: Word)
    requires IsAddSub(op)
    modifies text
    ensures old(text.data) <= text.data && |text.data| == |old(text.data)| + Cost(v)
    ensures ImplementsAll(Since(text, |old(text.data)|), op, v)
  {
    ghost var start := |text.data|;
    var x := StuffConst(op, v);
    if x != 0 {
      text.Emit(x);
      FirstPiece(op, x, v);
      assert Since(text, start) == [x];
      return;
    }
    var a := BuildMasks();
    var o2 := Again(op);
    AgainFields(op);
    var found, i, j := FindPair(a, v);
    if found {
      EmitPair(text, op, o2, v, a, i, j);
      return;
    }
    PartnerFields(op);
    PartnerFields(o2);
    var no, n2, nv := PartnerOp(op), PartnerOp(o2), (0 - v) % W32;
    assert n2 == Again(no);
    found, i, j := FindPair(a, nv);
    if found {
      EmitPair(text, no, n2, nv, a, i, j);
      PartnerImplementsAll(Since(text, start), op, no, nv, v);
      return;
    }
    var k;
    found, i, j, k := FindTriple(a, v);
    if found {
      EmitTriple(text, op, o2, v, a, i, j, k);
      return;
    }
    found, i, j, k := FindTriple(a, nv);
    if found {
      EmitTriple(text, no, n2, nv, a, i, j, k);
      PartnerImplementsAll(Since(text, start), op, no, nv, v);
      return;
    }
    EmitBytes(text, op, o2, v, a);
  }

  // ---- calcaddr ----

  /** The (maxoff, shift) pairs of the load and store emitters. */
  predicate IsReach(maxoff: int, shift: int) {
    (maxoff == 4095 && shift == 0) || (maxoff == 255 && shift == 0) || (maxoff == 1020 && shift == 2)
  }

  /** x & maxoff */
  function Keep(maxoff: int, x: int): int {
    if maxoff == 4095 then x % 0x1000 else if maxoff == 255 then x % 0x100 else x / 4 % 0x100 * 4
  }

  /** x & ~maxoff */
  function Clear(maxoff: int, x: int): int { x - Keep(maxoff, x) }

  predicate Reachable(off: int, maxoff: int, shift: int) {
    off <= maxoff && (shift == 2 ==> off % 4 == 0)
  }

  /** The address a load or store with these operands accesses. */
  function Address(regs: Regs, base: nat, off: int, sgn: bool): int
    requires base < 16
  {
    (if sgn then regs[base] - off else regs[base] + off) % W32
  }

  /** Clearing the low bits of an offset, or of the offset plus maxoff, leaves what can be reached. */
  predicate Rounds(off: int, maxoff: int, shift: int) {
    var down, up := Clear(maxoff, off), Clear(maxoff, off + maxoff);
    0 <= down < W32 && 0 <= Keep(maxoff, off) && Reachable(Keep(maxoff, off), maxoff, shift) &&
    0 <= up < W32 && 0 <= up - off && Reachable(up - off, maxoff, shift)
  }

  lemma RoundingFacts(off: int, maxoff: int, shift: int)
    requires IsReach(maxoff, shift) && 0 <= off < 0x8000_0000
    ensures Rounds(off, maxoff, shift)
  {
    if maxoff == 1020 {
      RoundedWords(off, off / 4, off % 4);
    } else if maxoff == 255 {
      RoundedBytes(off, off / 0x100, off % 0x100);
    } else {
      RoundedPages(off, off / 0x1000, off % 0x1000);
    }
  }

  lemma RoundedBytes(off: int, q: int, r: int)
    requires 0 <= off < 0x8000_0000 && q == off / 0x100 && r == off % 0x100
    ensures Rounds(off, 255, 0)
  {
    assert (off + 255) / 0x100 == if r == 0 then q else q + 1;
    assert Clear(255, off) == q * 0x100 && Clear(255, off + 255) == (off + 255) / 0x100 * 0x100;
  }

  lemma RoundedPages(off: int, q: int, r: int)
    requires 0 <= off < 0x8000_0000 && q == off / 0x1000 && r == off % 0x1000
    ensures Rounds(off, 4095, 0)
  {
    assert (off + 4095) / 0x1000 == if r == 0 then q else q + 1;
    assert Clear(4095, off) == q * 0x1000 && Clear(4095, off + 4095) == (off + 4095) / 0x1000 * 0x1000;
  }

  /** The mask 1020 leaves the two lowest bits in the rounded part. */
  lemma RoundedWords(off: int, a: int, r: int)
    requires 0 <= off < 0x8000_0000 && a == off / 4 && r == off % 4
    ensures Rounds(off, 1020, 2)
  {
    var q, b := a / 0x100, a % 0x100;
    assert (off + 1020) / 4 == a + 255;
    assert (a + 255) / 0x100 == if b == 0 then q else q + 1;
    assert Clear(1020, off) == q * 0x400 + r && Keep(1020, off) == 4 * b;
    assert Clear(1020, off + 1020) == (a + 255) / 0x100 * 0x400 + r;
    UpInWords(off, q, b, r, Clear(1020, off + 1020) - off);
  }

  lemma UpInWords(off: int, q: int, b: int, r: int, up: int)
    requires off == q * 0x400 + b * 4 + r && 0 <= b < 0x100
    requires up == (if b == 0 then q else q + 1) * 0x400 + r - off
    ensures 0 <= up <= 1020 && up % 4 == 0
  {
    assert up == 4 * if b == 0 then 0 else 0x100 - b;
  }

  /** The sum and the difference are C ints. For offsets near 2^31 both wrap around, and the result comes out the
      same. */
  lemma IntRounding(off: int, maxoff: int, shift: int, up: int)
    requires IsReach(maxoff, shift) && 0 <= off < 0x8000_0000 && up == Clear(maxoff, ToInt(off + maxoff))
    ensures up % W32 == Clear(maxoff, off + maxoff) && ToInt(up - off) == Clear(maxoff, off + maxoff) - off
  {
    var sum := off + maxoff;
    RoundingFacts(off, maxoff, shift);
    ClearWraps(maxoff, shift, sum, ToInt(sum));
    WrapsBack(Clear(maxoff, sum), up, off);
  }

  lemma ClearWraps(maxoff: int, shift: int, x: int, i: int)
    requires IsReach(maxoff, shift) && (i == x || i == x - W32)
    ensures Clear(maxoff, i) == Clear(maxoff, x) || Clear(maxoff, i) == Clear(maxoff, x) - W32
  {
    KeepShifted(maxoff, shift, x - W32);
  }

  lemma WrapsBack(high: int, up: int, off: int)
    requires 0 <= high < W32 && 0 <= high - off < 0x1000 && (up == high || up == high - W32)
    ensures up % W32 == high && ToInt(up - off) == high - off
  {
    assert (up - off) % W32 == high - off;
  }

  lemma SamePage(x: int)
    ensures (x + W32) % 0x1000 == x % 0x1000
  {
  }

  lemma SameByte(x: int, k: int)
    requires k == 0x100_0000 || k == 0x40_0000
    ensures (x + 0x100 * k) % 0x100 == x % 0x100
  {
  }

  lemma KeepShifted(maxoff: int, shift: int, x: int)
    requires IsReach(maxoff, shift)
    ensures Keep(maxoff, x + W32) == Keep(maxoff, x)
  {
    if maxoff == 4095 {
      SamePage(x);
    } else if maxoff == 255 {
      SameByte(x, 0x100_0000);
    } else {
      assert (x + W32) / 4 == x / 4 + 0x4000_0000;
      SameByte(x / 4, 0x40_0000);
    }
  }

  /** Adding (subtracting) `c` to the old base into lr, then using lr. */
  lemma AddressMoved(code: seq<Word>, op: Word, c: Word, base: nat, off: int, sgn: bool, off': int, sgn': bool,
        m: Machine)
    requires base < 16 && Rn(op) == base && Rd(op) == 14 && Opcode(op) == (if sgn then 2 else 4)
    requires Cond(op) == 14 && S(op) == 0 && ImplementsAll(code, op, c)
    requires if sgn' == sgn then c + off' == off else c - off' == off
    ensures var after := ExecAll(code, m);
            Address(after.regs, 14, off', sgn') == Address(m.regs, base, off, sgn) &&
            OnlyLr(m, after)
  {
    var b := m.regs[base];
    assert ExecAll(code, m) == Meant(op, c, m);
    if sgn { ModNested(b - c, off'); } else { ModNested(b + c, off'); }
  }

  /** No register but lr has changed, nor the flags. */
  predicate OnlyLr(m: Machine, after: Machine) {
    after.flags == m.flags && forall r: nat :: r < 16 && r != 14 ==> after.regs[r] == m.regs[r]
  }

  /** After `code`, (base', off', sgn') names the address that (base, off, sgn) named before. */
  ghost predicate SameAddress(code: seq<Word>, base: nat, off: int, sgn: bool, base': nat, off': int, sgn': bool)
    requires base < 16 && base' < 16
  {
    forall m: Machine ::
      var after := ExecAll(code, m);
      Address(after.regs, base', off', sgn') == Address(m.regs, base, off, sgn) && OnlyLr(m, after)
  }

  lemma AddressKept(code: seq<Word>, op: Word, c: Word, base: nat, off: int, sgn: bool, off': int, sgn': bool)
    requires base < 16 && Rn(op) == base && Rd(op) == 14 && Opcode(op) == (if sgn then 2 else 4)
    requires Cond(op) == 14 && S(op) == 0 && ImplementsAll(code, op, c)
    requires if sgn' == sgn then c + off' == off else c - off' == off
    ensures SameAddress(code, base, off, sgn, 14, off', sgn')
  {
    forall m: Machine
      ensures var after := ExecAll(code, m);
              Address(after.regs, 14, off', sgn') == Address(m.regs, base, off, sgn) && OnlyLr(m, after)
    {
      AddressMoved(code, op, c, base, off, sgn, off', sgn', m);
    }
  }

  /** The three attempts of calcaddr: exact, rounded up with the sign flipped, in pieces.
      `c` is what the emitted code adds to (subtracts from) the base. */
  method MoveBase(text: Text<Word>, x: Word, off0: int, sgn0: bool, maxoff: int, shift: int)
    returns (off: int, sgn: bool, ghost c: Word)
    requires IsAddSub(x) && 0 <= off0 < 0x8000_0000 && IsReach(maxoff, shift)
    modifies text
    ensures old(text.data) <= text.data && ImplementsAll(Since(text, |old(text.data)|), x, c)
    ensures 0 <= off && Reachable(off, maxoff, shift)
    ensures if sgn == sgn0 then c + off == off0 else c - off == off0
  {
    RoundingFacts(off0, maxoff, shift);
    off, sgn, c := off0, sgn0, Clear(maxoff, off0);
    ghost var start := |text.data|;
    var y := StuffConst(x, Clear(maxoff, off));
    if y != 0 {
      text.Emit(y);
      FirstPiece(x, y, c);
      assert Since(text, start) == [y];
      off := Keep(maxoff, off);
      return;
    }
    var up := Clear(maxoff, ToInt(off + maxoff));
    IntRounding(off, maxoff, shift, up);
    y := StuffConst(x, up % W32);
    if y != 0 {
      text.Emit(y);
      c := Clear(maxoff, off0 + maxoff);
      FirstPiece(x, y, c);
      assert Since(text, start) == [y];
      sgn := !sgn;
      off := ToInt(up - off);
      return;
    }
    StuffConstHarder(text, x, Clear(maxoff, off));
    off := Keep(maxoff, off);
  }

  /** add lr, base, # or sub lr, base, # */
  lemma LrTemplate(base: nat, sgn: bool) returns (x: Word)
    requires base < 16
    ensures x == (if sgn then 0xe240_e000 else 0xe280_e000) + base * 0x1_0000
    ensures IsAddSub(x) && Cond(x) == 14 && Rn(x) == base && Rd(x) == 14 && Opcode(x) == (if sgn then 2 else 4)
  {
    BuildFields(0xe, 1, if sgn then 2 else 4, 0, base, 14, 0);
    x := Build(0xe, 1, if sgn then 2 else 4, 0, base, 14, 0);
  }

  /** calcaddr: whatever is emitted, base and offset still name the same address, with an offset in reach. */
  method CalcAddr(text: Text<Word>, base0: nat, off0: int, sgn0: bool, maxoff: int, shift: int)
    returns (base: nat, off: int, sgn: bool)
    requires base0 < 16 && 0 <= off0 < 0x8000_0000 && IsReach(maxoff, shift)
    modifies text
    ensures old(text.data) <= text.data && base < 16 && 0 <= off && Reachable(off, maxoff, shift)
    ensures SameAddress(Since(text, |old(text.data)|), base0, off0, sgn0, base, off, sgn)
    ensures Reachable(off0, maxoff, shift) ==>
              base == base0 && off == off0 && sgn == sgn0 && text.data == old(text.data)
  {
    base, off, sgn := base0, off0, sgn0;
    ghost var start := |text.data|;
    if off > maxoff || (shift == 2 && off % 4 != 0) {
      ghost var op := LrTemplate(base, sgn);
      var x := (if sgn then 0xe240_e000 else 0xe280_e000) + base * 0x1_0000;
      base := 14;
      ghost var c;
      off, sgn, c := MoveBase(text, x, off, sgn, maxoff, shift);
      AddressKept(Since(text, start), op, c, base0, off0, sgn0, off, sgn);
    } else {
      assert Since(text, start) == [];
    }
  }
}
