/** The ModRM, SIB and displacement bytes of an i386 operand. */
module ModRM {
  import opened Base
  import opened CodeBytes
  import opened Patch
  import opened Text

  /** Registers are 0 to 7, -1 for none; a symbol makes the displacement a relocated one. */
  datatype Operand =
    | Direct(reg: nat)
    | Memory(base: int, index: int, shift: nat, disp: int, sym: bool)

  predicate WellFormed(op: Operand) {
    match op
    case Direct(reg) => reg < 8
    case Memory(base, index, shift, _, _) => -1 <= base < 8 && -1 <= index < 8 && shift < 4
  }

  const ESP := 4
  const EBP := 5

  function Field(mod: int, reg: int, rm: int): Byte
    requires 0 <= mod < 4 && 0 <= reg < 8 && 0 <= rm < 8
  {
    mod * 64 + reg * 8 + rm
  }

  /** The low 32 bits, least significant byte first. */
  function Disp32(v: int): Code { Bytes32(v % 0x1_0000_0000) }

  function Mod(op: Operand): int
    requires op.Memory?
  {
    if op.base == -1 then 0
    else if op.disp == 0 && !op.sym && op.base != EBP then 0
    else if -128 <= op.disp < 128 && !op.sym then 1
    else 2
  }

  /** What asm_modrm emits. */
  function Encode(reg: nat, op: Operand): Code
    requires reg < 8 && WellFormed(op)
  {
    if op.Direct? then [Field(3, reg, op.reg)]
    else if op.base == -1 && op.index == -1 then [Field(0, reg, EBP)] + Disp32(op.disp)
    else
      var mod := Mod(op);
      var rm := if op.index != -1 then ESP else op.base;
      var index := if op.index == -1 then ESP else op.index;
      var base := if op.base == -1 then EBP else op.base;
      [Field(mod, reg, rm)] +
      (if rm == ESP then [Field(op.shift, index, base)] else []) +
      (if mod == 1 then [op.disp % 0x100] else if mod == 2 || op.base == -1 then Disp32(op.disp) else [])
  }

  // ---- The processor's reading, section 2.1.5 of volume 2 of the Intel SDM ----

  datatype Decoded =
    | Reg(field: nat, rm: nat, length: nat)
    | Mem(field: nat, base: int, index: int, scale: nat, disp: Word, length: nat)

  function Signed8(b: Byte): Word { if b < 0x80 then b else 0xffff_ff00 + b }

  /** The displacement that follows at p. */
  function DecodeDisp(s: Code, p: nat, mod: int, absent: bool): Option<(Word, nat)> {
    if mod == 1 then if p + 1 <= |s| then Some((Signed8(s[p]), p + 1)) else None
    else if mod == 2 || absent then if p + 4 <= |s| then Some((Read32(s, p), p + 4)) else None
    else Some((0, p))
  }

  function Finish(field: nat, base: int, index: int, scale: nat, disp: Option<(Word, nat)>): Option<Decoded> {
    match disp
    case Some(d) => Some(Mem(field, base, index, scale, d.0, d.1))
    case None => None
  }

  function Decode(s: Code): Option<Decoded> {
    if s == [] then None
    else
      var mod, field, rm := s[0] / 64, s[0] / 8 % 8, s[0] % 8;
      if mod == 3 then Some(Reg(field, rm, 1))
      else if rm == ESP then
        if |s| < 2 then None
        else
          var scale, index, base := s[1] / 64, s[1] / 8 % 8, s[1] % 8;
          var none := base == EBP && mod == 0;
          Finish(field, if none then -1 else base, if index == ESP then -1 else index, scale,
                 DecodeDisp(s, 2, mod, none))
      else
        var none := rm == EBP && mod == 0;
        Finish(field, if none then -1 else rm, -1, 0, DecodeDisp(s, 1, mod, none))
  }

  lemma FieldParts(mod: int, reg: int, rm: int)
    requires 0 <= mod < 4 && 0 <= reg < 8 && 0 <= rm < 8
    ensures var b := Field(mod, reg, rm); b / 64 == mod && b / 8 % 8 == reg && b % 8 == rm
  {
    var b, q := Field(mod, reg, rm), mod * 8 + reg;
    assert b / 8 == q;
    assert q / 8 == mod && q % 8 == reg;
  }

  lemma Disp32At(s: Code, p: nat, v: int)
    requires p + 4 <= |s| && s[p..p + 4] == Disp32(v)
    ensures Read32(s, p) == v % 0x1_0000_0000
  {
    ReadBytes(s, p, v % 0x1_0000_0000);
  }

  lemma Disp8(v: int)
    requires -128 <= v < 128
    ensures Signed8(v % 0x100) == v % 0x1_0000_0000
  {
  }

  /** The bytes of the displacement, read at their place in any code. */
  lemma DispRead(front: Code, disp: int, rest: Code, mod: int, absent: bool)
    requires 0 <= mod <= 2 && (mod == 1 ==> -128 <= disp < 128) && (mod == 0 && !absent ==> disp == 0)
    ensures var tail := if mod == 1 then [disp % 0x100] else if mod == 2 || absent then Disp32(disp) else [];
            DecodeDisp(front + tail + rest, |front|, mod, absent) == Some((disp % 0x1_0000_0000, |front| + |tail|))
  {
    var tail := if mod == 1 then [disp % 0x100] else if mod == 2 || absent then Disp32(disp) else [];
    var s := front + tail + rest;
    if mod == 1 {
      Disp8(disp);
      assert s[|front|] == disp % 0x100;
    } else if mod == 2 || absent {
      assert s[|front|..|front| + 4] == Disp32(disp);
      Disp32At(s, |front|, disp);
    }
  }

  /** The encoding without its displacement, and the displacement. */
  function Front(reg: nat, op: Operand): Code
    requires reg < 8 && WellFormed(op) && op.Memory?
  {
    if op.index == -1 && op.base == -1 then [Field(0, reg, EBP)]
    else if op.index == -1 && op.base != ESP then [Field(Mod(op), reg, op.base)]
    else
      [Field(Mod(op), reg, ESP),
       Field(op.shift, if op.index == -1 then ESP else op.index, if op.base == -1 then EBP else op.base)]
  }

  function Tail(op: Operand): Code
    requires WellFormed(op) && op.Memory?
  {
    if Mod(op) == 1 then [op.disp % 0x100] else if Mod(op) == 2 || op.base == -1 then Disp32(op.disp) else []
  }

  lemma EncodeParts(reg: nat, op: Operand)
    requires reg < 8 && WellFormed(op) && op.Memory?
    ensures Encode(reg, op) == Front(reg, op) + Tail(op)
  {
  }

  /** What the processor makes of the operand: esp as an index means no index. */
  function Meaning(reg: nat, op: Operand): Decoded
    requires reg < 8 && WellFormed(op)
  {
    match op
    case Direct(r) => Reg(reg, r, 1)
    case Memory(base, index, shift, disp, _) =>
      Mem(reg, base, if index == ESP then -1 else index, if index == -1 && base != ESP then 0 else shift,
          disp % 0x1_0000_0000, |Encode(reg, op)|)
  }

  lemma DecodeShort(s: Code, mod: int, reg: int, rm: int)
    requires s != [] && 0 <= mod < 3 && 0 <= reg < 8 && 0 <= rm < 8 && rm != ESP && s[0] == Field(mod, reg, rm)
    ensures var none := rm == EBP && mod == 0;
            Decode(s) == Finish(reg, if none then -1 else rm, -1, 0, DecodeDisp(s, 1, mod, none))
  {
    FieldParts(mod, reg, rm);
  }

  lemma DecodeSib(s: Code, mod: int, reg: int, scale: int, index: int, base: int)
    requires |s| >= 2 && 0 <= mod < 3 && 0 <= reg < 8 && 0 <= scale < 4 && 0 <= index < 8 && 0 <= base < 8
    requires s[0] == Field(mod, reg, ESP) && s[1] == Field(scale, index, base)
    ensures var none := base == EBP && mod == 0;
            Decode(s) == Finish(reg, if none then -1 else base, if index == ESP then -1 else index, scale,
                                DecodeDisp(s, 2, mod, none))
  {
    FieldParts(mod, reg, ESP);
    FieldParts(scale, index, base);
  }

  /** Decoding undoes encoding, whatever follows: the register field, base, scale and displacement come back,
      and so does every index but esp. */
  lemma DecodeEncode(reg: nat, op: Operand, rest: Code)
    requires reg < 8 && WellFormed(op)
    ensures Decode(Encode(reg, op) + rest) == Some(Meaning(reg, op))
  {
    var s := Encode(reg, op) + rest;
    match op
    case Direct(r) => FieldParts(3, reg, r);
    case Memory(base, index, shift, disp, sym) =>
      var front, mod := Front(reg, op), Mod(op);
      EncodeParts(reg, op);
      DispRead(front, disp, rest, mod, base == -1);
      if index == -1 && base != ESP {
        DecodeShort(s, if base == -1 then 0 else mod, reg, if base == -1 then EBP else base);
      } else {
        DecodeSib(s, mod, reg, shift, if index == -1 then ESP else index, if base == -1 then EBP else base);
      }
  }

  /** A symbol's displacement ends the operand with four bytes, and whatever the linker writes over them is the
      displacement that the processor reads. */
  lemma SymbolRelocatable(reg: nat, op: Operand, v: int, rest: Code)
    requires reg < 8 && WellFormed(op) && op.Memory? && op.sym
    ensures var e := Encode(reg, op); var d := |e| - 4;
            d > 0 && e[d..] == Disp32(op.disp) &&
            Decode(e[..d] + Disp32(v) + rest) == Some(Meaning(reg, op.(disp := v)))
  {
    var e, moved := Encode(reg, op), op.(disp := v);
    EncodeParts(reg, op);
    EncodeParts(reg, moved);
    assert Front(reg, moved) == Front(reg, op) && |Front(reg, op)| == |e| - 4;
    assert e[..|e| - 4] == Front(reg, op);
    DecodeEncode(reg, moved, rest);
  }

  /** The ModRM byte, and a SIB byte if there is an index or the base is esp. */
  method EmitFront(text: Text<Byte>, reg: nat, op: Operand) returns (mod: int)
    requires reg < 8 && WellFormed(op) && op.Memory? && !(op.base == -1 && op.index == -1)
    modifies text
    ensures text.data == old(text.data) + Front(reg, op) && mod == Mod(op) * 0x40
  {
    var sibBase := op.base;
    mod := 0x80;
    if sibBase == -1 {
      sibBase, mod := EBP, 0;
    } else if op.disp == 0 && !op.sym && op.base != EBP {
      mod := 0;
    } else if -128 <= op.disp < 128 && !op.sym {
      mod := 0x40;
    }
    var rm := if op.index != -1 then ESP else op.base;
    text.Emit(mod + reg * 8 + rm);
    if rm == ESP {
      text.Emit(op.shift * 64 + (if op.index == -1 then ESP else op.index) * 8 + sibBase);
    }
  }

  /** asm_modrm: emits the bytes one after the other. */
  method AsmModrm(text: Text<Byte>, reg: nat, op: Operand)
    requires reg < 8 && WellFormed(op)
    modifies text
    ensures text.data == old(text.data) + Encode(reg, op)
    ensures Decode(text.data[|old(text.data)|..]) == Some(Meaning(reg, op))
  {
    ghost var before := text.data;
    if op.Direct? {
      text.Emit(0xc0 + reg * 8 + op.reg);
    } else {
      EncodeParts(reg, op);
      if op.base == -1 && op.index == -1 {
        text.Emit(0x05 + reg * 8);
        EmitWord(text, op.disp % 0x1_0000_0000);
      } else {
        var mod := EmitFront(text, reg, op);
        EmitTail(text, op, mod);
      }
    }
    DecodeEncode(reg, op, []);
    assert text.data[|before|..] == Encode(reg, op) + [];
  }

  method EmitTail(text: Text<Byte>, op: Operand, mod: int)
    requires WellFormed(op) && op.Memory? && mod == Mod(op) * 0x40
    modifies text
    ensures text.data == old(text.data) + Tail(op)
  {
    if mod == 0x40 {
      text.Emit(op.disp % 0x100);
    } else if mod == 0x80 || op.base == -1 {
      EmitWord(text, op.disp % 0x1_0000_0000);
    }
  }

  // ---- Effective addresses ----

  type Regs = r: seq<Word> | |r| == 8 witness seq(8, _ => 0)

  function Scaled(x: int, scale: nat): int {
    if scale == 0 then x else if scale == 1 then 2 * x else if scale == 2 then 4 * x else 8 * x
  }

  function Address(base: int, index: int, scale: nat, disp: int, regs: Regs): Word
    requires base < 8 && index < 8
  {
    var b := if base < 0 then 0 else regs[base];
    var i := if index < 0 then 0 else Scaled(regs[index], scale);
    (b + i + disp) % 0x1_0000_0000
  }

  /** With these registers the processor computes the address that was asked for. */
  predicate AddressAt(reg: nat, op: Operand, regs: Regs)
    requires reg < 8 && WellFormed(op) && op.Memory?
  {
    var d := Meaning(reg, op);
    Address(d.base, d.index, d.scale, d.disp, regs) == Address(op.base, op.index, op.shift, op.disp, regs)
  }

  /** It does so whatever the registers hold. */
  ghost predicate SameAddress(reg: nat, op: Operand)
    requires reg < 8 && WellFormed(op) && op.Memory?
  {
    forall regs: Regs :: AddressAt(reg, op, regs)
  }

  /** The address is right exactly when esp is not used as an index; the assembler accepts it all the same. */
  lemma AddressExact(reg: nat, op: Operand)
    requires reg < 8 && WellFormed(op) && op.Memory?
    ensures SameAddress(reg, op) <==> op.index != ESP
  {
    if op.index == ESP {
      EspDropped(reg, op, [0, 0, 0, 0, 1, 0, 0, 0]);
    } else {
      forall regs: Regs ensures AddressAt(reg, op, regs) { AddressSame(reg, op, regs); }
    }
  }

  lemma EspDropped(reg: nat, op: Operand, regs: Regs)
    requires reg < 8 && WellFormed(op) && op.Memory? && op.index == ESP && regs[ESP] == 1
    ensures !AddressAt(reg, op, regs)
  {
    var b := if op.base < 0 then 0 else regs[op.base];
    OneMore(b + op.disp, Scaled(1, op.shift));
    DispMod(b, op.disp);
  }

  lemma AddressSame(reg: nat, op: Operand, regs: Regs)
    requires reg < 8 && WellFormed(op) && op.Memory? && op.index != ESP
    ensures AddressAt(reg, op, regs)
  {
    var b := if op.base < 0 then 0 else regs[op.base];
    var i := if op.index < 0 then 0 else Scaled(regs[op.index], op.shift);
    DispMod(b + i, op.disp);
  }

  lemma DispMod(x: int, disp: int)
    ensures (x + disp % 0x1_0000_0000) % 0x1_0000_0000 == (x + disp) % 0x1_0000_0000
  {
  }

  lemma OneMore(x: int, k: int)
    requires 1 <= k <= 8
    ensures (x + k) % 0x1_0000_0000 != x % 0x1_0000_0000
  {
  }
}
