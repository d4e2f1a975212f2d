/** A64 relocations: branches, and page-relative addresses completed by their low twelve bits. */
module RelocArm64 {
  import opened Base
  import opened CodeBytes
  import opened Patch
  import opened PltArm64
  import opened Text

  // ---- Branches: R_AARCH64_JUMP26 and CALL26 ----

  /** Where B or BL at `addr` goes: a signed 26-bit field counted in words. */
  function BranchTarget(w: Word, addr: Addr): Addr {
    var imm := w % 0x400_0000;
    (addr + (if imm < 0x200_0000 then imm else imm - 0x400_0000) * 4) % W64
  }

  /** The displacement as a signed 64-bit number. */
  function Distance(addr: Addr, val: Addr): int {
    var d := val - addr;
    if d >= 0x8000_0000_0000_0000 then d - W64 else if d < -0x8000_0000_0000_0000 then d + W64 else d
  }

  predicate Reachable(addr: Addr, val: Addr) {
    var d := Distance(addr, val);
    d % 4 == 0 && -0x800_0000 <= d < 0x800_0000
  }

  /** The test masks the biased displacement with the complement of 0xffffffc. */
  lemma BranchTest(addr: Addr, val: Addr, u: int)
    requires u == (val - addr + 0x800_0000) % W64
    ensures (u < 0x1000_0000 && u % 4 == 0) <==> Reachable(addr, val)
    ensures Reachable(addr, val) ==> u == Distance(addr, val) + 0x800_0000
  {
    var d := Distance(addr, val);
    if d + 0x800_0000 >= 0 {
      assert u == d + 0x800_0000;
    } else {
      assert u == d + 0x800_0000 + W64;
    }
  }

  lemma BranchField(d: int, imm: int)
    requires d % 4 == 0 && -0x800_0000 <= d < 0x800_0000 && imm == d / 4 % 0x400_0000
    ensures (if imm < 0x200_0000 then imm else imm - 0x400_0000) * 4 == d
  {
    var q := d / 4;
    assert imm == if q < 0 then q + 0x400_0000 else q;
  }

  /** Success exactly for targets that are 4-aligned and within 128 MiB; the branch then goes to the target. */
  method RelocateBranch(call: bool, addr: Addr, val: Addr) returns (w: Option<Word>)
    ensures w.Some? <==> Reachable(addr, val)
    ensures w.Some? ==> BranchTarget(w.value, addr) == val && w.value / 0x400_0000 == if call then 0x25 else 0x5
  {
    var u := (val - addr + 0x800_0000) % W64;
    BranchTest(addr, val, u);
    if u < 0x1000_0000 && u % 4 == 0 {
      var d := u - 0x800_0000;
      var imm := d / 4 % 0x400_0000;
      BranchField(d, imm);
      w := Some(0x1400_0000 + (if call then 0x8000_0000 else 0) + imm);
      assert w.value % 0x400_0000 == imm;
      TargetMod(addr, val, d);
    } else {
      w := None;
    }
  }

  lemma TargetMod(addr: Addr, val: Addr, d: int)
    requires d == Distance(addr, val)
    ensures (addr + d) % W64 == val
  {
  }

  // ---- Pages: R_AARCH64_ADR_PREL_PG_HI21 ----

  /** The bits that stay: opcode and register. */
  function KeptAdrp(w: Word): (int, int, int) { (w / 0x8000_0000, w / 0x100_0000 % 0x20, w % 0x20) }

  lemma AdrpPatched(top: int, op: int, rd: int, q: nat, r: nat, w: int)
    requires 0 <= top < 2 && 0 <= op < 0x20 && 0 <= rd < 0x20 && q < 0x8_0000 && r < 4
    requires w == top * 0x8000_0000 + r * 0x2000_0000 + op * 0x100_0000 + q * 0x20 + rd
    ensures 0 <= w < 0x1_0000_0000 && KeptAdrp(w) == (top, op, rd)
    ensures w / 0x20 % 0x8_0000 == q && w / 0x2000_0000 % 4 == r
  {
    var h := w / 0x20;
    assert h == top * 0x400_0000 + r * 0x100_0000 + op * 0x8_0000 + q;
    var g := h / 0x8_0000;
    assert g == top * 0x80 + r * 0x20 + op && h % 0x8_0000 == q;
    assert w / 0x100_0000 == g && w / 0x2000_0000 == top * 4 + r;
  }

  method RelocatePage(w: Word, addr: Addr, val: Addr) returns (r: Option<Word>)
    ensures r.Some? <==> Near(val, addr)
    ensures r.Some? ==> KeptAdrp(r.value) == KeptAdrp(w) && AdrpPage(r.value, addr) == val - val % 0x1000
  {
    var d := val / 0x1000 - addr / 0x1000;
    var ok := TestRange(d);
    if !ok { return None; }
    var u := d % 0x20_0000;
    var (top, op, rd) := KeptAdrp(w);
    var x := top * 0x8000_0000 + u % 4 * 0x2000_0000 + op * 0x100_0000 + u / 4 * 0x20 + rd;
    AdrpPatched(top, op, rd, u / 4, u % 4, x);
    r := Some(x);
    PageValue(x, addr, val, d, u);
  }

  lemma PageValue(x: Word, addr: Addr, val: Addr, d: int, u: int)
    requires d == val / 0x1000 - addr / 0x1000 && InRange(d) && u == d % 0x20_0000
    requires x / 0x20 % 0x8_0000 == u / 4 && x / 0x2000_0000 % 4 == u % 4
    ensures AdrpPage(x, addr) == val - val % 0x1000
  {
    assert u == if d < 0 then d + 0x20_0000 else d;
    assert addr - addr % 0x1000 + d * 0x1000 == val - val % 0x1000;
  }

  // ---- Low bits: R_AARCH64_ADD_ABS_LO12_NC and LDSTn_ABS_LO12_NC ----

  /** Access sizes of the load and store forms; an ADD counts in single bytes. */
  datatype Scale = By1 | By2 | By4 | By8 | By16

  function Bytes(k: Scale): nat {
    match k
    case By1 => 1
    case By2 => 2
    case By4 => 4
    case By8 => 8
    case By16 => 16
  }

  function Units(low: nat, k: Scale): nat {
    match k
    case By1 => low
    case By2 => low / 2
    case By4 => low / 4
    case By8 => low / 8
    case By16 => low / 16
  }

  function Lost(low: nat, k: Scale): nat {
    match k
    case By1 => 0
    case By2 => low % 2
    case By4 => low % 4
    case By8 => low % 8
    case By16 => low % 16
  }

  lemma UnitsExact(low: nat, k: Scale)
    requires low < 0x1000
    ensures Units(low, k) < 0x1000 && Units(low, k) * Bytes(k) == low - Lost(low, k)
  {
  }

  /** The bits that stay: everything but the 12-bit field. */
  function KeptLow(w: Word): (int, int) { (w / 0x40_0000, w % 0x400) }

  lemma LowPatched(top: int, low: int, imm: nat, w: int)
    requires 0 <= top < 0x400 && 0 <= low < 0x400 && imm < 0x1000
    requires w == top * 0x40_0000 + imm * 0x400 + low
    ensures 0 <= w < 0x1_0000_0000 && KeptLow(w) == (top, low) && Imm12(w) == imm
  {
    assert w / 0x400 == top * 0x1000 + imm;
    assert w / 0x40_0000 == top;
  }

  method RelocateLow(w: Word, val: Addr, k: Scale) returns (r: Word)
    ensures KeptLow(r) == KeptLow(w) && Imm12(r) * Bytes(k) == val % 0x1000 - Lost(val % 0x1000, k)
  {
    var low := val % 0x1000;
    UnitsExact(low, k);
    var (top, bottom) := KeptLow(w);
    LowPatched(top, bottom, Units(low, k), top * 0x40_0000 + Units(low, k) * 0x400 + bottom);
    r := top * 0x40_0000 + Units(low, k) * 0x400 + bottom;
  }

  /** The pair of instructions addresses the value, exactly when it is aligned to the access size. */
  lemma PairAddresses(page: Word, low: Word, addr: Addr, val: Addr, k: Scale)
    requires AdrpPage(page, addr) == val - val % 0x1000
    requires Imm12(low) * Bytes(k) == val % 0x1000 - Lost(val % 0x1000, k)
    ensures (AdrpPage(page, addr) + Imm12(low) * Bytes(k)) % W64 == val <==> Lost(val % 0x1000, k) == 0
  {
    var x := AdrpPage(page, addr) + Imm12(low) * Bytes(k);
    assert x == val - Lost(val % 0x1000, k);
  }

  // ---- In place ----

  datatype Reloc = Jump26(call: bool) | Page21 | Low12(scale: Scale)

  predicate Fatal(reloc: Reloc, addr: Addr, val: Addr) {
    match reloc
    case Jump26(_) => !Reachable(addr, val)
    case Page21 => !Near(val, addr)
    case Low12(_) => false
  }

  /** The instruction w became w'. */
  predicate Relocated(w: Word, w': Word, reloc: Reloc, addr: Addr, val: Addr) {
    match reloc
    case Jump26(call) => BranchTarget(w', addr) == val && w' / 0x400_0000 == if call then 0x25 else 0x5
    case Page21 => KeptAdrp(w') == KeptAdrp(w) && AdrpPage(w', addr) == val - val % 0x1000
    case Low12(scale) =>
      KeptLow(w') == KeptLow(w) && Imm12(w') * Bytes(scale) == val % 0x1000 - Lost(val % 0x1000, scale)
  }

  /** These cases of `relocate`, on the instruction at `p`. */
  method Relocate(text: Text<Byte>, p: nat, reloc: Reloc, addr: Addr, val: Addr) returns (ok: bool)
    requires p + 4 <= |text.data|
    modifies text
    ensures OutsideSame(old(text.data), text.data, p, p + 4)
    ensures ok <==> !Fatal(reloc, addr, val)
    ensures ok ==> Relocated(old(Read32(text.data, p)), Read32(text.data, p), reloc, addr, val)
    ensures !ok ==> text.data == old(text.data)
  {
    var w := Read32(text.data, p);
    var r: Option<Word>;
    match reloc {
      case Jump26(call) => r := RelocateBranch(call, addr, val);
      case Page21 => r := RelocatePage(w, addr, val);
      case Low12(scale) =>
        var x := RelocateLow(w, val, scale);
        r := Some(x);
    }
    ok := r.Some?;
    if ok { Put(text, p, r.value); }
  }
}
