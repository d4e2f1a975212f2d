/** The A64 procedure linkage table, and the page-relative addressing it is made of. */
module PltArm64 {
  import opened Base
  import opened CodeBytes
  import opened Patch
  import opened Text

  type Addr = x: int | 0 <= x < 0x1_0000_0000_0000_0000

  // ---- Instructions ----

  /** ADRP x16: the distance in pages, 21 bits, its low two at the top. */
  function Adrp(d: int): Word {
    0x9000_0010 + d % 0x20_0000 / 4 * 0x20 + d % 4 * 0x2000_0000
  }

  /** LDR x17, [x16, #low], in units of eight bytes. */
  function Ldr(low: nat): Word
    requires low < 0x1000
  {
    0xf940_0211 + low / 8 * 0x400
  }

  /** ADD x16, x16, #low. */
  function Add(low: nat): Word
    requires low < 0x1000
  {
    0x9100_0210 + low * 0x400
  }

  const BR_X17: Word := 0xd61f_0220

  /** The page ADRP computes from its own address, by the fields of the instruction. */
  function AdrpPage(w: Word, pc: Addr): Addr {
    var raw := w / 0x20 % 0x8_0000 * 4 + w / 0x2000_0000 % 4;
    var imm := if raw < 0x10_0000 then raw else raw - 0x20_0000;
    (pc - pc % 0x1000 + imm * 0x1000) % W64
  }

  predicate IsAdrpX16(w: Word) { w / 0x8000_0000 == 1 && w / 0x100_0000 % 0x20 == 0x10 && w % 0x20 == 16 }

  predicate IsLdrX17(w: Word) { w / 0x40_0000 == 0x3e5 && w / 0x20 % 0x20 == 16 && w % 0x20 == 17 }

  predicate IsAddX16(w: Word) { w / 0x40_0000 == 0x244 && w / 0x20 % 0x20 == 16 && w % 0x20 == 16 }

  function Imm12(w: Word): nat { w / 0x400 % 0x1000 }

  /** adrp at `pc`, ldr, add, br: jumps through the doubleword at `load`, leaving `x16` in x16. */
  ghost predicate JumpsThrough(w0: Word, w1: Word, w2: Word, w3: Word, pc: Addr, load: int, x16: int) {
    IsAdrpX16(w0) && IsLdrX17(w1) && IsAddX16(w2) && w3 == BR_X17 &&
    (AdrpPage(w0, pc) + 8 * Imm12(w1)) % W64 == load && (AdrpPage(w0, pc) + Imm12(w2)) % W64 == x16
  }

  /** The test on a distance in pages: 21 signed bits. */
  predicate InRange(d: int) { -0x10_0000 <= d < 0x10_0000 }

  /** ((off + (1 << 20)) >> 21) == 0 on 64-bit words is that test. */
  lemma RangeTest(d: int)
    requires -0x10_0000_0000_0000 <= d < 0x10_0000_0000_0000
    ensures (d % W64 + 0x10_0000) % W64 / 0x20_0000 == 0 <==> InRange(d)
  {
    assert (d % W64 + 0x10_0000) % W64 == (d + 0x10_0000) % W64;
  }

  lemma AdrpFields(q: nat, r: nat, w: Word)
    requires q < 0x8_0000 && r < 4 && w == 0x9000_0010 + q * 0x20 + r * 0x2000_0000
    ensures IsAdrpX16(w) && w / 0x20 % 0x8_0000 == q && w / 0x2000_0000 % 4 == r
  {
    var h := w / 0x20;
    assert h == 0x480_0000 + q + r * 0x100_0000;
    assert h / 0x8_0000 == 0x90 + r * 0x20;
    assert w / 0x100_0000 == 0x90 + r * 0x20;
  }

  lemma AdrpExecutes(d: int, pc: Addr)
    requires InRange(d)
    ensures IsAdrpX16(Adrp(d)) && AdrpPage(Adrp(d), pc) == (pc - pc % 0x1000 + d * 0x1000) % W64
  {
    var u := d % 0x20_0000;
    assert u == if d < 0 then d + 0x20_0000 else d;
    assert d % 4 == u % 4;
    AdrpFields(u / 4, u % 4, Adrp(d));
  }

  lemma LdrFields(low: nat)
    requires low < 0x1000
    ensures IsLdrX17(Ldr(low)) && Imm12(Ldr(low)) == low / 8
  {
    var w, q := Ldr(low), low / 8;
    assert w / 0x400 == 0x3e_5000 + q;
    assert w / 0x20 == 0x7ca_0010 + q * 0x20;
  }

  lemma AddFields(low: nat)
    requires low < 0x1000
    ensures IsAddX16(Add(low)) && Imm12(Add(low)) == low
  {
    var w := Add(low);
    assert w / 0x400 == 0x24_4000 + low;
    assert w / 0x20 == 0x488_0010 + low * 0x20;
  }

  lemma Small(x: Addr)
    ensures x % W64 == x
  {
  }

  lemma PageOf(pc: Addr, base: int, d: int, top: Addr)
    requires base == pc - pc % 0x1000 && InRange(d) && top == base + d * 0x1000
    ensures IsAdrpX16(Adrp(d)) && AdrpPage(Adrp(d), pc) == top
  {
    AdrpExecutes(d, pc);
    Small(top);
  }

  lemma SlotOf(w0: Word, w1: Word, w2: Word, pc: Addr, top: Addr, low: nat, q: nat, r: nat, slot: Addr, load: Addr)
    requires IsAdrpX16(w0) && AdrpPage(w0, pc) == top && low < 0x1000 && low == 8 * q + r && r < 8
    requires slot == top + low && load == top + 8 * q && w1 == Ldr(low) && w2 == Add(low)
    ensures JumpsThrough(w0, w1, w2, BR_X17, pc, load, slot)
  {
    LdrFields(low);
    AddFields(low);
    Eighth(low, q, r);
    Small(slot);
    Small(load);
  }

  lemma Eighth(low: nat, q: nat, r: nat)
    requires low == 8 * q + r && r < 8
    ensures low / 8 == q
  {
  }

  lemma SlotParts(slot: Addr, sp: int, low: int, q: int)
    requires sp == slot / 0x1000 && low == slot % 0x1000 && q == low / 8
    ensures slot == sp * 0x1000 + low && slot - slot % 8 == sp * 0x1000 + 8 * q && 8 * q <= low < 8 * q + 8
  {
    EightRest(slot, sp * 0x200 + q, low - 8 * q);
  }

  lemma EightRest(x: int, h: int, r: int)
    requires x == 8 * h + r && 0 <= r < 8
    ensures x % 8 == r
  {
  }

  lemma PageParts(pc: Addr, pp: int)
    requires pp == pc / 0x1000
    ensures pc - pc % 0x1000 == pp * 0x1000
  {
  }

  /** The three instructions built for the distance between two pages. */
  lemma EntryJumps(pc: Addr, slot: Addr, page: Addr)
    requires page / 0x1000 == pc / 0x1000 && InRange(slot / 0x1000 - page / 0x1000)
    ensures JumpsThrough(Adrp(slot / 0x1000 - page / 0x1000), Ldr(slot % 0x1000), Add(slot % 0x1000), BR_X17,
                         pc, slot - slot % 8, slot)
  {
    var sp, pp, low := slot / 0x1000, page / 0x1000, slot % 0x1000;
    var d, top, q, load := sp - pp, sp * 0x1000, low / 8, slot - slot % 8;
    SlotParts(slot, sp, low, q);
    PageParts(pc, pp);
    PageOf(pc, pp * 0x1000, d, top);
    SlotOf(Adrp(d), Ldr(low), Add(low), pc, top, low, q, low - 8 * q, slot, load);
  }

  // ---- Entries ----

  /** Where entry k starts: after PLT0, sixteen bytes each. */
  function Start(k: nat): nat { 32 + 16 * k }

  ghost predicate Blank(s: Code, k: nat, off: Word) {
    Start(k) + 16 <= |s| && Read32(s, Start(k)) == off && Read32(s, Start(k) + 4) == 0
  }

  /** A table with an entry for each of `offs`, not yet relocated. */
  ghost predicate Reserved(s: Code, offs: seq<Word>) {
    if offs == [] then s == []
    else |s| == Start(|offs|) && forall k :: 0 <= k < |offs| ==> Blank(s, k, offs[k])
  }

  function Entry(off: Word): Code { Bytes32(off) + ZEROS + ZEROS + ZEROS }

  lemma EntryParts(off: Word)
    ensures |Entry(off)| == 16 && Entry(off)[0..4] == Bytes32(off) && Entry(off)[4..8] == Bytes32(0)
  {
  }

  lemma BlankLast(s: Code, k: nat, off: Word)
    requires |s| == Start(k)
    ensures Blank(s + Entry(off), k, off)
  {
    EntryParts(off);
    ReadLast(s, Entry(off), |s|, off);
    ReadLast(s, Entry(off), |s| + 4, 0);
  }

  lemma BlankAppended(s: Code, b: Code, k: nat, off: Word)
    requires Blank(s, k, off)
    ensures Blank(s + b, k, off)
  {
    ReadAppended(s, b, Start(k));
    ReadAppended(s, b, Start(k) + 4);
  }

  lemma EntryReserved(s: Code, offs: seq<Word>, off: Word)
    requires if offs == [] then |s| == 32 else Reserved(s, offs)
    ensures Reserved(s + Entry(off), offs + [off])
  {
    var s1, n, all := s + Entry(off), |offs|, offs + [off];
    EntryParts(off);
    forall k | 0 <= k < |all| ensures Blank(s1, k, all[k]) {
      if k < n { BlankAppended(s, Entry(off), k, offs[k]); } else { BlankLast(s, n, off); }
    }
  }

  /** create_plt_entry: PLT0 is left to relocate_plt. */
  method CreatePltEntry(plt: Text<Byte>, gotOffset: Word, ghost offs: seq<Word>) returns (pltOffset: nat)
    requires Reserved(plt.data, offs)
    modifies plt
    ensures Reserved(plt.data, offs + [gotOffset]) && pltOffset == Start(|offs|)
  {
    if |plt.data| == 0 {
      plt.EmitAll(ZEROS + ZEROS + ZEROS + ZEROS + ZEROS + ZEROS + ZEROS + ZEROS);
    }
    pltOffset := |plt.data|;
    EntryReserved(plt.data, offs, gotOffset);
    plt.EmitAll(Entry(gotOffset));
  }

  // ---- Relocation ----

  /** The entry at p jumps through the doubleword of `slot`, and leaves its address in x16. */
  ghost predicate Reaches(s: Code, p: nat, pc: Addr, slot: Addr)
    requires p + 16 <= |s|
  {
    JumpsThrough(Read32(s, p), Read32(s, p + 4), Read32(s, p + 8), Read32(s, p + 12), pc, slot - slot % 8, slot)
  }

  /** Sections lie below the top of the address space. */
  predicate Fits(addr: Addr, size: nat, got: Addr, offs: seq<Word>) {
    addr + size < W64 && got + 16 < W64 && forall k :: 0 <= k < |offs| ==> got + offs[k] < W64
  }

  /** GOT words near enough to the table, by pages. */
  predicate Near(slot: Addr, pc: Addr) { InRange(slot / 0x1000 - pc / 0x1000) }

  ghost predicate EntryDone(s: Code, k: nat, addr: Addr, got: Addr, off: Word)
    requires addr + |s| < W64 && got + off < W64
  {
    Start(k) + 16 <= |s| && Reaches(s, Start(k), addr + Start(k), got + off)
  }

  ghost predicate Filled(s: Code, offs: seq<Word>, n: nat, addr: Addr, got: Addr)
    requires Fits(addr, |s|, got, offs)
  {
    n <= |offs| && |s| == Start(|offs|) &&
    (forall k :: 0 <= k < n ==> EntryDone(s, k, addr, got, offs[k])) &&
    (forall k :: n <= k < |offs| ==> Blank(s, k, offs[k]))
  }

  lemma DoneStill(s: Code, s': Code, lo: int, hi: int, k: nat, addr: Addr, got: Addr, off: Word)
    requires addr + |s| < W64 && got + off < W64 && OutsideSame(s, s', lo, hi)
    requires EntryDone(s, k, addr, got, off) && (Start(k) + 16 <= lo || hi <= Start(k))
    ensures EntryDone(s', k, addr, got, off)
  {
    var p := Start(k);
    SameWord(s, s', lo, hi, p);
    SameWord(s, s', lo, hi, p + 4);
    SameWord(s, s', lo, hi, p + 8);
    SameWord(s, s', lo, hi, p + 12);
  }

  lemma BlankStill(s: Code, s': Code, lo: int, hi: int, k: nat, off: Word)
    requires OutsideSame(s, s', lo, hi) && Blank(s, k, off) && hi <= Start(k)
    ensures Blank(s', k, off)
  {
    SameWord(s, s', lo, hi, Start(k));
    SameWord(s, s', lo, hi, Start(k) + 4);
  }

  lemma FilledNext(s: Code, s': Code, offs: seq<Word>, n: nat, addr: Addr, got: Addr)
    requires n < |offs| && Fits(addr, |s|, got, offs) && Filled(s, offs, n, addr, got)
    requires OutsideSame(s, s', Start(n), Start(n + 1)) && EntryDone(s', n, addr, got, offs[n])
    ensures Filled(s', offs, n + 1, addr, got)
  {
    forall k | 0 <= k < n + 1 ensures EntryDone(s', k, addr, got, offs[k]) {
      if k < n { DoneStill(s, s', Start(n), Start(n + 1), k, addr, got, offs[k]); }
    }
    forall k | n + 1 <= k < |offs| ensures Blank(s', k, offs[k]) {
      BlankStill(s, s', Start(n), Start(n + 1), k, offs[k]);
    }
  }

  method TestRange(d: int) returns (ok: bool)
    requires -0x10_0000_0000_0000 <= d < 0x10_0000_0000_0000
    ensures ok <==> InRange(d)
  {
    RangeTest(d);
    ok := (d % W64 + 0x10_0000) % W64 / 0x20_0000 == 0;
  }

  /** The offset that create_plt_entry left behind. */
  method SavedOffset(plt: Text<Byte>, p: nat, ghost k: nat, ghost off: Word) returns (saved: nat)
    requires p == Start(k) && Blank(plt.data, k, off)
    ensures saved == off
  {
    saved := Read32(plt.data, p) + Read32(plt.data, p + 4) * 0x1_0000_0000;
  }

  method FillEntry(plt: Text<Byte>, p: nat, pc: Addr, slot: Addr) returns (ok: bool)
    requires p + 16 <= |plt.data|
    modifies plt
    ensures ok <==> Near(slot, pc)
    ensures OutsideSame(old(plt.data), plt.data, p, p + 16) && (ok ==> Reaches(plt.data, p, pc, slot))
  {
    var d := slot / 0x1000 - pc / 0x1000;
    ok := TestRange(d);
    if ok {
      EntryJumps(pc, slot, pc);
      PutWords(plt, p, Adrp(d), Ldr(slot % 0x1000), Add(slot % 0x1000), BR_X17);
    }
  }

  /** PLT0 saves x16 and x30 and jumps through the third GOT entry. */
  ghost predicate FirstJumps(s: Code, addr: Addr, got: Addr)
    requires addr + |s| < W64 && got + 16 < W64
  {
    |s| >= 32 && Read32(s, 0) == 0xa9bf_7bf0 && Reaches(s, 4, addr + 4, got + 16)
  }

  /** The page is computed from the table's start, which is one instruction before the ADRP. */
  predicate SamePage(addr: Addr) { addr / 0x1000 == (addr + 4) / 0x1000 }

  lemma AlignedPage(addr: Addr)
    requires addr % 8 == 0
    ensures SamePage(addr)
  {
    var q := addr / 8;
    assert addr / 0x1000 == q / 0x200 && (addr + 4) / 8 == q && (addr + 4) / 0x1000 == (addr + 4) / 8 / 0x200;
  }

  /** Across a page boundary ADRP ends one page too far. */
  lemma NextPage(addr: Addr, slot: Addr, w1: Word, w3: Word, load: int)
    requires !SamePage(addr) && addr + 4 < W64 && Near(slot, addr)
    ensures !JumpsThrough(Adrp(slot / 0x1000 - addr / 0x1000), w1, Add(slot % 0x1000), w3, addr + 4, load, slot)
  {
    var d, top, low := slot / 0x1000 - addr / 0x1000, slot / 0x1000 * 0x1000, slot % 0x1000;
    PageParts(addr + 4, addr / 0x1000 + 1);
    AdrpExecutes(d, addr + 4);
    AddFields(low);
    PageTooFar(top + 0x1000, low, slot);
  }

  lemma PageTooFar(page: int, low: int, slot: Addr)
    requires page + low == slot + 0x1000
    ensures (page % W64 + low) % W64 != slot
  {
    var q := page / W64;
    assert page % W64 + low == slot + 0x1000 - q * W64;
    Wrapped(slot, q, page % W64 + low);
  }

  lemma Wrapped(slot: Addr, q: int, x: int)
    requires x == slot + 0x1000 - q * W64
    ensures x % W64 != slot
  {
    var y := slot + 0x1000;
    assert y % W64 == if y < W64 then y else y - W64;
    assert x % W64 == y % W64;
  }

  ghost predicate FirstDone(s: Code, addr: Addr, got: Addr)
    requires addr + |s| < W64 && got + 16 < W64
  {
    FirstJumps(s, addr, got) <==> SamePage(addr)
  }

  lemma PageExact(addr: Addr, slot: Addr, d: int, low: nat)
    requires addr + 4 < W64 && Near(slot, addr) && d == slot / 0x1000 - addr / 0x1000 && low == slot % 0x1000
    ensures JumpsThrough(Adrp(d), Ldr(low), Add(low), BR_X17, addr + 4, slot - slot % 8, slot) <==> SamePage(addr)
  {
    var pc := addr + 4;
    if SamePage(addr) {
      EntryJumps(pc, slot, addr);
    } else {
      NextPage(addr, slot, Ldr(low), BR_X17, slot - slot % 8);
    }
  }

  lemma FirstWords(s: Code, addr: Addr, got: Addr, slot: Addr, d: int, low: nat)
    requires |s| >= 32 && addr + |s| < W64 && slot == got + 16 && Near(slot, addr)
    requires d == slot / 0x1000 - addr / 0x1000 && low == slot % 0x1000
    requires Read32(s, 0) == 0xa9bf_7bf0 && Read32(s, 4) == Adrp(d) && Read32(s, 8) == Ldr(low)
    requires Read32(s, 12) == Add(low) && Read32(s, 16) == BR_X17
    ensures FirstDone(s, addr, got)
  {
    PageExact(addr, slot, d, low);
  }

  method FillFirst(plt: Text<Byte>, addr: Addr, got: Addr) returns (ok: bool)
    requires |plt.data| >= 32 && addr + |plt.data| < W64 && got + 16 < W64
    modifies plt
    ensures ok <==> Near(got + 16, addr)
    ensures OutsideSame(old(plt.data), plt.data, 0, 32) && (ok ==> FirstDone(plt.data, addr, got))
  {
    var slot := got + 16;
    var d := slot / 0x1000 - addr / 0x1000;
    ok := TestRange(d);
    if ok {
      PutFirst(plt, Adrp(d), Ldr(slot % 0x1000), Add(slot % 0x1000));
      FirstWords(plt.data, addr, got, slot, d, slot % 0x1000);
    }
  }

  method PutFirst(plt: Text<Byte>, adrp: Word, ldr: Word, add: Word)
    requires |plt.data| >= 32
    modifies plt
    ensures OutsideSame(old(plt.data), plt.data, 0, 32)
    ensures Read32(plt.data, 0) == 0xa9bf_7bf0 && Read32(plt.data, 4) == adrp && Read32(plt.data, 8) == ldr
    ensures Read32(plt.data, 12) == add && Read32(plt.data, 16) == BR_X17
  {
    Put(plt, 0, 0xa9bf_7bf0);
    ghost var s1 := plt.data;
    PutWords(plt, 4, adrp, ldr, add, BR_X17);
    ghost var s2 := plt.data;
    PutNops(plt);
    SameWord(s1, s2, 4, 20, 0);
    SameFirst(s2, plt.data, 20, 32);
  }

  /** The five words of PLT0. */
  lemma SameFirst(s: Code, s': Code, lo: int, hi: int)
    requires OutsideSame(s, s', lo, hi) && 20 <= lo && |s| >= 20
    ensures Read32(s', 0) == Read32(s, 0) && Read32(s', 4) == Read32(s, 4) && Read32(s', 8) == Read32(s, 8)
    ensures Read32(s', 12) == Read32(s, 12) && Read32(s', 16) == Read32(s, 16)
  {
    SameWord(s, s', lo, hi, 0);
    SameWord(s, s', lo, hi, 4);
    SameWord(s, s', lo, hi, 8);
    SameWord(s, s', lo, hi, 12);
    SameWord(s, s', lo, hi, 16);
  }

  method PutNops(plt: Text<Byte>)
    requires |plt.data| >= 32
    modifies plt
    ensures OutsideSame(old(plt.data), plt.data, 20, 32)
  {
    Put(plt, 20, 0xd503_201f);
    Put(plt, 24, 0xd503_201f);
    Put(plt, 28, 0xd503_201f);
  }

  ghost predicate AllNear(offs: seq<Word>, n: nat, addr: Addr, got: Addr)
    requires n <= |offs| && addr + Start(|offs|) < W64 && forall k :: 0 <= k < |offs| ==> got + offs[k] < W64
  {
    forall k :: 0 <= k < n ==> NearAt(offs, k, addr, got)
  }

  predicate NearAt(offs: seq<Word>, k: nat, addr: Addr, got: Addr)
    requires k < |offs| && addr + Start(|offs|) < W64 && got + offs[k] < W64
  {
    Near(got + offs[k], addr + Start(k))
  }

  method FillNext(plt: Text<Byte>, p: nat, addr: Addr, got: Addr, ghost offs: seq<Word>,
        ghost n: nat) returns (ok: bool)
    requires Fits(addr, |plt.data|, got, offs) && n < |offs| && p == Start(n) && Filled(plt.data, offs, n, addr, got)
    modifies plt
    ensures OutsideSame(old(plt.data), plt.data, p, p + 16)
    ensures ok <==> NearAt(offs, n, addr, got)
    ensures ok ==> Filled(plt.data, offs, n + 1, addr, got)
  {
    ghost var before := plt.data;
    var off := SavedOffset(plt, p, n, offs[n]);
    ok := FillEntry(plt, p, addr + p, got + off);
    if ok { FilledNext(before, plt.data, offs, n, addr, got); }
  }

  lemma NearMore(offs: seq<Word>, n: nat, addr: Addr, got: Addr)
    requires n < |offs| && addr + Start(|offs|) < W64 && forall k :: 0 <= k < |offs| ==> got + offs[k] < W64
    ensures AllNear(offs, n + 1, addr, got) <==> AllNear(offs, n, addr, got) && NearAt(offs, n, addr, got)
    ensures AllNear(offs, |offs|, addr, got) ==> NearAt(offs, n, addr, got)
  {
  }

  method FillEntries(plt: Text<Byte>, addr: Addr, got: Addr, ghost offs: seq<Word>) returns (ok: bool)
    requires Fits(addr, |plt.data|, got, offs) && Filled(plt.data, offs, 0, addr, got)
    modifies plt
    ensures OutsideSame(old(plt.data), plt.data, 32, |plt.data|)
    ensures ok <==> AllNear(offs, |offs|, addr, got)
    ensures ok ==> Filled(plt.data, offs, |offs|, addr, got)
  {
    var end := |plt.data|;
    ghost var s1, n := plt.data, 0;
    var p := 32;
    ok := true;
    while p < end
      invariant p == Start(n) && n <= |offs| && |plt.data| == end && Filled(plt.data, offs, n, addr, got)
      invariant ok && OutsideSame(s1, plt.data, 32, end) && AllNear(offs, n, addr, got)
      decreases end - p
    {
      NearMore(offs, n, addr, got);
      ok := FillNext(plt, p, addr, got, offs, n);
      if !ok { return; }
      p := p + 16;
      n := n + 1;
    }
  }

  /** relocate_plt: it succeeds exactly when every GOT word used is within 2^20 pages. */
  method RelocatePlt(plt: Text<Byte>, addr: Addr, got: Addr, ghost offs: seq<Word>) returns (ok: bool)
    requires Reserved(plt.data, offs) && Fits(addr, |plt.data|, got, offs)
    modifies plt
    ensures |plt.data| == |old(plt.data)|
    ensures ok <==> offs == [] || (Near(got + 16, addr) && AllNear(offs, |offs|, addr, got))
    ensures ok && offs != [] ==> Filled(plt.data, offs, |offs|, addr, got)
    ensures ok && offs != [] ==> (FirstJumps(plt.data, addr, got) <==> SamePage(addr))
    ensures ok && offs != [] && addr % 8 == 0 ==> FirstJumps(plt.data, addr, got)
  {
    if addr % 8 == 0 { AlignedPage(addr); }
    ok := true;
    if 0 < |plt.data| {
      ghost var s0 := plt.data;
      ok := FillFirst(plt, addr, got);
      if ok {
        ghost var s1 := plt.data;
        forall k | 0 <= k < |offs| ensures Blank(s1, k, offs[k]) { BlankStill(s0, s1, 0, 32, k, offs[k]); }
        ok := FillEntries(plt, addr, got, offs);
        FirstStill(s1, plt.data, addr, got);
      }
    }
  }

  lemma FirstStill(s: Code, s': Code, addr: Addr, got: Addr)
    requires addr + |s| < W64 && got + 16 < W64 && OutsideSame(s, s', 32, |s|) && 32 <= |s|
    ensures FirstDone(s', addr, got) <==> FirstDone(s, addr, got)
  {
    SameFirst(s, s', 32, |s|);
  }

  /** Every GOT doubleword in `rels` leads to PLT0, loaded at `addr`. */
  ghost predicate PointsAtStart(got: Code, rels: seq<nat>, n: nat, addr: Addr) {
    n <= |rels| &&
    forall k: nat :: k < n ==>
      rels[k] + 8 <= |got| && Read32(got, rels[k]) + Read32(got, rels[k] + 4) * 0x1_0000_0000 == addr
  }

  method Put64(text: Text<Byte>, p: nat, x: Addr)
    requires p + 8 <= |text.data|
    modifies text
    ensures OutsideSame(old(text.data), text.data, p, p + 8)
    ensures Read32(text.data, p) + Read32(text.data, p + 4) * 0x1_0000_0000 == x
  {
    var u: int := x;
    Put(text, p, u % 0x1_0000_0000);
    ghost var before := text.data;
    Put(text, p + 4, u / 0x1_0000_0000);
    SameWord(before, text.data, p + 4, p + 8, p);
  }

  lemma PointsNext(s: Code, s': Code, rels: seq<nat>, n: nat, addr: Addr)
    requires SlotsApart(rels, 8, |s|) && n < |rels| && PointsAtStart(s, rels, n, addr)
    requires OutsideSame(s, s', rels[n], rels[n] + 8)
    requires Read32(s', rels[n]) + Read32(s', rels[n] + 4) * 0x1_0000_0000 == addr
    ensures PointsAtStart(s', rels, n + 1, addr)
  {
    forall j: nat | j < n
      ensures Read32(s', rels[j]) == Read32(s, rels[j])
      ensures Read32(s', rels[j] + 4) == Read32(s, rels[j] + 4)
    {
      SameWord(s, s', rels[n], rels[n] + 8, rels[j]);
      SameWord(s, s', rels[n], rels[n] + 8, rels[j] + 4);
    }
  }

  /** The loop over the relocations of the table, given by the GOT offsets they are for. */
  method RelocateGot(got: Text<Byte>, rels: seq<nat>, addr: Addr)
    requires SlotsApart(rels, 8, |got.data|)
    modifies got
    ensures PointsAtStart(got.data, rels, |rels|, addr) && OutsideSlotsSame(old(got.data), got.data, rels, |rels|, 8)
  {
    for k := 0 to |rels|
      invariant PointsAtStart(got.data, rels, k, addr) && OutsideSlotsSame(old(got.data), got.data, rels, k, 8)
    {
      ghost var before := got.data;
      Put64(got, rels[k], addr);
      PointsNext(before, got.data, rels, k, addr);
      OutsideSlotsNext(old(got.data), before, got.data, rels, k, 8);
    }
  }
}
