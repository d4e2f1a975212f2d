/** The i386 procedure linkage table and the GOT words behind it. */
module PltI386 {
  import opened Base
  import opened CodeBytes
  import opened Patch
  import opened Text
  import ModRM

  /** Where entry k starts: after PLT0, sixteen bytes each. */
  function Start(k: nat): nat { 16 + 16 * k }

  /** jmp *disp32, or jmp *disp32(%ebx) in a dynamic output. */
  function JumpModRM(dyn: bool): Byte { if dyn then 0xa3 else 0x25 }

  /** The instruction at p goes through the word at disp, relative to ebx in a dynamic output: its opcode extension is
      4 for a jump and 6 for a push. */
  predicate Through(s: Code, p: nat, field: nat, dyn: bool, disp: Word) {
    p + 6 <= |s| && s[p] == 0xff &&
    ModRM.Decode(s[p + 1..]) == Some(ModRM.Mem(field, if dyn then 3 else -1, -1, 0, disp, 5))
  }

  /** The same in bytes. */
  predicate JumpBytes(s: Code, p: nat, field: nat, dyn: bool, disp: Word) {
    p + 6 <= |s| && s[p] == 0xff && s[p + 1] as int == JumpModRM(dyn) as int + (if field == 6 then 0x10 else 0) &&
    Read32(s, p + 2) == disp
  }

  lemma BytesThrough(s: Code, p: nat, field: nat, dyn: bool, disp: Word)
    requires JumpBytes(s, p, field, dyn, disp) && (field == 4 || field == 6)
    ensures Through(s, p, field, dyn, disp)
  {
    var t := s[p + 1..];
    assert t[0] == s[p + 1];
    assert Read32(t, 1) == Read32(s, p + 2);
  }

  /** push imm32, and a jump to the start of the table. */
  predicate Resolves(s: Code, p: nat, pushed: Word) {
    p + 16 <= |s| && s[p + 6] == 0x68 && Read32(s, p + 7) == pushed &&
    s[p + 11] == 0xe9 && (p + 16 + Read32(s, p + 12)) % W32 == 0
  }

  /** Entry k with the displacement of its jump. */
  predicate EntryIs(s: Code, k: nat, dyn: bool, disp: Word, pushed: Word) {
    JumpBytes(s, Start(k), 4, dyn, disp) && Resolves(s, Start(k), pushed)
  }

  /** PLT0: push the word at `first`, jump through `second`. */
  predicate FirstIs(s: Code, dyn: bool, first: Word, second: Word) {
    JumpBytes(s, 0, 6, dyn, first) && JumpBytes(s, 6, 4, dyn, second)
  }

  /** What create_plt_entry is told of an entry: its GOT offset and the size of the relocation section. */
  datatype Slot = Slot(off: Word, relofs: Word)

  function Pushed(e: Slot): Word {
    var r: int := e.relofs;
    (r - 8) % W32
  }

  /** -end as a 32-bit word. */
  function Back(end: int): Word { (0 - end) % W32 }

  ghost predicate Created(s: Code, dyn: bool, slots: seq<Slot>) {
    if slots == [] then s == [] else |s| == Start(|slots|) && FirstIs(s, dyn, 4, 8) && EntriesFrom(s, dyn, slots, 0)
  }

  /** The entries from n on still go through their bare offsets. */
  ghost predicate EntriesFrom(s: Code, dyn: bool, slots: seq<Slot>, n: nat) {
    forall k: nat :: n <= k < |slots| ==> EntryIs(s, k, dyn, slots[k].off, Pushed(slots[k]))
  }

  function Entry(dyn: bool, e: Slot, end: nat): Code {
    [0xff, JumpModRM(dyn)] + Bytes32(e.off) + [0x68] + Bytes32(Pushed(e)) + [0xe9] + Bytes32(Back(end))
  }

  function Header(dyn: bool): Code {
    [0xff, if dyn then 0xb3 else 0x35] + Bytes32(4) + [0xff, JumpModRM(dyn)] + Bytes32(8) + ZEROS
  }

  lemma HeaderBytes(h: Code, a: Byte, b: Byte, c: Byte, d: Byte)
    requires h == [a, b] + Bytes32(4) + [c, d] + Bytes32(8) + ZEROS
    ensures |h| == 16 && h[0] == a && h[1] == b && h[6] == c && h[7] == d && Read32(h, 2) == 4 && Read32(h, 8) == 8
  {
    assert h[2..6] == Bytes32(4) && h[8..12] == Bytes32(8);
    ReadBytes(h, 2, 4);
    ReadBytes(h, 8, 8);
  }

  lemma HeaderIs(dyn: bool)
    ensures |Header(dyn)| == 16 && FirstIs(Header(dyn), dyn, 4, 8)
  {
    HeaderBytes(Header(dyn), 0xff, if dyn then 0xb3 else 0x35, 0xff, JumpModRM(dyn));
  }

  lemma BackToStart(end: nat)
    ensures (end + Back(end)) % W32 == 0
  {
  }

  lemma EntryBytes(dyn: bool, e: Slot, end: nat, b: Code)
    requires b == Entry(dyn, e, end)
    ensures |b| == 16 && b[0] == 0xff && b[1] == JumpModRM(dyn) && b[6] == 0x68 && b[11] == 0xe9
    ensures b[2..6] == Bytes32(e.off) && b[7..11] == Bytes32(Pushed(e)) && b[12..16] == Bytes32(Back(end))
  {
  }

  lemma EntryAtEnd(s: Code, k: nat, dyn: bool, e: Slot, b: Code, p: nat)
    requires |s| == p == Start(k) && b == Entry(dyn, e, p + 16)
    ensures EntryIs(s + b, k, dyn, e.off, Pushed(e))
  {
    EntryBytes(dyn, e, p + 16, b);
    ReadLast(s, b, p + 2, e.off);
    ReadLast(s, b, p + 7, Pushed(e));
    ReadLast(s, b, p + 12, Back(p + 16));
    BackToStart(p + 16);
  }

  lemma EntryStays(s: Code, b: Code, k: nat, dyn: bool, disp: Word, pushed: Word)
    requires EntryIs(s, k, dyn, disp, pushed)
    ensures EntryIs(s + b, k, dyn, disp, pushed)
  {
    var p := Start(k);
    ReadAppended(s, b, p + 2);
    ReadAppended(s, b, p + 7);
    ReadAppended(s, b, p + 12);
  }

  lemma CreatedNext(s: Code, dyn: bool, slots: seq<Slot>, e: Slot, b: Code)
    requires if slots == [] then |s| == 16 && FirstIs(s, dyn, 4, 8) else Created(s, dyn, slots)
    requires b == Entry(dyn, e, |s| + 16)
    ensures Created(s + b, dyn, slots + [e])
  {
    var t, n := s + b, |slots|;
    ReadAppended(s, b, 2);
    ReadAppended(s, b, 8);
    var all := slots + [e];
    forall k: nat | k < |all| ensures EntryIs(t, k, dyn, all[k].off, Pushed(all[k])) {
      if k < n {
        EntryStays(s, b, k, dyn, slots[k].off, Pushed(slots[k]));
      } else {
        EntryAtEnd(s, n, dyn, e, b, |s|);
      }
    }
  }

  /** create_plt_entry. */
  method CreatePltEntry(plt: Text<Byte>, dyn: bool, gotOffset: Word, relofs: Word,
        ghost slots: seq<Slot>) returns (pltOffset: nat)
    requires Created(plt.data, dyn, slots)
    modifies plt
    ensures Created(plt.data, dyn, slots + [Slot(gotOffset, relofs)]) && pltOffset == Start(|slots|)
  {
    if |plt.data| == 0 {
      plt.EmitAll(Header(dyn));
      HeaderIs(dyn);
      assert plt.data == Header(dyn);
    }
    pltOffset := |plt.data|;
    var e := Slot(gotOffset, relofs);
    CreatedNext(plt.data, dyn, slots, e, Entry(dyn, e, pltOffset + 16));
    plt.EmitAll(Entry(dyn, e, pltOffset + 16));
  }

  // ---- Relocation ----

  /** add32le. */
  method Add32(text: Text<Byte>, p: nat, v: Word)
    requires p + 4 <= |text.data|
    modifies text
    ensures OutsideSame(old(text.data), text.data, p, p + 4)
    ensures Read32(text.data, p) == (Read32(old(text.data), p) + v) % W32
  {
    Put(text, p, (Read32(text.data, p) + v) % W32);
  }

  /** The first n entries go through their offsets from `got`. */
  ghost predicate EntriesUpTo(s: Code, slots: seq<Slot>, n: nat, got: Word) {
    n <= |slots| && forall k: nat :: k < n ==> EntryIs(s, k, false, (slots[k].off + got) % W32, Pushed(slots[k]))
  }

  ghost predicate Filled(s: Code, slots: seq<Slot>, n: nat, got: Word) {
    |s| == Start(|slots|) && FirstIs(s, false, (4 + got) % W32, (8 + got) % W32) && EntriesUpTo(s, slots, n, got) &&
    EntriesFrom(s, false, slots, n)
  }

  lemma EntryKept(s: Code, s': Code, lo: int, hi: int, k: nat, dyn: bool, disp: Word, pushed: Word)
    requires EntryIs(s, k, dyn, disp, pushed) && OutsideSame(s, s', lo, hi) && (Start(k) + 16 <= lo || hi <= Start(k))
    ensures EntryIs(s', k, dyn, disp, pushed)
  {
    SameWord(s, s', lo, hi, Start(k) + 2);
    SameWord(s, s', lo, hi, Start(k) + 7);
    SameWord(s, s', lo, hi, Start(k) + 12);
  }

  lemma EntryMoved(s: Code, s': Code, k: nat, disp: Word, pushed: Word, disp': Word)
    requires EntryIs(s, k, false, disp, pushed) && OutsideSame(s, s', Start(k) + 2, Start(k) + 6)
    requires Read32(s', Start(k) + 2) == disp'
    ensures EntryIs(s', k, false, disp', pushed)
  {
    SameWord(s, s', Start(k) + 2, Start(k) + 6, Start(k) + 7);
    SameWord(s, s', Start(k) + 2, Start(k) + 6, Start(k) + 12);
  }

  lemma FilledNext(s: Code, s': Code, slots: seq<Slot>, n: nat, got: Word, p: nat)
    requires Filled(s, slots, n, got) && n < |slots| && p == Start(n) && OutsideSame(s, s', p + 2, p + 6)
    requires Read32(s', p + 2) == (Read32(s, p + 2) + got) % W32
    ensures Filled(s', slots, n + 1, got)
  {
    SameWord(s, s', p + 2, p + 6, 2);
    SameWord(s, s', p + 2, p + 6, 8);
    EntryMoved(s, s', n, slots[n].off, Pushed(slots[n]), (slots[n].off + got) % W32);
    forall k: nat | k < n ensures EntryIs(s', k, false, (slots[k].off + got) % W32, Pushed(slots[k])) {
      EntryKept(s, s', p + 2, p + 6, k, false, (slots[k].off + got) % W32, Pushed(slots[k]));
    }
    forall k: nat | n + 1 <= k < |slots| ensures EntryIs(s', k, false, slots[k].off, Pushed(slots[k])) {
      EntryKept(s, s', p + 2, p + 6, k, false, slots[k].off, Pushed(slots[k]));
    }
  }

  /** Relocation of the table of a non-dynamic output. */
  method RelocateTable(plt: Text<Byte>, got: Word, ghost slots: seq<Slot>)
    requires Created(plt.data, false, slots)
    modifies plt
    ensures slots != [] ==> Filled(plt.data, slots, |slots|, got)
    ensures slots == [] ==> plt.data == []
  {
    var end := |plt.data|;
    if 0 < end {
      ghost var s0 := plt.data;
      Add32(plt, 2, got);
      ghost var s1 := plt.data;
      Add32(plt, 8, got);
      FirstMoved(s0, s1, plt.data, slots, got);
      ghost var n := 0;
      var p := 16;
      while p < end
        invariant p == Start(n) && |plt.data| == end && Filled(plt.data, slots, n, got)
        decreases end - p
      {
        ghost var before := plt.data;
        Add32(plt, p + 2, got);
        FilledNext(before, plt.data, slots, n, got, p);
        p := p + 16;
        n := n + 1;
      }
    }
  }

  lemma FirstMoved(s0: Code, s1: Code, s2: Code, slots: seq<Slot>, got: Word)
    requires Created(s0, false, slots) && slots != [] && OutsideSame(s0, s1, 2, 6) && OutsideSame(s1, s2, 8, 12)
    requires Read32(s1, 2) == (Read32(s0, 2) + got) % W32 && Read32(s2, 8) == (Read32(s1, 8) + got) % W32
    ensures Filled(s2, slots, 0, got)
  {
    SameWord(s0, s1, 2, 6, 8);
    SameWord(s1, s2, 8, 12, 2);
    forall k: nat | k < |slots| ensures EntryIs(s2, k, false, slots[k].off, Pushed(slots[k])) {
      EntryKept(s0, s1, 2, 6, k, false, slots[k].off, Pushed(slots[k]));
      EntryKept(s1, s2, 8, 12, k, false, slots[k].off, Pushed(slots[k]));
    }
  }

  /** Every GOT word in `rels` is set to where the corresponding entry pushes. */
  ghost predicate PointsAtPush(got: Code, rels: seq<nat>, n: nat, plt: Word) {
    n <= |rels| && forall k: nat :: k < n ==> rels[k] + 4 <= |got| && Read32(got, rels[k]) == (plt + Start(k) + 6) % W32
  }

  lemma PointsNext(s: Code, s': Code, rels: seq<nat>, n: nat, plt: Word)
    requires SlotsApart(rels, 4, |s|) && n < |rels| && PointsAtPush(s, rels, n, plt)
    requires OutsideSame(s, s', rels[n], rels[n] + 4) && Read32(s', rels[n]) == (plt + Start(n) + 6) % W32
    ensures PointsAtPush(s', rels, n + 1, plt)
  {
    forall j: nat | j < n ensures Read32(s', rels[j]) == Read32(s, rels[j]) {
      SameWord(s, s', rels[n], rels[n] + 4, rels[j]);
    }
  }

  /** What the loop has done after n rounds; `x` is the address for the next. */
  ghost predicate Pointed(s0: Code, s: Code, rels: seq<nat>, n: nat, plt: Word, x: Word) {
    PointsAtPush(s, rels, n, plt) && OutsideSlotsSame(s0, s, rels, n, 4) && x == (plt + Start(n) + 6) % W32
  }

  lemma PointedNext(s0: Code, s: Code, s': Code, rels: seq<nat>, n: nat, plt: Word, x: Word)
    requires SlotsApart(rels, 4, |s0|) && n < |rels| && Pointed(s0, s, rels, n, plt, x)
    requires OutsideSame(s, s', rels[n], rels[n] + 4) && Read32(s', rels[n]) == x
    ensures Pointed(s0, s', rels, n + 1, plt, (x + 16) % W32)
  {
    PointsNext(s, s', rels, n, plt);
    OutsideSlotsNext(s0, s, s', rels, n, 4);
    NextPush(plt, n, x);
  }

  /** The loop over the relocations of the table, given by the GOT offsets they are for. */
  method RelocateGot(got: Text<Byte>, rels: seq<nat>, plt: Word)
    requires SlotsApart(rels, 4, |got.data|)
    modifies got
    ensures PointsAtPush(got.data, rels, |rels|, plt) && OutsideSlotsSame(old(got.data), got.data, rels, |rels|, 4)
  {
    var x := (plt + 16 + 6) % W32;
    var k: nat := 0;
    while k < |rels|
      invariant k <= |rels| && 0 <= x < W32 && Pointed(old(got.data), got.data, rels, k, plt, x)
    {
      ghost var before := got.data;
      Put(got, rels[k], x);
      PointedNext(old(got.data), before, got.data, rels, k, plt, x);
      x := (x + 16) % W32;
      k := k + 1;
    }
  }

  lemma NextPush(plt: Word, k: nat, x: Word)
    requires x == (plt + Start(k) + 6) % W32
    ensures (x + 16) % W32 == (plt + Start(k + 1) + 6) % W32
  {
    var y := plt + Start(k) + 6;
    assert (y % W32 + 16) % W32 == (y + 16) % W32;
  }

  /** What a program sees: entry k first jumps through its GOT word; that word initially leads to the entry's push,
      after which a jump reaches PLT0, which pushes the second GOT word and jumps through the third. */
  lemma LazyBinding(s: Code, gotData: Code, slots: seq<Slot>, got: Word, plt: Word, k: nat)
    requires Filled(s, slots, |slots|, got) && k < |slots|
    requires PointsAtPush(gotData, seq(|slots|, i requires 0 <= i < |slots| => slots[i].off as nat), |slots|, plt)
    ensures Through(s, Start(k), 4, false, (slots[k].off + got) % W32)
    ensures Read32(gotData, slots[k].off) == (plt + Start(k) + 6) % W32 && s[Start(k) + 6] == 0x68
    ensures s[Start(k) + 11] == 0xe9 && (plt + Start(k) + 16 + Read32(s, Start(k) + 12)) % W32 == plt
    ensures Through(s, 0, 6, false, (4 + got) % W32) && Through(s, 6, 4, false, (8 + got) % W32)
  {
    BytesThrough(s, Start(k), 4, false, (slots[k].off + got) % W32);
    BytesThrough(s, 0, 6, false, (4 + got) % W32);
    BytesThrough(s, 6, 4, false, (8 + got) % W32);
    Around(plt, Start(k) + 16 + Read32(s, Start(k) + 12));
  }

  lemma Around(plt: Word, y: nat)
    requires y % W32 == 0
    ensures (plt + y) % W32 == plt
  {
  }

  /** In a dynamic output nothing needs relocating: the jumps are relative to ebx, which holds the GOT's address. */
  lemma DynamicEntry(s: Code, slots: seq<Slot>, k: nat)
    requires Created(s, true, slots) && k < |slots|
    ensures Through(s, Start(k), 4, true, slots[k].off) && Resolves(s, Start(k), Pushed(slots[k]))
  {
    BytesThrough(s, Start(k), 4, true, slots[k].off);
  }
}
