/** Words written at a place in a section, and what stays the same around them. */
module Patch {
  import opened CodeBytes
  import opened Text

  const ZEROS: Code := [0, 0, 0, 0]

  lemma ReadAppended(s: Code, b: Code, p: nat)
    requires p + 4 <= |s|
    ensures Read32(s + b, p) == Read32(s, p)
  {
  }

  lemma ReadLast(s: Code, b: Code, p: nat, w: Word)
    requires |s| <= p && p + 4 <= |s| + |b| && b[p - |s|..p - |s| + 4] == Bytes32(w)
    ensures Read32(s + b, p) == w
  {
    assert (s + b)[p..p + 4] == b[p - |s|..p - |s| + 4];
    ReadBytes(s + b, p, w);
  }

  /** Only the bytes from lo up to hi may differ. */
  ghost predicate OutsideSame(s: Code, s': Code, lo: int, hi: int) {
    |s| == |s'| && forall i :: 0 <= i < |s| && (i < lo || hi <= i) ==> s[i] == s'[i]
  }

  lemma SameWord(s: Code, s': Code, lo: int, hi: int, p: nat)
    requires OutsideSame(s, s', lo, hi) && p + 4 <= |s| && (p + 4 <= lo || hi <= p)
    ensures Read32(s', p) == Read32(s, p)
  {
  }

  /** o, gen_le32: four bytes, least significant first. */
  method EmitWord(text: Text<Byte>, w: Word)
    modifies text
    ensures text.data == old(text.data) + Bytes32(w)
  {
    text.Emit(w % 0x100);
    text.Emit(w / 0x100 % 0x100);
    text.Emit(w / 0x1_0000 % 0x100);
    text.Emit(w / 0x100_0000);
  }

  method Put(text: Text<Byte>, p: nat, w: Word)
    requires p + 4 <= |text.data|
    modifies text
    ensures OutsideSame(old(text.data), text.data, p, p + 4) && Read32(text.data, p) == w
  {
    ReadWritten(text.data, p, w);
    text.data := Write32(text.data, p, w);
  }

  method PutWords(text: Text<Byte>, p: nat, w0: Word, w1: Word, w2: Word, w3: Word)
    requires p + 16 <= |text.data|
    modifies text
    ensures OutsideSame(old(text.data), text.data, p, p + 16)
    ensures Read32(text.data, p) == w0 && Read32(text.data, p + 4) == w1 && Read32(text.data, p + 8) == w2 &&
            Read32(text.data, p + 12) == w3
  {
    Put(text, p, w0);
    ghost var s1 := text.data;
    Put(text, p + 4, w1);
    ghost var s2 := text.data;
    Put(text, p + 8, w2);
    ghost var s3 := text.data;
    Put(text, p + 12, w3);
    SameWord(s1, s2, p + 4, p + 8, p);
    SameWord(s2, s3, p + 8, p + 12, p);
    SameWord(s3, text.data, p + 12, p + 16, p);
    SameWord(s2, s3, p + 8, p + 12, p + 4);
    SameWord(s3, text.data, p + 12, p + 16, p + 4);
    SameWord(s3, text.data, p + 12, p + 16, p + 8);
  }

  // ---- Separate slots of one width, as the words of a GOT ----

  predicate SlotsApart(at: seq<nat>, width: nat, size: nat) {
    (forall k: nat :: k < |at| ==> at[k] + width <= size) &&
    forall i: nat, j: nat :: i < j < |at| ==> at[i] + width <= at[j] || at[j] + width <= at[i]
  }

  ghost predicate ClearOf(i: int, at: seq<nat>, n: nat, width: nat)
    requires n <= |at|
  {
    forall k: nat :: k < n ==> i < at[k] || at[k] + width <= i
  }

  /** Only the first n slots may differ. */
  ghost predicate OutsideSlotsSame(s: Code, s': Code, at: seq<nat>, n: nat, width: nat)
    requires n <= |at|
  {
    |s| == |s'| && forall i :: 0 <= i < |s| && ClearOf(i, at, n, width) ==> s[i] == s'[i]
  }

  lemma OutsideSlotsNext(s0: Code, s: Code, s': Code, at: seq<nat>, n: nat, width: nat)
    requires n < |at| && OutsideSlotsSame(s0, s, at, n, width) && OutsideSame(s, s', at[n], at[n] + width)
    ensures OutsideSlotsSame(s0, s', at, n + 1, width)
  {
    forall i | 0 <= i < |s0| && ClearOf(i, at, n + 1, width) ensures s0[i] == s'[i] {
      assert ClearOf(i, at, n, width);
    }
  }
}
