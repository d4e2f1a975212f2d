/** Section contents as bytes, with the little-endian word accesses of the back ends. */
module CodeBytes {
  type Byte = x: int | 0 <= x < 0x100
  type Word = x: int | 0 <= x < 0x1_0000_0000
  type Code = seq<Byte>

  function Read32(s: Code, p: nat): Word
    requires p + 4 <= |s|
  {
    var a: int, b: int, c: int, d: int := s[p], s[p + 1], s[p + 2], s[p + 3];
    a + b * 0x100 + c * 0x1_0000 + d * 0x100_0000
  }

  function Bytes32(w: Word): (b: Code)
    ensures |b| == 4
  {
    [w % 0x100, w / 0x100 % 0x100, w / 0x1_0000 % 0x100, w / 0x100_0000]
  }

  function Write32(s: Code, p: nat, w: Word): (r: Code)
    requires p + 4 <= |s|
    ensures |r| == |s|
  {
    s[..p] + Bytes32(w) + s[p + 4..]
  }

  /** A 24-bit branch field as a signed number of words. */
  function Signed24(x: int): int { if x >= 0x80_0000 then x - 0x100_0000 else x }

  lemma FourBytes(w: int, a: int, b: int, c: int)
    requires a == w / 0x100 && b == a / 0x100 && c == b / 0x100
    ensures b == w / 0x1_0000 && c == w / 0x100_0000
    ensures w % 0x100 + a % 0x100 * 0x100 + b % 0x100 * 0x1_0000 + c * 0x100_0000 == w
  {
  }

  lemma ReadBytes(s: Code, p: nat, w: Word)
    requires p + 4 <= |s| && s[p..p + 4] == Bytes32(w)
    ensures Read32(s, p) == w
  {
    var b := s[p..p + 4];
    assert s[p] == b[0] && s[p + 1] == b[1] && s[p + 2] == b[2] && s[p + 3] == b[3];
    var x: int := w;
    FourBytes(x, x / 0x100, x / 0x100 / 0x100, x / 0x100 / 0x100 / 0x100);
  }

  lemma ReadWritten(s: Code, p: nat, w: Word)
    requires p + 4 <= |s|
    ensures Read32(Write32(s, p, w), p) == w
    ensures forall i | 0 <= i < |s| && (i < p || p + 4 <= i) :: Write32(s, p, w)[i] == s[i]
  {
    assert Write32(s, p, w)[p..p + 4] == Bytes32(w);
    ReadBytes(Write32(s, p, w), p, w);
  }

  /** The bytes from `lo` up to `hi` are the same. */
  ghost predicate Agree(s: Code, s': Code, lo: int, hi: int) {
    0 <= lo <= hi <= |s| && hi <= |s'| && forall i | lo <= i < hi :: s[i] == s'[i]
  }
}
