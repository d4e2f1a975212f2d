/** Homogeneous floating-point aggregates of the A64 procedure call standard. */
module Hfa {

  /** A C type as far as arm64_hfa_aux looks at it. `viaPointer` says that the array's basic type is VT_PTR. */
  datatype Ctype =
    | Floating(size: nat)
    | Other(size: nat)
    | Aggregate(size: nat, fields: seq<Field>)
    | Array(elem: Ctype, count: nat, viaPointer: bool)

  datatype Field = Field(offset: nat, ty: Ctype)

  // ---- Layout ----

  /** The end of k consecutive items of fs bytes: the product, written as the sum it stands for. */
  function Grid(k: nat, fs: nat): nat {
    if k == 0 then 0 else Grid(k - 1, fs) + fs
  }

  lemma {:induction false} GridIsProduct(k: nat, fs: nat)
    ensures Grid(k, fs) == k * fs
  {
    if k > 0 {
      GridIsProduct(k - 1, fs);
      assert k * fs == (k - 1) * fs + fs;
    }
  }

  lemma {:induction false} GridAdd(k: nat, j: nat, fs: nat)
    ensures Grid(k + j, fs) == Grid(k, fs) + Grid(j, fs)
    decreases j
  {
    if j > 0 { GridAdd(k, j - 1, fs); }
  }

  lemma GridOrder(a: nat, b: nat, g: nat)
    requires g > 0
    ensures a < b <==> Grid(a, g) < Grid(b, g)
    ensures a < b ==> Grid(a, g) + g <= Grid(b, g)
  {
    if a < b {
      GridAdd(a + 1, b - a - 1, g);
    } else {
      GridAdd(b, a - b, g);
    }
  }

  function Size(t: Ctype): nat {
    match t
    case Floating(size) => size
    case Other(size) => size
    case Aggregate(size, _) => size
    case Array(elem, count, _) => Grid(count, Size(elem))
  }

  /** A scalar of `size` bytes at `offset`. */
  datatype Leaf = Leaf(offset: int, size: nat, floating: bool)

  function Shift(s: set<Leaf>, d: int): set<Leaf> {
    set l | l in s :: Leaf(l.offset + d, l.size, l.floating)
  }

  /** A member of an aggregate, or an element of an array, with the scalars in it. */
  datatype Part = Part(offset: nat, size: nat, leaves: set<Leaf>)

  function Union(parts: seq<Part>): set<Leaf>
    decreases |parts|
  {
    if parts == [] then {}
    else
      var last := parts[|parts| - 1];
      Union(parts[..|parts| - 1]) + Shift(last.leaves, last.offset)
  }

  /** The scalars a type consists of, overlaid ones counted once. */
  function Leaves(t: Ctype): set<Leaf>
    decreases t, 1, 0
  {
    match t
    case Floating(size) => {Leaf(0, size, true)}
    case Other(size) => {Leaf(0, size, false)}
    case Aggregate(_, fields) => Union(FieldParts(t, |fields|))
    case Array(elem, count, _) => Union(ElementParts(count, Size(elem), Leaves(elem)))
  }

  function FieldParts(t: Ctype, n: nat): (parts: seq<Part>)
    requires t.Aggregate? && n <= |t.fields|
    ensures |parts| == n
    decreases t, 0, n
  {
    if n == 0 then []
    else
      var f := t.fields[n - 1];
      FieldParts(t, n - 1) + [Part(f.offset, Size(f.ty), Leaves(f.ty))]
  }

  function ElementParts(n: nat, size: nat, leaves: set<Leaf>): seq<Part> {
    if n == 0 then [] else ElementParts(n - 1, size, leaves) + [Part(Grid(n - 1, size), size, leaves)]
  }

  lemma UnionLast(front: seq<Part>, p: Part)
    ensures Union(front + [p]) == Union(front) + Shift(p.leaves, p.offset)
  {
    assert (front + [p])[..|front|] == front;
  }

  // ---- Rows of floats ----

  /** k floats of fs bytes side by side. */
  function Row(fs: nat, k: nat): set<Leaf> {
    if k == 0 then {} else Row(fs, k - 1) + {Leaf(Grid(k - 1, fs), fs, true)}
  }

  lemma {:induction false} RowInside(fs: nat, k: nat, l: Leaf)
    requires l in Row(fs, k)
    ensures 0 <= l.offset && l.offset + fs <= Grid(k, fs) && l.size == fs && l.floating
    decreases k
  {
    if l in Row(fs, k - 1) { RowInside(fs, k - 1, l); }
  }

  lemma {:induction false} RowAt(fs: nat, k: nat, j: nat)
    requires j < k
    ensures Leaf(Grid(j, fs), fs, true) in Row(fs, k)
    decreases k
  {
    if j < k - 1 { RowAt(fs, k - 1, j); }
  }

  lemma {:induction false} RowCount(fs: nat, k: nat)
    requires fs > 0
    ensures |Row(fs, k)| == k
    decreases k
  {
    if k > 0 {
      RowCount(fs, k - 1);
      var last := Leaf(Grid(k - 1, fs), fs, true);
      if last in Row(fs, k - 1) { RowInside(fs, k - 1, last); }
    }
  }

  lemma {:induction false} RowAdd(fs: nat, k: nat, m: nat)
    ensures Row(fs, k + m) == Row(fs, k) + Shift(Row(fs, m), Grid(k, fs))
    decreases m
  {
    var d := Grid(k, fs);
    if m == 0 {
      ShiftEmpty(d);
    } else {
      var n := m - 1;
      RowAdd(fs, k, n);
      RowAddStep(fs, k, n, d);
    }
  }

  lemma RowAddStep(fs: nat, k: nat, n: nat, d: nat)
    requires d == Grid(k, fs) && Row(fs, k + n) == Row(fs, k) + Shift(Row(fs, n), d)
    ensures Row(fs, k + n + 1) == Row(fs, k) + Shift(Row(fs, n + 1), d)
  {
    GridAdd(k, n, fs);
    RowLast(fs, k + n);
    RowLast(fs, n);
    RowNext(Row(fs, k), Row(fs, n), Leaf(Grid(n, fs), fs, true), d);
  }

  lemma RowLast(fs: nat, n: nat)
    ensures Row(fs, n + 1) == Row(fs, n) + {Leaf(Grid(n, fs), fs, true)}
  {
  }

  lemma ShiftEmpty(d: int)
    ensures Shift({}, d) == {}
  {
  }

  lemma RowNext(a: set<Leaf>, b: set<Leaf>, l: Leaf, d: int)
    ensures a + Shift(b + {l}, d) == a + Shift(b, d) + {Leaf(l.offset + d, l.size, l.floating)}
  {
    ShiftUnion(b, {l}, d);
  }

  lemma ShiftUnion(a: set<Leaf>, b: set<Leaf>, d: int)
    ensures Shift(a + b, d) == Shift(a, d) + Shift(b, d)
  {
    forall l | l in a + b ensures Leaf(l.offset + d, l.size, l.floating) in Shift(a, d) + Shift(b, d) { }
    forall l | l in a ensures Leaf(l.offset + d, l.size, l.floating) in Shift(a + b, d) { assert l in a + b; }
    forall l | l in b ensures Leaf(l.offset + d, l.size, l.floating) in Shift(a + b, d) { assert l in a + b; }
  }

  lemma ShiftNone(a: set<Leaf>)
    ensures Shift(a, 0) == a
  {
    forall l | l in a ensures l in Shift(a, 0) { assert Leaf(l.offset + 0, l.size, l.floating) == l; }
  }

  lemma {:induction false} RowMax(fs: nat, k: nat, m: nat)
    requires m <= k
    ensures Row(fs, k) + Row(fs, m) == Row(fs, k) && Row(fs, m) + Row(fs, k) == Row(fs, k)
    decreases k
  {
    if m < k { RowMax(fs, k - 1, m); }
  }

  lemma RowsUnion(fs: nat, k: nat, m: nat, r: nat)
    requires r == if m < k then k else m
    ensures Row(fs, k) + Row(fs, m) == Row(fs, r)
  {
    if m < k { RowMax(fs, k, m); } else { RowMax(fs, m, k); }
  }

  // ---- Parts that make up a row ----

  predicate NoLeaf(p: Part) { p.leaves == {} && p.size == 0 }

  predicate PartTiles(p: Part, g: nat) { p.leaves == Row(g, |p.leaves|) && p.size == Grid(|p.leaves|, g) }

  ghost predicate AllTile(parts: seq<Part>, g: nat) {
    forall i :: 0 <= i < |parts| ==> PartTiles(parts[i], g)
  }

  /** Parts holding num1 - num floats of fs1 bytes; fs the size known before, if not 0. */
  ghost predicate Held(parts: seq<Part>, fs: nat, num: nat, fs1: nat, num1: nat) {
    num <= num1 && (num1 == num ==> fs1 == fs && Union(parts) == {}) &&
    (num1 > num ==> fs1 > 0 && Union(parts) == Row(fs1, num1 - num) && (fs != 0 ==> fs1 == fs))
  }

  /** A part with m floats found when the size known was fs. */
  ghost predicate Found(p: Part, fs: nat, m: nat, fs1: nat) {
    if m == 0 then NoLeaf(p) && fs1 == fs
    else fs1 > 0 && PartTiles(p, fs1) && |p.leaves| == m && (fs != 0 ==> fs1 == fs)
  }

  /** A further part, given what it adds. */
  lemma HeldMore(parts: seq<Part>, p: Part, fs: nat, num: nat, fs1: nat, num0: nat, num1: nat)
    requires Held(parts, fs, num, fs1, num0) && num < num0 <= num1
    requires Row(fs1, num0 - num) + Shift(p.leaves, p.offset) == Row(fs1, num1 - num)
    ensures Held(parts + [p], fs, num, fs1, num1)
  {
    UnionLast(parts, p);
  }

  lemma HeldSame(parts: seq<Part>, p: Part, fs: nat, num: nat, fs1: nat, num1: nat)
    requires Held(parts, fs, num, fs1, num1) && p.leaves == {}
    ensures Held(parts + [p], fs, num, fs1, num1)
  {
    UnionLast(parts, p);
    ShiftEmpty(p.offset);
  }

  lemma HeldFirst(parts: seq<Part>, p: Part, fs: nat, num: nat, fs1: nat, num1: nat)
    requires Held(parts, fs, num, fs, num) && num < num1 && Found(p, fs, num1 - num, fs1) && p.offset == 0
    ensures Held(parts + [p], fs, num, fs1, num1)
  {
    UnionLast(parts, p);
    ShiftNone(p.leaves);
    FoundRow(p, fs, num1 - num, fs1);
  }

  lemma FoundRow(p: Part, fs: nat, m: nat, fs1: nat)
    requires Found(p, fs, m, fs1) && m > 0
    ensures p.leaves == Row(fs1, m) && fs1 > 0 && (fs != 0 ==> fs1 == fs)
  {
  }

  lemma RowOver(a: set<Leaf>, offset: nat, fs: nat, k: nat, m: nat, r: nat)
    requires a == Row(fs, m) && offset == 0 && r == if m < k then k else m
    ensures Row(fs, k) + Shift(a, offset) == Row(fs, r)
  {
    ShiftNone(a);
    RowsUnion(fs, k, m, r);
  }

  lemma HeldOver(parts: seq<Part>, p: Part, fs: nat, num: nat, fs1: nat, num0: nat, num1: nat, k: nat, m: nat, r: nat)
    requires Held(parts, fs, num, fs1, num0) && p.leaves == Row(fs1, m) && p.offset == 0
    requires num0 == num + k && num1 == num + r && k > 0 && r == if m < k then k else m
    ensures Held(parts + [p], fs, num, fs1, num1)
  {
    RowOver(p.leaves, p.offset, fs1, num0 - num, m, num1 - num);
    HeldMore(parts, p, fs, num, fs1, num0, num1);
  }

  lemma AfterFloats(parts: seq<Part>, p: Part, fs: nat, num: nat, fs0: nat, num0: nat, fs1: nat, num1: nat)
    requires Held(parts, fs, num, fs0, num0) && num0 <= num1 && Found(p, fs0, num1 - num0, fs1)
    requires p.offset == Grid(num0 - num, fs0)
    ensures Held(parts + [p], fs, num, fs1, num1)
  {
    if num1 == num0 {
      HeldSame(parts, p, fs, num, fs0, num0);
    } else if num0 == num {
      HeldFirst(parts, p, fs, num, fs1, num1);
    } else {
      RowAdd(fs1, num0 - num, num1 - num0);
      HeldMore(parts, p, fs, num, fs1, num0, num1);
    }
  }

  lemma OverFloats(parts: seq<Part>, p: Part, fs: nat, num: nat, fs0: nat, num0: nat, fs1: nat, num1: nat)
    requires Held(parts, fs, num, fs0, num0) && num <= num1 && Found(p, fs0, num1 - num, fs1)
    requires p.offset == 0
    ensures Held(parts + [p], fs, num, fs1, if num1 < num0 then num0 else num1)
  {
    if num1 == num {
      HeldSame(parts, p, fs, num, fs0, num0);
    } else if num0 == num {
      HeldFirst(parts, p, fs, num, fs1, num1);
    } else {
      var m := num1 - num;
      FoundRow(p, fs0, m, fs1);
      var r := if num1 < num0 then num0 else num1;
      HeldOver(parts, p, fs, num, fs1, num0, r, num0 - num, m, r - num);
    }
  }

  // ---- No part of a row is out of place ----

  lemma ShiftedInside(p: Part, g: nat, l: Leaf)
    requires PartTiles(p, g) && l in Shift(p.leaves, p.offset)
    ensures p.offset <= l.offset && l.offset + g <= p.offset + p.size
  {
    var inner :| inner in p.leaves && Leaf(inner.offset + p.offset, inner.size, inner.floating) == l;
    RowInside(g, |p.leaves|, inner);
  }

  /** The part that a leaf comes from. */
  lemma {:induction false} PartOf(parts: seq<Part>, g: nat, l: Leaf) returns (j: nat)
    requires AllTile(parts, g) && l in Union(parts)
    ensures j < |parts| && l in Union(parts[..j + 1])
    ensures parts[j].offset <= l.offset && l.offset + g <= parts[j].offset + parts[j].size
    decreases |parts|
  {
    j := |parts| - 1;
    var front := parts[..j];
    assert parts[..j + 1] == parts;
    if l in Union(front) {
      j := PartOf(front, g, l);
      assert front[..j + 1] == parts[..j + 1];
    } else {
      ShiftedInside(parts[j], g, l);
    }
  }

  lemma {:induction false} UnionGrows(parts: seq<Part>, j: nat)
    requires j <= |parts|
    ensures Union(parts[..j]) <= Union(parts)
    decreases |parts|
  {
    if j < |parts| {
      var front := parts[..|parts| - 1];
      assert front[..j] == parts[..j];
      UnionGrows(front, j);
    } else {
      assert parts[..j] == parts;
    }
  }

  lemma UnionBetween(parts: seq<Part>, j: nat, n: nat)
    requires j <= n <= |parts|
    ensures Union(parts[..j]) <= Union(parts[..n])
  {
    var front := parts[..n];
    assert front[..j] == parts[..j];
    UnionGrows(front, j);
  }

  /** Each part ends before every later one starts. */
  ghost predicate InOrder(parts: seq<Part>) {
    forall i, j :: 0 <= i < j < |parts| ==> parts[i].offset + parts[i].size <= parts[j].offset
  }

  lemma NoOverlap(parts: seq<Part>, n: nat, g: nat, k: nat)
    requires n < |parts| && InOrder(parts) && AllTile(parts, g) && Union(parts[..n]) == Row(g, k)
    ensures parts[n].offset >= Grid(k, g)
  {
    if k > 0 {
      RowAt(g, k, k - 1);
      var j := PartOf(parts[..n], g, Leaf(Grid(k - 1, g), g, true));
    }
  }

  lemma NotYet(parts: seq<Part>, n: nat, g: nat, l: Leaf)
    requires n < |parts| && InOrder(parts) && AllTile(parts, g) && l in Union(parts) && l.offset < parts[n].offset
    ensures l in Union(parts[..n])
  {
    var j := PartOf(parts, g, l);
    assert j < n;
    UnionBetween(parts, j + 1, n);
  }

  /** In a row without padding the next part starts where the floats so far end. */
  lemma NoGap(parts: seq<Part>, n: nat, g: nat, k: nat, total: nat)
    requires n < |parts| && InOrder(parts) && AllTile(parts, g) && g > 0
    requires Union(parts[..n]) == Row(g, k) && Union(parts) == Row(g, total) && parts[n].offset <= Grid(total, g)
    ensures parts[n].offset == Grid(k, g)
  {
    NoOverlap(parts, n, g, k);
    if Grid(k, g) < parts[n].offset {
      var l := Leaf(Grid(k, g), g, true);
      GridOrder(k, total, g);
      RowAt(g, total, k);
      NotYet(parts, n, g, l);
      RowInside(g, k, l);
    }
  }

  /** So far everything is as if the expected size had been known from the start. */
  lemma SameSize(parts: seq<Part>, n: nat, fs: nat, num: nat, fs1: nat, num1: nat, g: nat, total: nat)
    requires n <= |parts| && Held(parts[..n], fs, num, fs1, num1) && Union(parts) == Row(g, total) &&
             (fs == 0 || fs == g)
    ensures Union(parts[..n]) == Row(g, num1 - num) && Grid(num1 - num, fs1) == Grid(num1 - num, g)
    ensures fs1 == 0 || fs1 == g
  {
    if num1 > num {
      RowAt(fs1, num1 - num, 0);
      UnionGrows(parts, n);
      RowInside(g, total, Leaf(0, fs1, true));
    }
  }

  lemma Room(offset: nat, m: nat, at: nat, total: nat, g: nat)
    requires g > 0 && offset == Grid(at, g) && offset + Grid(m, g) <= Grid(total, g)
    ensures at + m <= total
  {
    GridAdd(at, m, g);
    GridOrder(total, at + m, g);
  }

  /** What remains for the next part of a whole that tiles with `total` floats. */
  lemma NextInStruct(parts: seq<Part>, n: nat, fs: nat, num: nat, fs1: nat, num1: nat, g: nat, total: nat)
    requires n < |parts| && Held(parts[..n], fs, num, fs1, num1) && Union(parts) == Row(g, total) &&
             (fs == 0 || fs == g)
    requires InOrder(parts) && AllTile(parts, g) && g > 0 && parts[n].offset + parts[n].size <= Grid(total, g)
    ensures parts[n].offset == Grid(num1 - num, fs1) && (fs1 == 0 || fs1 == g)
    ensures num1 - num + |parts[n].leaves| <= total
  {
    var k := num1 - num;
    SameSize(parts, n, fs, num, fs1, num1, g, total);
    NextAt(parts, n, g, k, total);
  }

  lemma NextAt(parts: seq<Part>, n: nat, g: nat, k: nat, total: nat)
    requires n < |parts| && Union(parts[..n]) == Row(g, k) && Union(parts) == Row(g, total)
    requires InOrder(parts) && AllTile(parts, g) && g > 0 && parts[n].offset + parts[n].size <= Grid(total, g)
    ensures parts[n].offset == Grid(k, g) && k + |parts[n].leaves| <= total
  {
    NoGap(parts, n, g, k, total);
    Room(parts[n].offset, |parts[n].leaves|, k, total, g);
  }

  lemma NextInUnion(parts: seq<Part>, n: nat, fs: nat, num: nat, fs1: nat, num1: nat, g: nat, total: nat)
    requires n < |parts| && Held(parts[..n], fs, num, fs1, num1) && Union(parts) == Row(g, total) &&
             (fs == 0 || fs == g)
    requires AllTile(parts, g) && g > 0 && parts[n].offset == 0 && parts[n].size <= Grid(total, g)
    ensures fs1 == 0 || fs1 == g
    ensures |parts[n].leaves| <= total
  {
    SameSize(parts, n, fs, num, fs1, num1, g, total);
    Room(0, |parts[n].leaves|, 0, total, g);
  }

  lemma AllParts(parts: seq<Part>, fs: nat, num: nat, fs1: nat, num1: nat, g: nat, total: nat)
    requires Held(parts, fs, num, fs1, num1) && Union(parts) == Row(g, total) && (fs == 0 || fs == g) && g > 0
    ensures num1 == num + total && Grid(num1 - num, fs1) == Grid(total, g)
  {
    assert parts[..|parts|] == parts;
    SameSize(parts, |parts|, fs, num, fs1, num1, g, total);
    RowCount(g, num1 - num);
    RowCount(g, total);
  }

  // ---- Which types qualify ----

  predicate IsStruct(fields: seq<Field>) {
    exists i :: 0 <= i < |fields| && fields[i].offset != 0
  }

  /** Struct fields lie one after the other; members of a union, all at offset 0, only inside it. Nothing is asked of
      scalars that are no floats: bit-fields share storage units. */
  ghost predicate WellFormed(t: Ctype)
    decreases t
  {
    match t
    case Floating(size) => size > 0
    case Other(size) => true
    case Aggregate(size, fields) =>
      (forall i :: 0 <= i < |fields| ==>
        WellFormed(fields[i].ty) && (fields[i].ty.Other? || fields[i].offset + Size(fields[i].ty) <= size)) &&
      (IsStruct(fields) ==>
        forall i, j :: 0 <= i < j < |fields| && !fields[i].ty.Other? && !fields[j].ty.Other? ==>
          fields[i].offset + Size(fields[i].ty) <= fields[j].offset)
    case Array(elem, _, _) => WellFormed(elem)
  }

  /** The type is floats of g bytes side by side, and nothing else. */
  predicate Tiles(t: Ctype, g: nat) {
    Leaves(t) == Row(g, |Leaves(t)|) && Size(t) == Grid(|Leaves(t)|, g)
  }

  /** The type and every type nested in it are rows of floats of g bytes, and none is an array of basic type VT_PTR. */
  ghost predicate Regular(t: Ctype, g: nat)
    decreases t
  {
    g > 0 && Tiles(t, g) &&
    (match t
     case Floating(_) => true
     case Other(_) => true
     case Aggregate(_, fields) => forall i :: 0 <= i < |fields| ==> Regular(fields[i].ty, g)
     case Array(elem, count, viaPointer) => !viaPointer && (count > 0 ==> Regular(elem, g)))
  }

  /** No scalar at all, here or nested. */
  ghost predicate Empty(t: Ctype)
    decreases t
  {
    Leaves(t) == {} && Size(t) == 0 &&
    (match t
     case Floating(_) => true
     case Other(_) => true
     case Aggregate(_, fields) => forall i :: 0 <= i < |fields| ==> Empty(fields[i].ty)
     case Array(elem, count, viaPointer) => !viaPointer && (count > 0 ==> Empty(elem)))
  }

  lemma {:induction false} EmptyIsRegular(t: Ctype, g: nat)
    requires Empty(t) && g > 0
    ensures Regular(t, g)
    decreases t
  {
    match t
    case Aggregate(_, fields) =>
      forall i | 0 <= i < |fields| ensures Regular(fields[i].ty, g) { EmptyIsRegular(fields[i].ty, g); }
    case Array(elem, count, _) =>
      if count > 0 { EmptyIsRegular(elem, g); }
    case _ =>
  }

  /** The outcome `num1` with element size `fs1`, from `num` elements of size `fs` (0 when none is known yet). */
  ghost predicate Sound(t: Ctype, fs: nat, num: nat, fs1: nat, num1: int) {
    num <= num1 <= 4 &&
    (if num1 == num then Empty(t) && fs1 == fs
     else Regular(t, fs1) && |Leaves(t)| == num1 - num && (fs != 0 ==> fs1 == fs))
  }

  /** A qualifying type that there is room for. */
  ghost predicate Expected(t: Ctype, fs: nat, num: nat, g: nat) {
    Regular(t, g) && num + |Leaves(t)| <= 4 && (fs == 0 || fs == g)
  }

  ghost predicate Outcome(t: Ctype, fs: nat, num: nat, g: nat, fs1: nat, num1: int) {
    (num1 != -1 ==> Sound(t, fs, num, fs1, num1)) &&
    (Expected(t, fs, num, g) ==> num1 == num + |Leaves(t)|)
  }

  // ---- Fields ----

  lemma {:induction false} PartAt(t: Ctype, n: nat, i: nat)
    requires t.Aggregate? && i < n <= |t.fields|
    ensures var f := t.fields[i]; FieldParts(t, n)[i] == Part(f.offset, Size(f.ty), Leaves(f.ty))
    decreases n
  {
    if i < n - 1 { PartAt(t, n - 1, i); }
  }

  lemma {:induction false} PartsPrefix(t: Ctype, n: nat, i: nat)
    requires t.Aggregate? && i <= n <= |t.fields|
    ensures FieldParts(t, n)[..i] == FieldParts(t, i)
    decreases n
  {
    if i < n { PartsPrefix(t, n - 1, i); }
  }

  /** Every nested type is regular for the size found, or empty. */
  ghost predicate Nested(t: Ctype, n: nat, fs: nat, k: nat)
    requires t.Aggregate? && n <= |t.fields|
  {
    forall i :: 0 <= i < n ==> if k == 0 then Empty(t.fields[i].ty) else Regular(t.fields[i].ty, fs)
  }

  lemma NestedMore(t: Ctype, n: nat, fs: nat, k: nat, fs1: nat, m: nat, k1: nat)
    requires t.Aggregate? && n < |t.fields| && Nested(t, n, fs, k) && k <= k1 && m <= k1 &&
             (k1 == 0 || k1 == k || k1 == m || k1 == k + m)
    requires if m == 0 then Empty(t.fields[n].ty) && fs1 == fs
             else Regular(t.fields[n].ty, fs1) && (k > 0 ==> fs1 == fs)
    requires k > 0 ==> fs > 0
    ensures Nested(t, n + 1, fs1, k1)
  {
    forall i | 0 <= i < n + 1
      ensures if k1 == 0 then Empty(t.fields[i].ty) else Regular(t.fields[i].ty, fs1)
    {
      if k1 > 0 && Empty(t.fields[i].ty) { EmptyIsRegular(t.fields[i].ty, fs1); }
    }
  }

  /** Half-way through an aggregate: the first n fields hold num1 - num floats. */
  ghost predicate Partial(t: Ctype, n: nat, fs: nat, num: nat, fs1: nat, num1: int)
    requires t.Aggregate? && n <= |t.fields|
  {
    num <= num1 <= 4 && Held(FieldParts(t, n), fs, num, fs1, num1) && Nested(t, n, fs1, num1 - num)
  }

  lemma FoundField(t: Ctype, n: nat, fs: nat, num: nat, fs1: nat, num1: nat)
    requires t.Aggregate? && n < |t.fields| && Sound(t.fields[n].ty, fs, num, fs1, num1)
    ensures var f := t.fields[n]; Found(Part(f.offset, Size(f.ty), Leaves(f.ty)), fs, num1 - num, fs1)
  {
  }

  lemma PartialStart(t: Ctype, fs: nat, num: nat)
    requires t.Aggregate? && num <= 4
    ensures Partial(t, 0, fs, num, fs, num)
  {
  }

  /** A struct field that follows the floats so far. */
  lemma StructNext(t: Ctype, n: nat, fs: nat, num: nat, fs0: nat, num0: nat, fs1: nat, num1: nat)
    requires t.Aggregate? && n < |t.fields| && Partial(t, n, fs, num, fs0, num0)
    requires Sound(t.fields[n].ty, fs0, num0, fs1, num1) && t.fields[n].offset == Grid(num0 - num, fs0)
    ensures Partial(t, n + 1, fs, num, fs1, num1)
  {
    var f := t.fields[n];
    FoundField(t, n, fs0, num0, fs1, num1);
    AfterFloats(FieldParts(t, n), Part(f.offset, Size(f.ty), Leaves(f.ty)), fs, num, fs0, num0, fs1, num1);
    NestedMore(t, n, fs0, num0 - num, fs1, num1 - num0, num1 - num);
  }

  /** A union member laid over the floats so far. */
  lemma UnionNext(t: Ctype, n: nat, fs: nat, num: nat, fs0: nat, num0: nat, fs1: nat, num1: nat)
    requires t.Aggregate? && n < |t.fields| && Partial(t, n, fs, num, fs0, num0)
    requires Sound(t.fields[n].ty, fs0, num, fs1, num1) && t.fields[n].offset == 0
    ensures Partial(t, n + 1, fs, num, fs1, if num1 < num0 then num0 else num1)
  {
    var f, r := t.fields[n], if num1 < num0 then num0 else num1;
    FoundField(t, n, fs0, num, fs1, num1);
    OverFloats(FieldParts(t, n), Part(f.offset, Size(f.ty), Leaves(f.ty)), fs, num, fs0, num0, fs1, num1);
    NestedMore(t, n, fs0, num0 - num, fs1, num1 - num, r - num);
  }

  /** The size test after the last field, on a type that stays. */
  lemma AggregateEnd(t: Ctype, fs: nat, num: nat, fs1: nat, num1: nat)
    requires t.Aggregate? && Partial(t, |t.fields|, fs, num, fs1, num1) && t.size == Grid(num1 - num, fs1)
    ensures Sound(t, fs, num, fs1, num1)
  {
    if num1 > num { RowCount(fs1, num1 - num); }
  }

  // ---- Nothing that qualifies is refused ----

  lemma AllPartsTile(t: Ctype, g: nat)
    requires t.Aggregate? && Regular(t, g)
    ensures AllTile(FieldParts(t, |t.fields|), g)
  {
    var parts := FieldParts(t, |t.fields|);
    forall i | 0 <= i < |parts| ensures PartTiles(parts[i], g) {
      PartAt(t, |t.fields|, i);
      assert Regular(t.fields[i].ty, g);
    }
  }

  predicate NoOther(t: Ctype)
    requires t.Aggregate?
  {
    forall i :: 0 <= i < |t.fields| ==> !t.fields[i].ty.Other?
  }

  lemma RegularFields(t: Ctype, g: nat)
    requires t.Aggregate? && Regular(t, g)
    ensures NoOther(t)
  {
    forall i | 0 <= i < |t.fields| ensures !t.fields[i].ty.Other? {
      assert Regular(t.fields[i].ty, g);
      if t.fields[i].ty.Other? { OtherNever(t.fields[i].ty, g); }
    }
  }

  lemma PartsInOrder(t: Ctype)
    requires t.Aggregate? && WellFormed(t) && IsStruct(t.fields) && NoOther(t)
    ensures InOrder(FieldParts(t, |t.fields|))
  {
    var parts := FieldParts(t, |t.fields|);
    forall i, j | 0 <= i < j < |parts| ensures parts[i].offset + parts[i].size <= parts[j].offset {
      PartAt(t, |t.fields|, i);
      PartAt(t, |t.fields|, j);
    }
  }

  /** What the next field of a qualifying struct gives. */
  lemma StructField(t: Ctype, n: nat, fs: nat, num: nat, fs1: nat, num1: nat, g: nat)
    requires t.Aggregate? && WellFormed(t) && IsStruct(t.fields) && n < |t.fields|
    requires Partial(t, n, fs, num, fs1, num1) && Expected(t, fs, num, g)
    ensures t.fields[n].offset == Grid(num1 - num, fs1)
    ensures Expected(t.fields[n].ty, fs1, num1, g)
  {
    var parts := FieldParts(t, |t.fields|);
    AllPartsTile(t, g);
    RegularFields(t, g);
    PartsInOrder(t);
    PartAt(t, |t.fields|, n);
    PartsPrefix(t, |t.fields|, n);
    NextInStruct(parts, n, fs, num, fs1, num1, g, |Leaves(t)|);
  }

  lemma UnionField(t: Ctype, n: nat, fs: nat, num: nat, fs1: nat, num1: nat, g: nat)
    requires t.Aggregate? && WellFormed(t) && !IsStruct(t.fields) && n < |t.fields|
    requires Partial(t, n, fs, num, fs1, num1) && Expected(t, fs, num, g)
    ensures Expected(t.fields[n].ty, fs1, num, g)
  {
    var parts := FieldParts(t, |t.fields|);
    AllPartsTile(t, g);
    RegularFields(t, g);
    PartAt(t, |t.fields|, n);
    PartsPrefix(t, |t.fields|, n);
    NextInUnion(parts, n, fs, num, fs1, num1, g, |Leaves(t)|);
  }

  lemma AggregateFull(t: Ctype, fs: nat, num: nat, fs1: nat, num1: nat, g: nat)
    requires t.Aggregate? && Partial(t, |t.fields|, fs, num, fs1, num1) && Expected(t, fs, num, g)
    ensures t.size == Grid(num1 - num, fs1) && num1 == num + |Leaves(t)|
  {
    AllParts(FieldParts(t, |t.fields|), fs, num, fs1, num1, g, |Leaves(t)|);
  }

  // ---- Arrays ----

  /** An array of rows is a row. */
  lemma {:induction false} ElementsTile(n: nat, m: nat, fs: nat, size: nat, leaves: set<Leaf>)
    requires size == Grid(m, fs) && leaves == Row(fs, m)
    ensures Union(ElementParts(n, size, leaves)) == Row(fs, Grid(n, m)) && Grid(n, size) == Grid(Grid(n, m), fs)
    decreases n
  {
    if n > 0 {
      var k := n - 1;
      ElementsTile(k, m, fs, size, leaves);
      UnionLast(ElementParts(k, size, leaves), Part(Grid(k, size), size, leaves));
      OneMore(Grid(k, m), m, fs);
    }
  }

  lemma OneMore(k: nat, m: nat, fs: nat)
    ensures Row(fs, k + m) == Row(fs, k) + Shift(Row(fs, m), Grid(k, fs)) &&
            Grid(k + m, fs) == Grid(k, fs) + Grid(m, fs)
  {
    RowAdd(fs, k, m);
    GridAdd(k, m, fs);
  }

  lemma ArrayTiles(t: Ctype, fs: nat, m: nat)
    requires t.Array? && fs > 0 && Leaves(t.elem) == Row(fs, m) && Size(t.elem) == Grid(m, fs)
    ensures Leaves(t) == Row(fs, Grid(t.count, m)) && Size(t) == Grid(Grid(t.count, m), fs)
    ensures |Leaves(t)| == Grid(t.count, m)
  {
    ElementsTile(t.count, m, fs, Size(t.elem), Leaves(t.elem));
    RowCount(fs, Grid(t.count, m));
  }

  lemma EmptyArray(t: Ctype, fs: nat, num: nat, g: nat)
    requires t.Array? && !t.viaPointer && t.count == 0 && num <= 4
    ensures Outcome(t, fs, num, g, fs, num)
  {
    assert Leaves(t) == {};
  }

  lemma ArrayOfEmpty(t: Ctype)
    requires t.Array? && !t.viaPointer && Empty(t.elem)
    ensures Empty(t)
  {
    ElementsTile(t.count, 0, 1, 0, {});
    NoElements(t.count);
  }

  lemma {:induction false} NoElements(n: nat)
    ensures Grid(n, 0) == 0
  {
    if n > 0 { NoElements(n - 1); }
  }

  lemma ArrayNext(t: Ctype, fs: nat, num: nat, fs1: nat, num1: nat)
    requires t.Array? && !t.viaPointer && t.count > 0 && Sound(t.elem, fs, num, fs1, num1)
    ensures num + Grid(t.count, num1 - num) <= 4 ==> Sound(t, fs, num, fs1, num + Grid(t.count, num1 - num))
  {
    if num1 == num {
      ArrayOfEmpty(t);
      NoElements(t.count);
    } else {
      ArrayTiles(t, fs1, num1 - num);
      GridAdd(1, t.count - 1, num1 - num);
    }
  }

  lemma {:induction false} CountFits(n: nat, m: nat)
    ensures m > 0 ==> n <= Grid(n, m)
    decreases n
  {
    if n > 0 { CountFits(n - 1, m); }
  }

  lemma ArrayElement(t: Ctype, fs: nat, num: nat, g: nat)
    requires t.Array? && t.count > 0 && Expected(t, fs, num, g)
    ensures Expected(t.elem, fs, num, g) && |Leaves(t)| == Grid(t.count, |Leaves(t.elem)|)
    ensures |Leaves(t.elem)| > 0 ==> t.count <= 4
  {
    var m := |Leaves(t.elem)|;
    assert Regular(t.elem, g);
    assert Tiles(t.elem, g);
    ArrayTiles(t, g, m);
    CountFits(t.count, m);
    GridAdd(1, t.count - 1, m);
  }

  // ---- The algorithm ----

  lemma FloatRegular(t: Ctype, g: nat)
    requires t.Floating? && t.size > 0
    ensures Regular(t, t.size) && |Leaves(t)| == 1
    ensures Regular(t, g) ==> g == t.size
  {
    RowLast(t.size, 0);
    RowLast(g, 0);
  }

  lemma OtherNever(t: Ctype, g: nat)
    requires t.Other?
    ensures !Regular(t, g)
  {
    if Regular(t, g) { RowInside(g, |Leaves(t)|, Leaf(0, t.size, false)); }
  }

  /** The recursive walk over a type: `num` floats of `fsize` bytes so far; -1 when the type does not qualify.
      The ghost argument is an element size that the type may be made of. */
  method HfaAux(t: Ctype, fsize: nat, num: nat, ghost g: nat) returns (num1: int, fsize1: nat)
    requires WellFormed(t) && num <= 4
    ensures Outcome(t, fsize, num, g, fsize1, num1)
    decreases t, 2
  {
    fsize1 := fsize;
    match t
    case Floating(n) =>
      FloatRegular(t, g);
      if num >= 4 || (fsize != 0 && fsize != n) { return -1, fsize; }
      return num + 1, n;
    case Aggregate(size, fields) =>
      if IsStruct(fields) {
        num1, fsize1 := HfaStruct(t, fsize, num, g);
      } else {
        num1, fsize1 := HfaUnion(t, fsize, num, g);
      }
      num1 := SizeTest(t, fsize, num, g, fsize1, num1);
    case Array(elem, count, viaPointer) =>
      if viaPointer { return -1, fsize; }
      num1, fsize1 := HfaArray(t, fsize, num, g);
    case Other(_) =>
      OtherNever(t, g);
      return -1, fsize;
  }

  lemma SizeExpected(t: Ctype, fsize: nat, num: nat, g: nat, fsize1: nat, num1: nat, all: int)
    requires t.Aggregate? && Partial(t, |t.fields|, fsize, num, fsize1, num1) && Expected(t, fsize, num, g)
    requires all == Grid(num1 - num, fsize1)
    ensures t.size == all
  {
    AggregateFull(t, fsize, num, fsize1, num1, g);
  }

  lemma SizeConfirms(t: Ctype, fsize: nat, num: nat, g: nat, fsize1: nat, num1: nat, all: int)
    requires t.Aggregate? && Partial(t, |t.fields|, fsize, num, fsize1, num1)
    requires t.size == all == Grid(num1 - num, fsize1)
    ensures Outcome(t, fsize, num, g, fsize1, num1)
  {
    AggregateEnd(t, fsize, num, fsize1, num1);
    if Expected(t, fsize, num, g) { AggregateFull(t, fsize, num, fsize1, num1, g); }
  }

  method SizeTest(t: Ctype, ghost fsize: nat, num: nat, ghost g: nat, fsize1: nat, num0: int) returns (num1: int)
    requires t.Aggregate? && (num0 != -1 ==> Partial(t, |t.fields|, fsize, num, fsize1, num0))
    requires Expected(t, fsize, num, g) ==> num0 != -1
    ensures Outcome(t, fsize, num, g, fsize1, num1)
  {
    num1 := num0;
    if num1 != -1 {
      var all := (num1 - num) * fsize1;
      GridIsProduct(num1 - num, fsize1);
      if t.size != all {
        if Expected(t, fsize, num, g) { SizeExpected(t, fsize, num, g, fsize1, num0, all); }
        return -1;
      }
      SizeConfirms(t, fsize, num, g, fsize1, num0, all);
    }
  }

  method StructMember(t: Ctype, i: nat, ghost fs: nat, num: nat, fs0: nat, num0: nat, ghost g: nat)
    returns (num1: int, fs1: nat)
    requires t.Aggregate? && WellFormed(t) && IsStruct(t.fields) && i < |t.fields| && Partial(t, i, fs, num, fs0, num0)
    ensures num1 != -1 ==> Partial(t, i + 1, fs, num, fs1, num1)
    ensures Expected(t, fs, num, g) ==> num1 != -1
    decreases t, 0
  {
    if Expected(t, fs, num, g) { StructField(t, i, fs, num, fs0, num0, g); }
    GridIsProduct(num0 - num, fs0);
    if t.fields[i].offset != (num0 - num) * fs0 { return -1, fs0; }
    num1, fs1 := HfaAux(t.fields[i].ty, fs0, num0, g);
    if num1 != -1 { StructNext(t, i, fs, num, fs0, num0, fs1, num1); }
  }

  method HfaStruct(t: Ctype, fsize: nat, num: nat, ghost g: nat) returns (num1: int, fsize1: nat)
    requires t.Aggregate? && WellFormed(t) && IsStruct(t.fields) && num <= 4
    ensures if num1 == -1 then !Expected(t, fsize, num, g) else Partial(t, |t.fields|, fsize, num, fsize1, num1)
    decreases t, 1
  {
    num1, fsize1 := num, fsize;
    var i := 0;
    PartialStart(t, fsize, num);
    while i < |t.fields|
      invariant 0 <= i <= |t.fields| && Partial(t, i, fsize, num, fsize1, num1)
    {
      num1, fsize1 := StructMember(t, i, fsize, num, fsize1, num1, g);
      if num1 == -1 { return; }
      i := i + 1;
    }
  }

  method UnionMember(t: Ctype, i: nat, ghost fs: nat, num: nat, fs0: nat, num0: nat, ghost g: nat)
    returns (num1: int, fs1: nat)
    requires t.Aggregate? && WellFormed(t) && !IsStruct(t.fields) && i < |t.fields| && Partial(t, i, fs, num, fs0, num0)
    ensures num1 != -1 ==> Partial(t, i + 1, fs, num, fs1, num1)
    ensures Expected(t, fs, num, g) ==> num1 != -1
    decreases t, 0
  {
    if Expected(t, fs, num, g) { UnionField(t, i, fs, num, fs0, num0, g); }
    num1, fs1 := HfaAux(t.fields[i].ty, fs0, num, g);
    if num1 != -1 {
      UnionNext(t, i, fs, num, fs0, num0, fs1, num1);
      if num1 < num0 { num1 := num0; }
    }
  }

  method HfaUnion(t: Ctype, fsize: nat, num: nat, ghost g: nat) returns (num1: int, fsize1: nat)
    requires t.Aggregate? && WellFormed(t) && !IsStruct(t.fields) && num <= 4
    ensures if num1 == -1 then !Expected(t, fsize, num, g) else Partial(t, |t.fields|, fsize, num, fsize1, num1)
    decreases t, 1
  {
    num1, fsize1 := num, fsize;
    var i := 0;
    PartialStart(t, fsize, num);
    while i < |t.fields|
      invariant 0 <= i <= |t.fields| && Partial(t, i, fsize, num, fsize1, num1)
    {
      num1, fsize1 := UnionMember(t, i, fsize, num, fsize1, num1, g);
      if num1 == -1 { return; }
      i := i + 1;
    }
  }

  method HfaArray(t: Ctype, fsize: nat, num: nat, ghost g: nat) returns (num1: int, fsize1: nat)
    requires t.Array? && !t.viaPointer && WellFormed(t) && num <= 4
    ensures Outcome(t, fsize, num, g, fsize1, num1)
    decreases t, 0
  {
    if t.count == 0 {
      EmptyArray(t, fsize, num, g);
      return num, fsize;
    }
    if Expected(t, fsize, num, g) { ArrayElement(t, fsize, num, g); }
    num1, fsize1 := HfaAux(t.elem, fsize, num, g);
    if num1 == -1 || (num1 != num && t.count > 4) { return -1, fsize1; }
    ArrayNext(t, fsize, num, fsize1, num1);
    GridIsProduct(t.count, num1 - num);
    num1 := num + t.count * (num1 - num);
    if num1 > 4 { return -1, fsize1; }
  }

  /** A row of one to four floats of g bytes. */
  ghost predicate Qualifies(t: Ctype, g: nat) { Regular(t, g) && 1 <= |Leaves(t)| <= 4 }

  ghost predicate QualifiesForSome(t: Ctype) { exists g: nat :: Qualifies(t, g) }

  /** arm64_hfa: the number of floats of a qualifying aggregate, 0 for every other type.
      It is positive exactly for rows of one to four floats of one size. */
  method ArmHfa(t: Ctype) returns (n: int, fsize: nat)
    requires WellFormed(t)
    ensures 0 <= n <= 4 && (n > 0 ==> Qualifies(t, fsize) && n == |Leaves(t)| && Size(t) == Grid(n, fsize))
    ensures n > 0 <==> (t.Aggregate? || (t.Array? && !t.viaPointer)) && QualifiesForSome(t)
  {
    if t.Aggregate? || (t.Array? && !t.viaPointer) {
      ghost var g := SomeSize(t);
      n, fsize := HfaAux(t, 0, 0, g);
      assert Qualifies(t, g) ==> Expected(t, 0, 0, g);
      if n > 0 {
        assert Qualifies(t, fsize);
        return;
      }
      assert !Qualifies(t, g);
    }
    return 0, 0;
  }

  lemma SomeSize(t: Ctype) returns (g: nat)
    ensures QualifiesForSome(t) ==> Qualifies(t, g)
  {
    if QualifiesForSome(t) { g :| Qualifies(t, g); } else { g := 0; }
  }

  /** The compiler gives every array the basic type VT_PTR, so a struct holding an array of two floats,
      homogeneous though it is, does not qualify. */
  lemma ArrayMemberMissed(t: Ctype, a: Ctype, fs: nat)
    requires fs > 0 && a == Array(Floating(fs), 2, true) && t == Aggregate(Grid(2, fs), [Field(0, a)])
    ensures WellFormed(t) && Tiles(t, fs) && |Leaves(t)| == 2 && !QualifiesForSome(t)
  {
    PairTiles(a, fs);
    SoleMember(t, a);
    forall g: nat ensures !Regular(t, g) {
      assert !Regular(t.fields[0].ty, g);
    }
  }

  lemma PairTiles(a: Ctype, fs: nat)
    requires fs > 0 && a == Array(Floating(fs), 2, true)
    ensures Leaves(a) == Row(fs, 2) && |Leaves(a)| == 2 && Size(a) == Grid(2, fs)
  {
    RowLast(fs, 0);
    ArrayTiles(a, fs, 1);
  }

  lemma SoleMember(t: Ctype, a: Ctype)
    requires t.Aggregate? && t.fields == [Field(0, a)]
    ensures Leaves(t) == Leaves(a)
  {
    var p := Part(0, Size(a), Leaves(a));
    ShiftNone(Leaves(a));
    UnionLast([], p);
    PartAt(t, 1, 0);
    assert FieldParts(t, 1) == [] + [p];
  }
}
