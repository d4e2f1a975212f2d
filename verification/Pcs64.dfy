/** Argument locations of the A64 procedure call standard, and the frame the callee builds from them. */
module Pcs64 {
  import opened Rounding

  datatype Kind =
    | Integral    // integers and pointers, also arrays and functions passed as pointers
    | Floating    // float and double
    | LongDouble
    | Structure

  /** An argument type: `hfa` its number of floats if a homogeneous aggregate, else 0. */
  datatype Type = Type(kind: Kind, size: nat, align: nat, hfa: nat)

  /** What type_size and arm64_hfa can report for a non-empty type. */
  predicate WellFormed(t: Type) { Sized(t) && PowerOfTwo(t.align) }

  predicate Sized(t: Type) {
    t.size > 0 && t.align > 0 &&
    match t.kind
    case Integral => t.hfa == 0 && (t.size == 1 || t.size == 2 || t.size == 4 || t.size == 8 || t.size == 16) &&
      t.align <= 8
    case Floating => t.hfa == 0 && (t.size == 4 || t.size == 8) && t.align == t.size
    case LongDouble => t.hfa == 0 && t.size == 16 && t.align == 16
    case Structure => t.hfa <= 4
  }

  predicate AllWellFormed(ts: seq<Type>) { forall i :: 0 <= i < |ts| ==> WellFormed(ts[i]) }

  /** (x + 7) & ~7. */
  function Up8(x: nat): (r: nat)
    ensures x <= r < x + 8 && r % 8 == 0
  {
    x + 7 - (x + 7) % 8
  }

  // ---- Locations ----

  /** `count` general registers from x(first), vector registers from v(first), or `size` bytes of the stack
      from `offset`; `byRef` when that is the address of a copy. */
  datatype Loc =
    | X(first: nat, count: nat, byRef: bool)
    | V(first: nat, count: nat)
    | Stack(offset: nat, size: nat, byRef: bool)

  /** Next general register, next vector register, end of the stacked arguments (counted from 32). */
  datatype State = State(nx: nat, nv: nat, ns: nat)

  const START := State(0, 0, 32)

  /** The standard's rules by class of argument. */
  function Place(s: State, t: Type): (Loc, State)
    requires t.align > 0
  {
    if t.hfa == 0 && t.size > 16 then PlaceAddress(s)
    else if t.hfa > 0 || t.kind == Floating || t.kind == LongDouble then PlaceVector(s, t)
    else PlaceGeneral(s, t)
  }

  /** A large composite is replaced by its address. */
  function PlaceAddress(s: State): (Loc, State) {
    if s.nx < 8 then (X(s.nx, 1, true), s.(nx := s.nx + 1))
    else (Stack(Up8(s.ns), 8, true), s.(ns := Up8(s.ns) + 8))
  }

  function PlaceVector(s: State, t: Type): (Loc, State)
    requires t.align > 0
  {
    VectorOr(s, if t.hfa > 0 then t.hfa else 1, if t.kind == Floating then s.ns else Up(Up8(s.ns), t.align),
             Up8(t.size))
  }

  /** n vector registers, or `len` bytes at `at`. */
  function VectorOr(s: State, n: nat, at: nat, len: nat): (Loc, State) {
    if s.nv + n <= 8 then (V(s.nv, n), s.(nv := s.nv + n))
    else (Stack(at, len, false), State(s.nx, 8, at + len))
  }

  function PlaceGeneral(s: State, t: Type): (Loc, State)
    requires t.align > 0
  {
    var n := Up8(t.size) / 8;
    var first := if t.align == 16 then s.nx + s.nx % 2 else s.nx;
    if first + n <= 8 then (X(first, n, false), s.(nx := first + n))
    else
      var at := Up(Up8(s.ns), t.align);
      (Stack(at, 8 * n, false), State(8, s.nv, at + 8 * n))
  }

  /** The counters after all of `ts`. */
  function After(ts: seq<Type>): State
    requires AllWellFormed(ts)
    decreases |ts|
  {
    if ts == [] then START else Place(After(ts[..|ts| - 1]), ts[|ts| - 1]).1
  }

  function LocOf(ts: seq<Type>, i: nat): Loc
    requires AllWellFormed(ts) && i < |ts|
  {
    Place(After(ts[..i]), ts[i]).0
  }

  /** How arm64_pcs_aux writes a location down in one number. */
  function Code(l: Loc): nat {
    match l
    case X(first, _, byRef) => 2 * first + if byRef then 1 else 0
    case V(first, _) => 16 + 2 * first
    case Stack(offset, _, byRef) => offset + if byRef then 1 else 0
  }

  // ---- The algorithm, rule by rule ----

  /** Rules C.4 to C.6: no vector register left. */
  method StackVector(t: Type, size0: nat, ns0: nat) returns (a: nat, ns: nat)
    requires Sized(t) && (t.hfa > 0 || t.kind == Floating || t.kind == LongDouble)
    requires size0 == if t.hfa > 0 then Up8(t.size) else t.size
    ensures var at := if t.kind == Floating then ns0 else Up(Up8(ns0), t.align);
            a == at && ns == at + Up8(t.size)
  {
    ns := ns0;
    var size := size0;
    if t.hfa > 0 || t.kind == LongDouble { ns := Up(Up8(ns), t.align); }
    if t.kind == Floating && t.size == 4 { size := 8; }
    a, ns := ns, ns + size;
  }

  /** Rules C.7 to C.15. */
  method GeneralArgument(t: Type, size0: nat, nx0: nat, ns0: nat) returns (a: nat, nx: nat, ns: nat)
    requires Sized(t) && t.hfa == 0 && t.size <= 16 && (t.kind == Integral || t.kind == Structure) && nx0 <= 8
    requires size0 == if t.kind == Structure then Up8(t.size) else t.size
    ensures var (l, s) := PlaceGeneral(State(nx0, 0, ns0), t);
            a == Code(l) && nx == s.nx && ns == s.ns
  {
    nx, ns := nx0, ns0;
    var size := size0;
    if t.kind != Structure && size <= 8 && nx < 8 {
      return nx * 2, nx + 1, ns;
    }
    if t.align == 16 { nx := nx + nx % 2; }
    if t.kind != Structure && size == 16 && nx < 7 {
      return nx * 2, nx + 2, ns;
    }
    if t.kind == Structure && size <= (8 - nx) * 8 {
      return nx * 2, nx + (size + 7) / 8, ns;
    }
    nx := 8;
    ns := Up(Up8(ns), t.align);
    if t.kind == Structure {
      return ns, nx, ns + size;
    }
    if size < 8 { size := 8; }
    a, ns := ns, ns + size;
  }

  /** Rules C.1 to C.6. */
  method VectorArgument(t: Type, nv0: nat, ns0: nat) returns (a: nat, nv: nat, ns: nat)
    requires Sized(t) && (t.hfa > 0 || t.kind == Floating || t.kind == LongDouble) && nv0 <= 8
    ensures var (l, s) := PlaceVector(State(0, nv0, ns0), t);
            a == Code(l) && nv == s.nv && ns == s.ns
  {
    nv, ns := nv0, ns0;
    var size := t.size;
    if (t.kind == Floating || t.kind == LongDouble) && nv < 8 {
      return 16 + nv * 2, nv + 1, ns;
    }
    if t.hfa > 0 {
      if nv + t.hfa <= 8 {
        return 16 + nv * 2, nv + t.hfa, ns;
      }
      nv, size := 8, Up8(size);
    }
    a, ns := StackVector(t, size, ns);
  }

  /** Rules B.2 to B.4, then the rules for the argument's class. */
  method PlaceArgument(t: Type, nx0: nat, nv0: nat, ns0: nat) returns (a: nat, nx: nat, nv: nat, ns: nat)
    requires Sized(t) && nx0 <= 8 && nv0 <= 8
    ensures var (l, s) := Place(State(nx0, nv0, ns0), t); a == Code(l) && State(nx, nv, ns) == s
  {
    nx, nv, ns := nx0, nv0, ns0;
    if t.hfa == 0 && t.size > 16 {
      if nx < 8 {
        return nx * 2 + 1, nx + 1, nv, ns;
      }
      ns := Up8(ns);
      return ns + 1, nx, nv, ns + 8;
    }
    if t.hfa > 0 || t.kind == Floating || t.kind == LongDouble {
      a, nv, ns := VectorArgument(t, nv, ns);
    } else {
      a, nx, ns := GeneralArgument(t, if t.kind == Structure then Up8(t.size) else t.size, nx, ns);
    }
  }

  // ---- What one argument takes ----

  predicate Inv(s: State) { s.nx <= 8 && s.nv <= 8 && s.ns >= 32 && s.ns % 8 == 0 }

  /** Does the argument compete for vector registers? */
  predicate VectorClass(t: Type) { t.hfa > 0 || t.kind == Floating || t.kind == LongDouble }

  /** Registers and stack are taken from where the counters stand up to where they then stand;
      whoever goes to the stack leaves no register of its class behind. */
  ghost predicate Takes(s: State, t: Type, l: Loc, s': State) {
    match l
    case X(first, count, byRef) => !VectorClass(t) && count > 0 && s.nx <= first && first + count == s'.nx <= 8 &&
      s' == s.(nx := s'.nx)
    case V(first, count) => VectorClass(t) && count > 0 && s.nv == first && first + count == s'.nv <= 8 &&
      s' == s.(nv := s'.nv)
    case Stack(offset, size, byRef) =>
      size > 0 && offset % 8 == 0 && s.ns <= offset && offset + size == s'.ns &&
      (if VectorClass(t) then s'.nv == 8 && s'.nx == s.nx else s'.nx == 8 && s'.nv == s.nv)
  }

  /** Enough room for the value, or a doubleword for its address. */
  ghost predicate Holds(t: Type, l: Loc) {
    match l
    case X(_, count, byRef) =>
      (byRef <==> t.size > 16) && (byRef ==> count == 1) && (!byRef ==> t.size <= 8 * count < t.size + 8)
    case V(_, count) => count == if t.hfa > 0 then t.hfa else 1
    case Stack(_, size, byRef) =>
      (byRef <==> t.size > 16 && t.hfa == 0) && (byRef ==> size == 8) && (!byRef ==> t.size <= size < t.size + 8)
  }

  lemma Up8Exact(x: nat)
    requires x % 8 == 0
    ensures Up8(x) == x
  {
  }

  lemma StackSlot(ns: nat, a: nat)
    requires ns % 8 == 0 && PowerOfTwo(a)
    ensures Up8(ns) == ns && Up(ns, a) % 8 == 0
  {
    Up8Exact(ns);
    UpKeepsEight(ns, a);
  }

  lemma Doublewords(size: nat)
    ensures var n := Up8(size) / 8; size <= 8 * n < size + 8 && 8 * n == Up8(size)
  {
  }

  lemma AddressTakes(s: State, t: Type)
    requires Inv(s) && Sized(t) && t.hfa == 0 && t.size > 16
    ensures var (l, s') := PlaceAddress(s); Inv(s') && Takes(s, t, l, s') && Holds(t, l)
  {
    Up8Exact(s.ns);
  }

  lemma StackedTakes(s: State, t: Type, at: nat, len: nat, s': State)
    requires Inv(s) && at % 8 == 0 && len % 8 == 0 && at >= s.ns && t.size <= len < t.size + 8 && t.size > 0
    requires !(t.size > 16 && t.hfa == 0)
    requires s' == if VectorClass(t) then State(s.nx, 8, at + len) else State(8, s.nv, at + len)
    ensures Inv(s') && Takes(s, t, Stack(at, len, false), s') && Holds(t, Stack(at, len, false))
  {
  }

  lemma VectorTakes(s: State, t: Type, n: nat, at: nat, len: nat)
    requires Inv(s) && Sized(t) && VectorClass(t) && n == if t.hfa > 0 then t.hfa else 1
    requires at % 8 == 0 && len % 8 == 0 && at >= s.ns && t.size <= len < t.size + 8
    ensures var (l, s') := VectorOr(s, n, at, len); Inv(s') && Takes(s, t, l, s') && Holds(t, l)
  {
    StackedTakes(s, t, at, len, State(s.nx, 8, at + len));
  }

  lemma GeneralTakes(s: State, t: Type, n: nat, at: nat)
    requires Inv(s) && Sized(t) && !VectorClass(t) && t.size <= 16
    requires n == Up8(t.size) / 8 && t.size <= 8 * n < t.size + 8
    requires at == Up(Up8(s.ns), t.align) && at % 8 == 0 && at >= s.ns
    ensures var (l, s') := PlaceGeneral(s, t); Inv(s') && Takes(s, t, l, s') && Holds(t, l)
  {
    StackedTakes(s, t, at, 8 * n, State(8, s.nv, at + 8 * n));
  }

  lemma PlaceTakes(s: State, t: Type)
    requires Inv(s) && WellFormed(t)
    ensures Inv(Place(s, t).1) && Takes(s, t, Place(s, t).0, Place(s, t).1) && Holds(t, Place(s, t).0)
  {
    StackSlot(s.ns, t.align);
    if t.hfa == 0 && t.size > 16 {
      AddressTakes(s, t);
    } else if VectorClass(t) {
      VectorTakes(s, t, if t.hfa > 0 then t.hfa else 1, if t.kind == Floating then s.ns else Up(Up8(s.ns), t.align),
                  Up8(t.size));
    } else {
      Doublewords(t.size);
      GeneralTakes(s, t, Up8(t.size) / 8, Up(Up8(s.ns), t.align));
    }
  }

  lemma {:induction false} AfterInv(ts: seq<Type>)
    requires AllWellFormed(ts)
    ensures Inv(After(ts))
    decreases |ts|
  {
    if ts != [] {
      AfterInv(ts[..|ts| - 1]);
      PlaceTakes(After(ts[..|ts| - 1]), ts[|ts| - 1]);
    }
  }

  lemma AfterNext(ts: seq<Type>, i: nat)
    requires AllWellFormed(ts) && i < |ts|
    ensures After(ts[..i + 1]) == Place(After(ts[..i]), ts[i]).1
  {
    assert ts[..i + 1][..i] == ts[..i];
  }

  // ---- The standard's rules ----

  /** The registers of its class that an argument needs: its floats, one for an address, or its doublewords. */
  predicate Needs(t: Type, n: nat) {
    if VectorClass(t) then n == if t.hfa > 0 then t.hfa else 1
    else if t.size > 16 then n == 1
    else 8 * n - 8 < t.size <= 8 * n
  }

  /** The register where it would start: the next one of its class, rule C.8 asking for an even one if a value in
      general registers is aligned to 16. */
  predicate StartsAt(s: State, t: Type, r: nat) {
    if VectorClass(t) then r == s.nv
    else if t.size <= 16 && t.align == 16 then s.nx <= r <= s.nx + 1 && r % 2 == 0
    else r == s.nx
  }

  /** Stacked arguments start at doublewords that their alignment divides; addresses at any doubleword. */
  predicate SlotFits(q: int, t: Type)
    requires t.align > 0
  {
    q % 8 == 0 && ((t.size > 16 && t.hfa == 0) || q % t.align == 0)
  }

  ghost predicate FirstSlot(ns: nat, t: Type, at: nat)
    requires t.align > 0
  {
    ns <= at && SlotFits(at, t) && forall q :: ns <= q < at ==> !SlotFits(q, t)
  }

  /** An argument takes the n registers it needs from the first on exactly if they are there. Else it goes to the first
      slot of the stack that fits, and leaves no register of its class. */
  ghost predicate PlacedByRule(s: State, t: Type, l: Loc, s': State, r: nat, n: nat, at: nat)
    requires t.align > 0
  {
    Needs(t, n) && StartsAt(s, t, r) && FirstSlot(s.ns, t, at) &&
    var byRef := t.size > 16 && t.hfa == 0;
    if r + n <= 8 then
      if VectorClass(t) then l == V(r, n) && s' == s.(nv := r + n) else l == X(r, n, byRef) && s' == s.(nx := r + n)
    else
      l.Stack? && l.offset == at && l.byRef == byRef && l.size % 8 == 0 &&
      (if byRef then l.size == 8 else t.size <= l.size < t.size + 8) &&
      s' == if VectorClass(t) then State(s.nx, 8, at + l.size) else State(8, s.nv, at + l.size)
  }

  lemma SlotRule(ns: nat, t: Type, at: nat)
    requires Sized(t) && PowerOfTwo(t.align) && ns % 8 == 0 && !(t.size > 16 && t.hfa == 0)
    requires at == Up(Up8(ns), t.align)
    ensures FirstSlot(ns, t, at)
  {
    StackSlot(ns, t.align);
    UpFirst(ns, t.align);
    forall q | ns <= q < at ensures !SlotFits(q, t) { NoneBefore(ns, t.align, at, q); }
  }

  lemma FloatSlot(ns: nat, t: Type)
    requires Sized(t) && ns % 8 == 0 && t.kind == Floating
    ensures FirstSlot(ns, t, ns)
  {
    if t.align == 4 { assert ns == 4 * (ns / 8 * 2); }
  }

  lemma AddressByRule(s: State, t: Type) returns (r: nat, n: nat, at: nat)
    requires Inv(s) && WellFormed(t) && t.size > 16 && t.hfa == 0
    ensures PlacedByRule(s, t, PlaceAddress(s).0, PlaceAddress(s).1, r, n, at)
  {
    Up8Exact(s.ns);
    r, n, at := s.nx, 1, s.ns;
  }

  lemma VectorByRule(s: State, t: Type) returns (r: nat, n: nat, at: nat)
    requires Inv(s) && WellFormed(t) && VectorClass(t)
    ensures PlacedByRule(s, t, PlaceVector(s, t).0, PlaceVector(s, t).1, r, n, at)
  {
    r, n := s.nv, if t.hfa > 0 then t.hfa else 1;
    at := if t.kind == Floating then s.ns else Up(Up8(s.ns), t.align);
    if t.kind == Floating { FloatSlot(s.ns, t); } else { SlotRule(s.ns, t, at); }
  }

  lemma GeneralByRule(s: State, t: Type) returns (r: nat, n: nat, at: nat)
    requires Inv(s) && WellFormed(t) && !VectorClass(t) && t.size <= 16
    ensures PlacedByRule(s, t, PlaceGeneral(s, t).0, PlaceGeneral(s, t).1, r, n, at)
  {
    Doublewords(t.size);
    r, n := if t.align == 16 then s.nx + s.nx % 2 else s.nx, Up8(t.size) / 8;
    at := Up(Up8(s.ns), t.align);
    SlotRule(s.ns, t, at);
  }

  lemma PlaceByRule(s: State, t: Type) returns (r: nat, n: nat, at: nat)
    requires Inv(s) && WellFormed(t)
    ensures PlacedByRule(s, t, Place(s, t).0, Place(s, t).1, r, n, at)
  {
    if t.hfa == 0 && t.size > 16 {
      r, n, at := AddressByRule(s, t);
    } else if VectorClass(t) {
      r, n, at := VectorByRule(s, t);
    } else {
      r, n, at := GeneralByRule(s, t);
    }
  }

  /** Every argument of every list is placed by the rules. */
  lemma LocFollowsRule(ts: seq<Type>, i: nat) returns (r: nat, n: nat, at: nat)
    requires AllWellFormed(ts) && i < |ts|
    ensures After(ts[..0]) == State(0, 0, 32)
    ensures PlacedByRule(After(ts[..i]), ts[i], LocOf(ts, i), After(ts[..i + 1]), r, n, at)
  {
    AfterInv(ts[..i]);
    AfterNext(ts, i);
    r, n, at := PlaceByRule(After(ts[..i]), ts[i]);
  }

  // ---- The codes ----

  ghost predicate Coded(ts: seq<Type>, codes: seq<nat>, n: nat)
    requires AllWellFormed(ts) && n <= |ts|
  {
    n <= |codes| && forall i :: 0 <= i < n ==> codes[i] == Code(LocOf(ts, i))
  }

  lemma CodedNext(ts: seq<Type>, codes: seq<nat>, n: nat, code: nat)
    requires AllWellFormed(ts) && n < |ts| && n < |codes| && Coded(ts, codes, n) && code == Code(LocOf(ts, n))
    ensures Coded(ts, codes[n := code], n + 1)
  {
  }

  /** arm64_pcs_aux: the code of every location, and the stack space. */
  method PcsAux(ts: seq<Type>, a: array<nat>) returns (stack: nat)
    requires AllWellFormed(ts) && a.Length == |ts|
    modifies a
    ensures Coded(ts, a[..], |ts|)
    ensures stack == After(ts).ns - 32
  {
    var nx, nv, ns := 0, 0, 32;
    var i := 0;
    while i < |ts|
      invariant 0 <= i <= |ts| && State(nx, nv, ns) == After(ts[..i])
      invariant Coded(ts, a[..], i)
    {
      AfterInv(ts[..i]);
      AfterNext(ts, i);
      var code;
      code, nx, nv, ns := PlaceArgument(ts[i], nx, nv, ns);
      ghost var before := a[..];
      CodedNext(ts, before, i, code);
      a[i] := code;
      assert a[..] == before[i := code];
      i := i + 1;
    }
    assert ts[..|ts|] == ts;
    AfterInv(ts);
    stack := ns - 32;
  }

  // ---- Whole argument lists ----

  lemma LocTakes(ts: seq<Type>, i: nat)
    requires AllWellFormed(ts) && i < |ts|
    ensures Inv(After(ts[..i])) && Inv(After(ts[..i + 1]))
    ensures Takes(After(ts[..i]), ts[i], LocOf(ts, i), After(ts[..i + 1])) && Holds(ts[i], LocOf(ts, i))
  {
    AfterInv(ts[..i]);
    AfterNext(ts, i);
    PlaceTakes(After(ts[..i]), ts[i]);
  }

  predicate Below(s: State, s': State) { s.nx <= s'.nx && s.nv <= s'.nv && s.ns <= s'.ns }

  lemma {:induction false} CountersGrow(ts: seq<Type>, i: nat, j: nat)
    requires AllWellFormed(ts) && i <= j <= |ts|
    ensures Below(After(ts[..i]), After(ts[..j]))
    decreases j
  {
    if i < j {
      CountersGrow(ts, i, j - 1);
      LocTakes(ts, j - 1);
    }
  }

  /** The places a location occupies are behind those of the other. */
  predicate Before(l: Loc, m: Loc) {
    match l
    case X(first, count, _) => m.X? ==> first + count <= m.first
    case V(first, count) => m.V? ==> first + count <= m.first
    case Stack(offset, size, _) => m.Stack? ==> offset + size <= m.offset
  }

  /** Over every argument list no register and no stack byte is given out twice, and once an argument of a class
      has gone to the stack no later one of that class gets a register. */
  lemma LocationsDisjoint(ts: seq<Type>, i: nat, j: nat)
    requires AllWellFormed(ts) && i < j < |ts|
    ensures Before(LocOf(ts, i), LocOf(ts, j))
    ensures LocOf(ts, i).Stack? && (VectorClass(ts[i]) <==> VectorClass(ts[j])) ==> LocOf(ts, j).Stack?
  {
    LocTakes(ts, i);
    LocTakes(ts, j);
    CountersGrow(ts, i + 1, j);
  }

  /** The bytes stacked end where the last stacked argument ends. */
  lemma {:induction false} StackEnd(ts: seq<Type>)
    requires AllWellFormed(ts)
    ensures After(ts).ns == 32 ==> forall i :: 0 <= i < |ts| ==> !LocOf(ts, i).Stack?
    ensures After(ts).ns > 32 ==>
              exists i :: 0 <= i < |ts| && LocOf(ts, i).Stack? &&
                LocOf(ts, i).offset + LocOf(ts, i).size == After(ts).ns
    decreases |ts|
  {
    if ts != [] {
      var front, n := ts[..|ts| - 1], |ts| - 1;
      StackEnd(front);
      LocTakes(ts, n);
      assert ts[..n + 1] == ts;
      forall i | 0 <= i < n ensures LocOf(ts, i) == LocOf(front, i) { assert ts[..i] == front[..i]; }
      if !LocOf(ts, n).Stack? && After(ts).ns > 32 {
        var i :| 0 <= i < n && LocOf(front, i).Stack? &&
          LocOf(front, i).offset + LocOf(front, i).size == After(front).ns;
        assert LocOf(ts, i).Stack?;
      }
    }
  }

  /** A returned value is in x0, in v0, or behind the address in x8: the codes 0, 16 and 1. */
  lemma ReturnCodes(t: Type)
    requires WellFormed(t)
    ensures Code(LocOf([t], 0)) == if VectorClass(t) then 16 else if t.size > 16 then 1 else 0
  {
    assert [t][..0] == [];
  }

  // ---- The callee's frame ----

  /** The bytes of the frame that hold the argument: general registers are saved from 160 on,
      vector registers from 16 on, and the caller's stack starts at 224. */
  function FrameStart(l: Loc): nat
    requires l.Stack? ==> l.offset >= 32
  {
    match l
    case X(first, _, _) => 160 + 8 * first
    case V(first, _) => 16 + 16 * first
    case Stack(offset, _, _) => 224 + (offset - 32)
  }

  function FrameSize(l: Loc): nat {
    match l
    case X(_, count, _) => 8 * count
    case V(_, count) => 16 * count
    case Stack(_, size, _) => size
  }

  /** The parameter's offset, as gfunc_prolog computes it from the code. */
  function PrologOffset(a: nat): nat {
    if a < 16 then 160 + a / 2 * 8
    else if a < 32 then 16 + (a - 16) / 2 * 16
    else 224 + ((a - 32) - (a - 32) % 2)
  }

  /** The code tells everything the callee needs: the frame offset, and whether to go through an address. */
  lemma CodeRead(ts: seq<Type>, i: nat)
    requires AllWellFormed(ts) && i < |ts|
    ensures LocOf(ts, i).Stack? ==> LocOf(ts, i).offset >= 32
    ensures PrologOffset(Code(LocOf(ts, i))) == FrameStart(LocOf(ts, i))
    ensures Code(LocOf(ts, i)) % 2 == 1 <==> ts[i].size > 16 && ts[i].hfa == 0
    ensures Code(LocOf(ts, i)) < 16 <==> LocOf(ts, i).X?
    ensures 16 <= Code(LocOf(ts, i)) < 32 <==> LocOf(ts, i).V?
  {
    LocTakes(ts, i);
    CodeTells(After(ts[..i]), ts[i], LocOf(ts, i), After(ts[..i + 1]));
  }

  lemma GeneralCode(first: nat, r: nat, a: nat)
    requires first < 8 && r <= 1 && a == 2 * first + r
    ensures a < 16 && a % 2 == r && PrologOffset(a) == 160 + 8 * first
  {
    assert a / 2 == first;
  }

  lemma VectorCode(first: nat, a: nat)
    requires first < 8 && a == 16 + 2 * first
    ensures 16 <= a < 32 && a % 2 == 0 && PrologOffset(a) == 16 + 16 * first
  {
    assert (a - 16) / 2 == first;
  }

  lemma StackCode(offset: nat, r: nat, a: nat)
    requires offset >= 32 && offset % 8 == 0 && r <= 1 && a == offset + r
    ensures a >= 32 && a % 2 == r && PrologOffset(a) == 224 + (offset - 32)
  {
    var h := offset / 8 * 4;
    EvenPlus(h, r, a);
    EvenPlus(h - 16, r, a - 32);
  }

  lemma EvenPlus(h: int, r: int, a: int)
    requires 0 <= r <= 1 && a == 2 * h + r
    ensures a % 2 == r
  {
  }

  lemma CodeTells(s: State, t: Type, l: Loc, s': State)
    requires Inv(s) && Sized(t) && Takes(s, t, l, s') && Holds(t, l)
    ensures l.Stack? ==> l.offset >= 32
    ensures PrologOffset(Code(l)) == FrameStart(l)
    ensures Code(l) % 2 == 1 <==> t.size > 16 && t.hfa == 0
    ensures (Code(l) < 16 <==> l.X?) && (16 <= Code(l) < 32 <==> l.V?)
  {
    match l
    case X(first, _, byRef) => GeneralCode(first, if byRef then 1 else 0, Code(l));
    case V(first, _) => VectorCode(first, Code(l));
    case Stack(offset, _, byRef) => StackCode(offset, if byRef then 1 else 0, Code(l));
  }

  /** The frame slots of different parameters do not overlap, nor do they touch x29, x30 and the saved x8. */
  lemma FrameSlotsDisjoint(ts: seq<Type>, i: nat, j: nat)
    requires AllWellFormed(ts) && i < j < |ts|
    ensures var p, q := PrologOffset(Code(LocOf(ts, i))), PrologOffset(Code(LocOf(ts, j)));
            p + FrameSize(LocOf(ts, i)) <= q || q + FrameSize(LocOf(ts, j)) <= p
    ensures var p := PrologOffset(Code(LocOf(ts, i))); 16 <= p && (p + FrameSize(LocOf(ts, i)) <= 144 || 160 <= p)
  {
    CodeRead(ts, i);
    CodeRead(ts, j);
    LocTakes(ts, i);
    LocTakes(ts, j);
    LocationsDisjoint(ts, i, j);
  }

  // ---- Registers saved by the prolog ----

  /** Every register of the location is in one of the saved pairs. */
  predicate Saved(l: Loc, lastInt: int, lastFloat: int) {
    match l
    case X(first, count, _) => first + count <= 8 && (first + count <= 2 * lastInt || lastInt >= 4)
    case V(first, count) => first + count <= 8 && (first + count <= 2 * lastFloat || lastFloat >= 4)
    case Stack(_, _, _) => true
  }

  ghost predicate AllSaved(ts: seq<Type>, n: nat, lastInt: int, lastFloat: int)
    requires AllWellFormed(ts) && n <= |ts|
  {
    forall j :: 0 <= j < n ==> Saved(LocOf(ts, j), lastInt, lastFloat)
  }

  lemma IntPairs(l: Loc, t: Type, last: int)
    requires l.X? && Sized(t) && Holds(t, l) && last == Code(l) / 4 + 1 + (t.size - 1) / 8
    ensures l.first + l.count <= 2 * last
  {
    assert Code(l) / 4 == l.first / 2;
    assert l.count - 1 <= (t.size - 1) / 8;
  }

  lemma VectorPairs(l: Loc, t: Type, last: int)
    requires l.V? && Sized(t) && Holds(t, l) && last == Code(l) / 4 - 3 + if t.hfa > 0 then t.hfa - 1 else 0
    ensures l.first + l.count <= 2 * last
  {
    assert Code(l) / 4 == 4 + l.first / 2;
  }

  /** One parameter's share in the loop of gfunc_prolog. */
  method SavedFor(t: Type, a: nat, ghost l: Loc, lastInt0: int, lastFloat0: int) returns (lastInt: int, lastFloat: int)
    requires Sized(t) && a == Code(l) && Holds(t, l) && (a < 16 <==> l.X?) && (16 <= a < 32 <==> l.V?)
    requires (l.X? || l.V?) ==> l.first + l.count <= 8
    requires lastInt0 >= 0 && lastFloat0 >= 0
    ensures lastInt >= lastInt0 && lastFloat >= lastFloat0 && Saved(l, lastInt, lastFloat)
    ensures (lastInt == 0 <==> lastInt0 == 0 && !l.X?) && (lastFloat == 0 <==> lastFloat0 == 0 && !l.V?)
  {
    lastInt, lastFloat := lastInt0, lastFloat0;
    if a < 16 {
      var last := a / 4 + 1 + (t.size - 1) / 8;
      IntPairs(l, t, last);
      lastInt := if last > lastInt then last else lastInt;
    } else if a < 32 {
      var last := a / 4 - 3 + if t.hfa > 0 then t.hfa - 1 else 0;
      VectorPairs(l, t, last);
      lastFloat := if last > lastFloat then last else lastFloat;
    }
  }

  lemma SavedMore(ts: seq<Type>, n: nat, li: int, lf: int, li': int, lf': int)
    requires AllWellFormed(ts) && n < |ts| && AllSaved(ts, n, li, lf) && li <= li' && lf <= lf'
    requires Saved(LocOf(ts, n), li', lf')
    ensures AllSaved(ts, n + 1, li', lf')
  {
    forall j | 0 <= j < n ensures Saved(LocOf(ts, j), li', lf') { assert Saved(LocOf(ts, j), li, lf); }
  }

  lemma SavedCapped(ts: seq<Type>, li: int, lf: int, li': int, lf': int)
    requires AllWellFormed(ts) && AllSaved(ts, |ts|, li, lf)
    requires li' == (if li > 4 then 4 else li) && lf' == if lf > 4 then 4 else lf
    ensures AllSaved(ts, |ts|, li', lf')
  {
    forall j | 0 <= j < |ts| ensures Saved(LocOf(ts, j), li', lf') { assert Saved(LocOf(ts, j), li, lf); }
  }

  /** Whether any of the first n parameters comes in general registers, or in vector registers. */
  ghost predicate SomeGeneral(ts: seq<Type>, n: nat)
    requires AllWellFormed(ts) && n <= |ts|
  {
    exists j :: 0 <= j < n && LocOf(ts, j).X?
  }

  ghost predicate SomeVector(ts: seq<Type>, n: nat)
    requires AllWellFormed(ts) && n <= |ts|
  {
    exists j :: 0 <= j < n && LocOf(ts, j).V?
  }

  lemma SomeNext(ts: seq<Type>, n: nat)
    requires AllWellFormed(ts) && n < |ts|
    ensures SomeGeneral(ts, n + 1) <==> SomeGeneral(ts, n) || LocOf(ts, n).X?
    ensures SomeVector(ts, n + 1) <==> SomeVector(ts, n) || LocOf(ts, n).V?
  {
  }

  /** The register pairs saved by gfunc_prolog, at most four of each kind, hold every register that carries a parameter;
      of a kind that carries none, and is not needed for an ellipsis, none is saved. */
  method SavedPairs(ts: seq<Type>, a: seq<nat>, variadic: bool) returns (lastInt: int, lastFloat: int)
    requires AllWellFormed(ts) && |a| == |ts| && Coded(ts, a, |ts|)
    ensures 0 <= lastInt <= 4 && 0 <= lastFloat <= 4 && (variadic ==> lastInt == lastFloat == 4)
    ensures AllSaved(ts, |ts|, lastInt, lastFloat)
    ensures lastInt == 0 <==> !variadic && !SomeGeneral(ts, |ts|)
    ensures lastFloat == 0 <==> !variadic && !SomeVector(ts, |ts|)
  {
    lastInt, lastFloat := if variadic then 4 else 0, if variadic then 4 else 0;
    var i := 0;
    while i < |ts|
      invariant 0 <= i <= |ts| && 0 <= lastInt && 0 <= lastFloat && (variadic ==> lastInt >= 4 && lastFloat >= 4)
      invariant AllSaved(ts, i, lastInt, lastFloat)
      invariant lastInt == 0 <==> !variadic && !SomeGeneral(ts, i)
      invariant lastFloat == 0 <==> !variadic && !SomeVector(ts, i)
    {
      CodeRead(ts, i);
      LocTakes(ts, i);
      assert a[i] == Code(LocOf(ts, i));
      ghost var li, lf := lastInt, lastFloat;
      lastInt, lastFloat := SavedFor(ts[i], a[i], LocOf(ts, i), lastInt, lastFloat);
      SavedMore(ts, i, li, lf, lastInt, lastFloat);
      SomeNext(ts, i);
      i := i + 1;
    }
    SavedCapped(ts, lastInt, lastFloat, if lastInt > 4 then 4 else lastInt, if lastFloat > 4 then 4 else lastFloat);
    lastInt := if lastInt > 4 then 4 else lastInt;
    lastFloat := if lastFloat > 4 then 4 else lastFloat;
  }
}
