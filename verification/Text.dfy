/** The section under construction, in units of `T` (bytes, or instruction words): `data` up to `ind`. */
module Text {
  class Text<T> {
    var data: seq<T>

    constructor ()
      ensures data == []
    {
      data := [];
    }

    /** `o` or `g`: append one unit at `ind`. */
    method Emit(x: T)
      modifies this
      ensures data == old(data) + [x]
    {
      data := data + [x];
    }

    method EmitAll(b: seq<T>)
      modifies this
      ensures data == old(data) + b
    {
      var i := 0;
      while i < |b|
        invariant 0 <= i <= |b| && data == old(data) + b[..i]
      {
        Emit(b[i]);
        i := i + 1;
      }
      assert b[..|b|] == b;
    }
  }
}
