/** Value wrappers shared by every component of the model. */
module Common {

  datatype Option<+T> = None | Some(value: T)

  datatype Result<+T, +E> = Ok(value: T) | Err(error: E)

  // ---- str.strip ----------------------------------------------------------------------

  /** The string without the characters that `cut` holds of at its ends. */
  function Trim(s: string, cut: char -> bool): string {
    if s != [] && cut(s[0]) then Trim(s[1..], cut)
    else if s != [] && cut(s[|s| - 1]) then Trim(s[..|s| - 1], cut)
    else s
  }

  predicate All(s: string, p: char -> bool) {
    forall c <- s :: p(c)
  }

  predicate Trimmed(s: string, cut: char -> bool) {
    s != [] ==> !cut(s[0]) && !cut(s[|s| - 1])
  }

  /** Padding of any length and kind goes, and nothing else. */
  lemma {:induction false} TrimPadded(a: string, core: string, b: string, cut: char -> bool)
    requires All(a, cut) && All(b, cut) && Trimmed(core, cut)
    ensures Trim(a + core + b, cut) == core
    decreases |a| + |b|
  {
    var s := a + core + b;
    if a != [] {
      assert s[0] == a[0] && s[1..] == a[1..] + core + b;
      TrimPadded(a[1..], core, b, cut);
    } else if b == [] {
      assert s == core;
    } else if core == [] {
      assert s[0] == b[0] && s[1..] == [] + core + b[1..];
      TrimPadded([], core, b[1..], cut);
    } else {
      var n := |b| - 1;
      assert s[0] == core[0] && s[|s| - 1] == b[n] && s[..|s| - 1] == a + core + b[..n];
      TrimPadded(a, core, b[..n], cut);
    }
  }

  lemma {:induction false} TrimSplits(s: string, cut: char -> bool) returns (a: string, b: string)
    ensures s == a + Trim(s, cut) + b && All(a, cut) && All(b, cut)
    ensures Trimmed(Trim(s, cut), cut)
    decreases |s|
  {
    if s != [] && cut(s[0]) {
      a, b := TrimSplits(s[1..], cut);
      a := [s[0]] + a;
    } else if s != [] && cut(s[|s| - 1]) {
      a, b := TrimSplits(s[..|s| - 1], cut);
      b := b + [s[|s| - 1]];
    } else {
      a, b := [], [];
    }
  }
}
