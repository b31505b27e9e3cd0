/** Sequence and string helpers shared by the rest of the model: concatenation
    of parts, Python's clamping slice, and Python's str.startswith/endswith. */
module Seqs {

  /** The parts laid end to end, in order (Python's `''.join(parts)` for
      strings, `sum(parts, [])` for lists). */
  function Flatten<T>(parts: seq<seq<T>>): seq<T>
  {
    if parts == [] then [] else parts[0] + Flatten(parts[1..])
  }

  /** Appending one more part appends its elements at the end. */
  lemma {:induction false} FlattenSnoc<T>(parts: seq<seq<T>>, last: seq<T>)
    ensures Flatten(parts + [last]) == Flatten(parts) + last
  {
    if parts == [] {
      assert parts + [last] == [last];
      assert [last][1..] == [];
    } else {
      assert (parts + [last])[0] == parts[0];
      assert (parts + [last])[1..] == parts[1..] + [last];
      FlattenSnoc(parts[1..], last);
    }
  }

  /** A longer prefix of the parts adds the next part at the end. */
  lemma FlattenPrefixSnoc<T>(parts: seq<seq<T>>, j: nat)
    requires 0 < j <= |parts|
    ensures Flatten(parts[..j]) == Flatten(parts[..j - 1]) + parts[j - 1]
  {
    assert parts[..j] == parts[..j - 1] + [parts[j - 1]];
    FlattenSnoc(parts[..j - 1], parts[j - 1]);
  }

  /** Concatenation regrouped; Dafny does not apply this step on its own. */
  lemma AppendAssoc<T>(a: seq<T>, b: seq<T>, c: seq<T>)
    ensures a + b + c == a + (b + c)
  {
  }

  function Min(a: int, b: int): int { if a <= b then a else b }

  /** Python's `s[lo:hi]` for non-negative bounds: both ends are clamped to
      the length of `s`. */
  function PySlice<T>(s: seq<T>, lo: nat, hi: nat): (r: seq<T>)
    requires lo <= hi
    ensures hi <= |s| ==> r == s[lo..hi]
    ensures lo <= |s| < hi ==> r == s[lo..]
    ensures |s| < lo ==> r == []
  {
    s[Min(lo, |s|)..Min(hi, |s|)]
  }

  /** Python's `s.startswith(p)`. */
  predicate StartsWith<T(==)>(s: seq<T>, p: seq<T>)
  {
    |p| <= |s| && s[..|p|] == p
  }

  /** Python's `s.endswith(p)`. */
  predicate EndsWith<T(==)>(s: seq<T>, p: seq<T>)
  {
    |p| <= |s| && s[|s| - |p|..] == p
  }
}
