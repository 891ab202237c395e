/** Small generic helpers used by several components. */
module Prelude {

  datatype Option<+T> = None | Some(value: T)

  /** The elements of `s` that satisfy `keep`, in order. */
  function Filter<T>(s: seq<T>, keep: T -> bool): seq<T> {
    if s == [] then []
    else if keep(s[0]) then [s[0]] + Filter(s[1..], keep)
    else Filter(s[1..], keep)
  }

  lemma {:induction false} FilterConcat<T>(a: seq<T>, b: seq<T>, keep: T -> bool)
    ensures Filter(a + b, keep) == Filter(a, keep) + Filter(b, keep)
  {
    if a == [] {
      assert a + b == b;
    } else {
      assert (a + b)[1..] == a[1..] + b;
      FilterConcat(a[1..], b, keep);
    }
  }

  /** A filter keeps everything when every element passes, and nothing when none does. */
  lemma {:induction false} FilterAllOrNone<T>(s: seq<T>, keep: T -> bool)
    ensures (forall x | x in s :: keep(x)) ==> Filter(s, keep) == s
    ensures (forall x | x in s :: !keep(x)) ==> Filter(s, keep) == []
  {
    if s != [] {
      FilterAllOrNone(s[1..], keep);
      assert s == [s[0]] + s[1..];
      assert forall x | x in s[1..] :: x in s;
      assert s[0] in s;
    }
  }

  lemma Associates<T>(x: seq<T>, y: seq<T>, z: seq<T>)
    ensures x + (y + z) == (x + y) + z
  {
  }

  predicate Distinct<T(==)>(s: seq<T>) {
    forall i, j | 0 <= i < j < |s| :: s[i] != s[j]
  }

  /** The white space of ECMAScript: what `\s` matches and `trim` removes. */
  predicate IsSpace(c: char) {
    '\U{9}' <= c <= '\U{d}' || c == ' ' || c == '\U{a0}' || c == '\U{1680}' || '\U{2000}' <= c <= '\U{200a}'
    || c == '\U{2028}' || c == '\U{2029}' || c == '\U{202f}' || c == '\U{205f}' || c == '\U{3000}' || c == '\U{feff}'
  }

  predicate Contains(s: string, part: string) {
    exists i | 0 <= i <= |s| :: part <= s[i..]
  }
}
