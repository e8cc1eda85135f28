/** The few java.lang.String queries the modelled code relies on. */
module Strings {

  /** `s.startsWith(p)` */
  predicate StartsWith(s: string, p: string) {
    |p| <= |s| && s[..|p|] == p
  }

  /** `sub` occurs in `s` starting at index `i`. */
  predicate OccursAt(s: string, sub: string, i: int) {
    0 <= i <= |s| - |sub| && s[i..i + |sub|] == sub
  }

  /** `s.contains(sub)`: some index at which `sub` occurs. */
  ghost predicate Contains(s: string, sub: string) {
    exists i :: 0 <= i && OccursAt(s, sub, i)
  }

  /** Searches for an occurrence of `sub` from index `from` onwards. */
  function IndexOfFrom(s: string, sub: string, from: nat): (r: int)
    requires from <= |s| + 1
    ensures r == -1 || (from <= r && OccursAt(s, sub, r))
    ensures r == -1 ==> forall i :: from <= i ==> !OccursAt(s, sub, i)
    decreases |s| + 1 - from
  {
    if from + |sub| > |s| then -1
    else if s[from..from + |sub|] == sub then from
    else IndexOfFrom(s, sub, from + 1)
  }

  /** `s.indexOf(sub) >= 0`, decided by a search; it agrees with `Contains`. */
  function ContainsText(s: string, sub: string): (b: bool)
    ensures b <==> Contains(s, sub)
  {
    var i := IndexOfFrom(s, sub, 0);
    if i == -1 then false else assert OccursAt(s, sub, i); true
  }

  /**
   * A total order on strings standing for Java's `compareTo`: lexicographic by
   * character, a proper prefix first. Characters are compared as Dafny code points,
   * where Java compares UTF-16 code units; the two orders differ only when a
   * character above U+FFFF meets one in U+E000-U+FFFF.
   */
  predicate LexLe(a: string, b: string) {
    if a == [] then true
    else if b == [] then false
    else if a[0] != b[0] then a[0] < b[0]
    else LexLe(a[1..], b[1..])
  }

  lemma {:induction false} LexLeReflexive(a: string)
    ensures LexLe(a, a)
  {
    if a != [] {
      LexLeReflexive(a[1..]);
    }
  }

  lemma {:induction false} LexLeTotal(a: string, b: string)
    ensures LexLe(a, b) || LexLe(b, a)
  {
    if a != [] && b != [] && a[0] == b[0] {
      LexLeTotal(a[1..], b[1..]);
    }
  }

  lemma {:induction false} LexLeAntisymmetric(a: string, b: string)
    requires LexLe(a, b) && LexLe(b, a)
    ensures a == b
  {
    if a != [] && b != [] {
      LexLeAntisymmetric(a[1..], b[1..]);
      assert a == [a[0]] + a[1..];
      assert b == [b[0]] + b[1..];
    }
  }

  lemma {:induction false} LexLeTransitive(a: string, b: string, c: string)
    requires LexLe(a, b) && LexLe(b, c)
    ensures LexLe(a, c)
  {
    if a != [] && b != [] && c != [] && a[0] == b[0] && b[0] == c[0] {
      LexLeTransitive(a[1..], b[1..], c[1..]);
    }
  }
}
