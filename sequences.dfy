/** The java.util list operations the router relies on, as functions on sequences. */
module Sequences {

  /** `Collections.reverse`: the last element first. */
  function Reverse<T>(s: seq<T>): (r: seq<T>)
    ensures |r| == |s|
    ensures forall i :: 0 <= i < |s| ==> r[i] == s[|s| - 1 - i]
  {
    if s == [] then [] else Reverse(s[1..]) + [s[0]]
  }

  /** Reversal keeps the elements, so a set or map built from a reversed list is unchanged. */
  lemma ReverseSameElements<T>(s: seq<T>)
    ensures multiset(Reverse(s)) == multiset(s)
  {
    if s != [] {
      ReverseSameElements(s[1..]);
      assert s == [s[0]] + s[1..];
    }
  }

  /** No element occurs twice. */
  predicate Distinct<T(==)>(s: seq<T>) {
    forall i, j :: 0 <= i < j < |s| ==> s[i] != s[j]
  }

  /** The position of the first occurrence of `x` (`List.indexOf`). */
  function FirstIndex<T(==)>(s: seq<T>, x: T): (k: nat)
    requires x in s
    ensures k < |s| && s[k] == x && forall j :: 0 <= j < k ==> s[j] != x
  {
    if s[0] == x then 0 else 1 + FirstIndex(s[1..], x)
  }

  /**
   * The list built by appending each element of `s` that the list does not yet
   * contain (`if (!list.contains(x)) list.add(x)`).
   */
  function Dedup<T(==)>(s: seq<T>): seq<T> {
    if s == [] then []
    else
      var d := Dedup(s[..|s| - 1]);
      if s[|s| - 1] in d then d else d + [s[|s| - 1]]
  }

  /** Deduplication keeps exactly the elements of the list. */
  lemma {:induction false} DedupSameElements<T>(s: seq<T>)
    ensures forall x :: x in Dedup(s) <==> x in s
  {
    if s != [] {
      DedupSameElements(s[..|s| - 1]);
      assert s == s[..|s| - 1] + [s[|s| - 1]];
    }
  }

  /** No element occurs twice in a deduplicated list. */
  lemma {:induction false} DedupDistinct<T>(s: seq<T>)
    ensures Distinct(Dedup(s))
  {
    if s != [] {
      DedupDistinct(s[..|s| - 1]);
    }
  }

  /** A list without repeats is its own deduplication; in particular deduplicating twice changes nothing. */
  lemma {:induction false} DedupOfDistinct<T>(s: seq<T>)
    requires Distinct(s)
    ensures Dedup(s) == s
  {
    if s != [] {
      var init := s[..|s| - 1];
      DedupOfDistinct(init);
      DedupSameElements(init);
      assert s[|s| - 1] !in init by {
        forall k | 0 <= k < |init|
          ensures init[k] != s[|s| - 1]
        {
          assert init[k] == s[k];
        }
      }
      assert s == init + [s[|s| - 1]];
    }
  }

  lemma DedupIdempotent<T>(s: seq<T>)
    ensures Dedup(Dedup(s)) == Dedup(s)
  {
    DedupDistinct(s);
    DedupOfDistinct(Dedup(s));
  }

  /** The elements of `d` come from `s`, in the order of their first occurrence in `s`. */
  ghost predicate InFirstSeenOrder<T>(s: seq<T>, d: seq<T>) {
    && (forall x :: x in d ==> x in s)
    && forall i, j :: 0 <= i < j < |d| ==> FirstIndex(s, d[i]) < FirstIndex(s, d[j])
  }

  /** The deduplicated list keeps the order in which the elements are first seen. */
  lemma {:induction false} DedupFirstSeenOrder<T>(s: seq<T>)
    ensures InFirstSeenOrder(s, Dedup(s))
  {
    if s != [] {
      var init := s[..|s| - 1];
      DedupFirstSeenOrder(init);
      assert s == init + [s[|s| - 1]];
      DedupOrderStep(init, s[|s| - 1]);
    }
  }

  lemma DedupOrderStep<T>(init: seq<T>, last: T)
    requires InFirstSeenOrder(init, Dedup(init))
    ensures InFirstSeenOrder(init + [last], Dedup(init + [last]))
  {
    var s := init + [last];
    var d := Dedup(init);
    DedupSameElements(init);
    DedupSameElements(s);
    assert s[..|s| - 1] == init;
    forall i, j | 0 <= i < j < |Dedup(s)|
      ensures FirstIndex(s, Dedup(s)[i]) < FirstIndex(s, Dedup(s)[j])
    {
      assert Dedup(s)[i] == d[i] && d[i] in init;
      FirstIndexOfPrefix(init, [last], d[i]);
      if j < |d| {
        assert Dedup(s)[j] == d[j] && d[j] in init;
        FirstIndexOfPrefix(init, [last], d[j]);
      } else {
        assert Dedup(s)[j] == last;
        FirstIndexOfLast(init, last);
      }
    }
  }

  /** An element not in the list is first found at the position it is appended at. */
  lemma FirstIndexOfLast<T>(a: seq<T>, x: T)
    requires x !in a
    ensures FirstIndex(a + [x], x) == |a|
  {
  }

  /** Appending to a list does not move the first occurrence of an element already in it. */
  lemma {:induction false} FirstIndexOfPrefix<T>(a: seq<T>, b: seq<T>, x: T)
    requires x in a
    ensures x in a + b && FirstIndex(a + b, x) == FirstIndex(a, x)
  {
    if a[0] != x {
      FirstIndexOfPrefix(a[1..], b, x);
      assert (a + b)[1..] == a[1..] + b;
    }
  }
}
