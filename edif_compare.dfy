/**
 * Text comparison of two EDIF netlists, ignoring their time stamps
 * (EquivalentEDIF.readEDIFLines and EquivalentEDIF.compareEDIFFiles).
 * A file is given as the sequence of lines a BufferedReader would return.
 */
module EquivalentEdif {
  import opened Strings

  /** A line that `readEDIFLines` drops: it holds a `(metax` or a `(timeStamp` record. */
  predicate IsVolatileLine(line: string) {
    ContainsText(line, "(metax") || ContainsText(line, "(timeStamp")
  }

  /** The lines of `file` that are kept, in file order. */
  function KeptLines(file: seq<string>): seq<string> {
    if file == [] then []
    else KeptLines(file[..|file| - 1]) + (if IsVolatileLine(file[|file| - 1]) then [] else [file[|file| - 1]])
  }

  /** The kept lines are exactly the non-volatile lines, each as often as in the file. */
  lemma {:induction false} KeptLinesCount(file: seq<string>, line: string)
    ensures multiset(KeptLines(file))[line] == if IsVolatileLine(line) then 0 else multiset(file)[line]
  {
    if file != [] {
      var init := file[..|file| - 1];
      KeptLinesCount(init, line);
      assert file == init + [file[|file| - 1]];
    }
  }

  /** The kept lines keep their relative order: they form a subsequence of the file. */
  lemma {:induction false} KeptLinesSubsequence(file: seq<string>, i: nat)
    requires i < |KeptLines(file)|
    ensures exists j ::
              && 0 <= j < |file| && file[j] == KeptLines(file)[i] && !IsVolatileLine(file[j])
              && KeptLines(file[..j]) == KeptLines(file)[..i]
  {
    var init := file[..|file| - 1];
    if i < |KeptLines(init)| {
      KeptLinesSubsequence(init, i);
      var j :| 0 <= j < |init| && init[j] == KeptLines(init)[i] && !IsVolatileLine(init[j])
               && KeptLines(init[..j]) == KeptLines(init)[..i];
      assert init[..j] == file[..j];
    } else {
      assert init == file[..|file| - 1];
    }
  }

  /** readEDIFLines over the lines of a file. */
  method ReadEdifLines(file: seq<string>) returns (lines: seq<string>)
    ensures lines == KeptLines(file)
  {
    lines := [];
    var i := 0;
    while i < |file|
      invariant 0 <= i <= |file|
      invariant lines == KeptLines(file[..i])
    {
      assert file[..i + 1][..i] == file[..i];
      var line := file[i];
      if ContainsText(line, "(metax") {
      } else if ContainsText(line, "(timeStamp") {
      } else {
        lines := lines + [line];
      }
      i := i + 1;
    }
    assert file[..i] == file;
  }

  /** `le` is a total order: what `Collections.sort` needs of the comparison it sorts by. */
  ghost predicate TotalOrder(le: (string, string) -> bool) {
    Total(le) && Antisymmetric(le) && Transitive(le)
  }

  ghost predicate Total(le: (string, string) -> bool) {
    forall a, b :: le(a, b) || le(b, a)
  }

  ghost predicate Antisymmetric(le: (string, string) -> bool) {
    forall a, b :: le(a, b) && le(b, a) ==> a == b
  }

  ghost predicate Transitive(le: (string, string) -> bool) {
    forall a, b, c :: le(a, b) && le(b, c) ==> le(a, c)
  }

  /** String.compareTo's order is a total order. */
  lemma LexLeIsTotalOrder()
    ensures TotalOrder(LexLe)
  {
    forall a, b ensures LexLe(a, b) || LexLe(b, a) { LexLeTotal(a, b); }
    forall a, b | LexLe(a, b) && LexLe(b, a) ensures a == b { LexLeAntisymmetric(a, b); }
    forall a, b, c | LexLe(a, b) && LexLe(b, c) ensures LexLe(a, c) { LexLeTransitive(a, b, c); }
  }

  predicate SortedBy(le: (string, string) -> bool, s: seq<string>) {
    forall i, j :: 0 <= i < j < |s| ==> le(s[i], s[j])
  }

  /** Inserts `x` in front of the first element it does not follow. */
  function Insert(le: (string, string) -> bool, x: string, s: seq<string>): (r: seq<string>)
    ensures multiset(r) == multiset(s) + multiset{x}
  {
    if s == [] then [x]
    else if le(x, s[0]) then [x] + s
    else
      assert s == [s[0]] + s[1..];
      [s[0]] + Insert(le, x, s[1..])
  }

  /** Inserting into a sorted list keeps it sorted. */
  lemma {:induction false} InsertSorted(le: (string, string) -> bool, x: string, s: seq<string>)
    requires Total(le) && Transitive(le) && SortedBy(le, s)
    ensures SortedBy(le, Insert(le, x, s))
  {
    if s != [] && le(x, s[0]) {
      forall k | 0 <= k < |s| ensures le(x, s[k]) {
        if k > 0 { assert le(s[0], s[k]); }
      }
    } else if s != [] {
      var rest := Insert(le, x, s[1..]);
      InsertSorted(le, x, s[1..]);
      forall k | 0 <= k < |rest| ensures le(s[0], rest[k]) {
        assert rest[k] in multiset(rest);
        assert rest[k] == x || rest[k] in multiset(s[1..]);
        if rest[k] != x {
          var m :| 0 <= m < |s[1..]| && s[1..][m] == rest[k];
          assert s[m + 1] == rest[k];
        }
      }
    }
  }

  /** `Collections.sort`: insertion of each element into the sorted rest. */
  function Sort(le: (string, string) -> bool, s: seq<string>): (r: seq<string>)
    ensures multiset(r) == multiset(s)
  {
    if s == [] then []
    else
      assert s == [s[0]] + s[1..];
      Insert(le, s[0], Sort(le, s[1..]))
  }

  /** Sorting by a total order yields a sorted list. */
  lemma {:induction false} SortSorted(le: (string, string) -> bool, s: seq<string>)
    requires Total(le) && Transitive(le)
    ensures SortedBy(le, Sort(le, s))
  {
    if s != [] {
      SortSorted(le, s[1..]);
      InsertSorted(le, s[0], Sort(le, s[1..]));
    }
  }

  /** Two sorted lists holding the same lines are the same list. */
  lemma {:induction false} SortedUnique(le: (string, string) -> bool, a: seq<string>, b: seq<string>)
    requires Antisymmetric(le)
    requires SortedBy(le, a) && SortedBy(le, b)
    requires multiset(a) == multiset(b)
    ensures a == b
  {
    if a != [] {
      assert b != [] by { assert |multiset(a)| == |multiset(b)|; }
      SortedHeadsEqual(le, a, b);
      SameTails(a, b);
      SortedUnique(le, a[1..], b[1..]);
      assert a == [a[0]] + a[1..] && b == [b[0]] + b[1..];
    }
  }

  /** Dropping the same first line from two lists with the same lines leaves the same lines. */
  lemma SameTails(a: seq<string>, b: seq<string>)
    requires a != [] && b != [] && a[0] == b[0]
    requires multiset(a) == multiset(b)
    ensures multiset(a[1..]) == multiset(b[1..])
  {
    var x := a[0];
    assert a == [x] + a[1..] && b == [x] + b[1..];
    assert multiset(a) == multiset{x} + multiset(a[1..]);
    assert multiset(b) == multiset{x} + multiset(b[1..]);
    forall z ensures multiset(a[1..])[z] == multiset(b[1..])[z] {
      assert multiset(a)[z] == multiset(b)[z];
    }
  }

  /** Two non-empty sorted lists holding the same lines start with the same line. */
  lemma SortedHeadsEqual(le: (string, string) -> bool, a: seq<string>, b: seq<string>)
    requires Antisymmetric(le)
    requires SortedBy(le, a) && SortedBy(le, b)
    requires a != [] && b != [] && multiset(a) == multiset(b)
    ensures a[0] == b[0]
  {
    var x, y := a[0], b[0];
    assert x in multiset(b) && y in multiset(a);
    var i :| 0 <= i < |b| && b[i] == x;
    var j :| 0 <= j < |a| && a[j] == y;
    assert y == x || le(y, x) by { if i != 0 { assert le(b[0], b[i]); } }
    assert x == y || le(x, y) by { if j != 0 { assert le(a[0], a[j]); } }
  }

  /** `Collections.sort` on a list of lines, ordered by `String.compareTo`. */
  method SortLines(lines: seq<string>) returns (sorted: seq<string>)
    ensures SortedBy(LexLe, sorted)
    ensures multiset(sorted) == multiset(lines)
  {
    LexLeIsTotalOrder();
    SortSorted(LexLe, lines);
    sorted := Sort(LexLe, lines);
  }

  /** Lines sorted by `String.compareTo` are equal lists exactly when they hold the same lines. */
  lemma LexSortedEqualIff(a: seq<string>, b: seq<string>)
    requires SortedBy(LexLe, a) && SortedBy(LexLe, b)
    ensures a == b <==> multiset(a) == multiset(b)
  {
    if multiset(a) == multiset(b) {
      LexLeIsTotalOrder();
      SortedUnique(LexLe, a, b);
    }
  }

  /**
   * compareEDIFFiles: both files' kept lines are sorted and compared line by line.
   * The answer is that the two files hold the same kept lines, each as often.
   */
  method CompareEdifFiles(golden: seq<string>, test: seq<string>) returns (equal: bool)
    ensures equal <==> multiset(KeptLines(golden)) == multiset(KeptLines(test))
  {
    var goldenLines := ReadEdifLines(golden);
    var testLines := ReadEdifLines(test);
    goldenLines := SortLines(goldenLines);
    testLines := SortLines(testLines);
    equal := SameLines(goldenLines, testLines);
    LexSortedEqualIff(goldenLines, testLines);
  }

  /** The size check and the line-by-line loop of compareEDIFFiles: true exactly when the two lists are equal. */
  method SameLines(goldenLines: seq<string>, testLines: seq<string>) returns (equal: bool)
    ensures equal <==> goldenLines == testLines
  {
    if |goldenLines| != |testLines| {
      return false;
    }
    var length := |goldenLines|;
    var i := 0;
    while i < length
      invariant 0 <= i <= length
      invariant forall k :: 0 <= k < i ==> goldenLines[k] == testLines[k]
    {
      if goldenLines[i] != testLines[i] {
        return false;
      }
      i := i + 1;
    }
    assert goldenLines == testLines;
    return true;
  }

  /** The comparison ignores line order: permuting a file's lines does not change its kept lines' multiset. */
  lemma PermutedFileSameKeptLines(file: seq<string>, permuted: seq<string>)
    requires multiset(file) == multiset(permuted)
    ensures multiset(KeptLines(file)) == multiset(KeptLines(permuted))
  {
    forall line ensures multiset(KeptLines(file))[line] == multiset(KeptLines(permuted))[line] {
      KeptLinesCount(file, line);
      KeptLinesCount(permuted, line);
    }
  }

  /** Two files whose non-volatile lines differ in number are never reported equal. */
  lemma {:induction false} KeptCountsDiffer(golden: seq<string>, test: seq<string>)
    requires |KeptLines(golden)| != |KeptLines(test)|
    ensures multiset(KeptLines(golden)) != multiset(KeptLines(test))
  {
    assert |multiset(KeptLines(golden))| == |KeptLines(golden)|;
    assert |multiset(KeptLines(test))| == |KeptLines(test)|;
  }
}
