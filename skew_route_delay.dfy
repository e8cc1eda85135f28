/**
 * The clock skew / route / delay template file reader (ClkSkewsAndRouteDelays).
 *
 * The file is read line by line through one reader that all three sections share:
 * first the line "skew" is searched for and skew records are read up to the first
 * empty line, then "route", then "delay". Records are split on runs of whitespace
 * (`String.split("\\s+")`) and numbers are read with `Short.parseShort`.
 * The file itself becomes a sequence of lines handed to a `LineReader`.
 */
module SkewRouteDelay {
  import opened Wrappers
  import opened Strings

  // ---------------------------------------------------------------------------
  // String.split("\\s+")
  // ---------------------------------------------------------------------------

  /** The characters of the regular-expression class `\s`: space, \t, \n, \u000B, \f, \r. */
  predicate IsSpace(c: char) {
    c == ' ' || c == '\t' || c == '\n' || c == '\r' || c as int == 0x0B || c as int == 0x0C
  }

  /** `s` holds no whitespace character: the regular expression matches nowhere in it. */
  predicate NoSpace(s: string) {
    s == [] || (!IsSpace(s[0]) && NoSpace(s[1..]))
  }

  lemma {:induction false} NoSpaceAt(s: string, i: nat)
    requires NoSpace(s) && i < |s|
    ensures !IsSpace(s[i])
  {
    if i > 0 {
      NoSpaceAt(s[1..], i - 1);
    }
  }

  /** Drops the run of whitespace that `s` starts with. */
  function DropSpaces(s: string): (r: string)
    ensures |r| <= |s|
    ensures r == [] || !IsSpace(r[0])
    ensures r == s[|s| - |r|..]
  {
    if s != [] && IsSpace(s[0]) then DropSpaces(s[1..]) else s
  }

  /** What `DropSpaces` removes is whitespace only. */
  lemma {:induction false} DropSpacesDropsSpaces(s: string)
    ensures forall i :: 0 <= i < |s| - |DropSpaces(s)| ==> IsSpace(s[i])
  {
    if s != [] && IsSpace(s[0]) {
      DropSpacesDropsSpaces(s[1..]);
    }
  }

  /**
   * The pieces of `s` between its maximal whitespace runs. A leading run yields a
   * leading empty piece and a trailing run a trailing empty piece.
   */
  function Pieces(s: string): (r: seq<string>)
    ensures |r| >= 1
    decreases |s|
  {
    if s == [] then [""]
    else if IsSpace(s[0]) then [""] + Pieces(DropSpaces(s))
    else
      var rest := Pieces(s[1..]);
      [[s[0]] + rest[0]] + rest[1..]
  }

  /** Removes the empty strings at the end of a list, as `String.split` does. */
  function DropTrailingEmpty(r: seq<string>): (t: seq<string>)
    ensures |t| <= |r| && t == r[..|t|]
    ensures t == [] || t[|t| - 1] != ""
  {
    if r != [] && r[|r| - 1] == "" then DropTrailingEmpty(r[..|r| - 1]) else r
  }

  /** A non-empty entry and everything before it survive `DropTrailingEmpty`. */
  lemma {:induction false} DropTrailingEmptyKeeps(r: seq<string>, k: nat)
    requires k < |r| && r[k] != ""
    ensures |DropTrailingEmpty(r)| > k
  {
    if r[|r| - 1] == "" {
      DropTrailingEmptyKeeps(r[..|r| - 1], k);
    }
  }

  /** `s.split("\\s+")`: a string without whitespace comes back whole (even the empty string). */
  function Split(s: string): seq<string> {
    if NoSpace(s) then [s] else DropTrailingEmpty(Pieces(s))
  }

  /** No piece holds whitespace, and only the first and the last piece can be empty. */
  ghost predicate PiecesShaped(s: string) {
    && (forall k :: 0 <= k < |Pieces(s)| ==> NoSpace(Pieces(s)[k]))
    && (forall k :: 0 < k < |Pieces(s)| - 1 ==> Pieces(s)[k] != "")
    && (Pieces(s)[0] == "" <==> s == [] || IsSpace(s[0]))
  }

  lemma {:induction false} PiecesShape(s: string)
    ensures forall k :: 0 <= k < |Pieces(s)| ==> NoSpace(Pieces(s)[k])
    ensures forall k :: 0 < k < |Pieces(s)| - 1 ==> Pieces(s)[k] != ""
    ensures Pieces(s)[0] == "" <==> s == [] || IsSpace(s[0])
    decreases |s|
  {
    if s == [] {
    } else if IsSpace(s[0]) {
      PiecesShape(DropSpaces(s));
      PiecesShapeAfterSpaces(s);
    } else {
      PiecesShape(s[1..]);
      PiecesShapeAfterChar(s);
    }
  }

  /** A leading whitespace run adds an empty first piece in front of the pieces of the rest. */
  lemma PiecesShapeAfterSpaces(s: string)
    requires s != [] && IsSpace(s[0]) && PiecesShaped(DropSpaces(s))
    ensures PiecesShaped(s)
  {
    var t := DropSpaces(s);
    var r := Pieces(s);
    assert r == [""] + Pieces(t);
    forall k | 0 < k < |r| - 1 ensures r[k] != "" {
      if k == 1 {
        assert r[1] == Pieces(t)[0];
        assert t != [] && !IsSpace(t[0]);
      } else {
        assert r[k] == Pieces(t)[k - 1];
      }
    }
  }

  /** A leading non-space character joins the first piece of the rest. */
  lemma PiecesShapeAfterChar(s: string)
    requires s != [] && !IsSpace(s[0]) && PiecesShaped(s[1..])
    ensures PiecesShaped(s)
  {
    var rest := Pieces(s[1..]);
    var r := Pieces(s);
    assert r == [[s[0]] + rest[0]] + rest[1..];
    assert r[0][1..] == rest[0];
    forall k | 0 <= k < |r| ensures NoSpace(r[k]) {
      if k > 0 {
        assert r[k] == rest[k];
      }
    }
    forall k | 0 < k < |r| - 1 ensures r[k] != "" {
      assert r[k] == rest[k];
    }
  }

  /** Dropping trailing empty pieces keeps the shape that `PiecesShape` states. */
  lemma TrimmedPiecesShape(p: seq<string>)
    requires forall k :: 0 <= k < |p| ==> NoSpace(p[k])
    requires forall k :: 0 < k < |p| - 1 ==> p[k] != ""
    ensures forall k :: 0 <= k < |DropTrailingEmpty(p)| ==> NoSpace(DropTrailingEmpty(p)[k])
    ensures forall k :: 0 < k < |DropTrailingEmpty(p)| ==> DropTrailingEmpty(p)[k] != ""
  {
    var t := DropTrailingEmpty(p);
    forall k | 0 <= k < |t| ensures NoSpace(t[k]) && (k > 0 ==> t[k] != "") {
      assert t[k] == p[k];
    }
  }

  /** Every token of a split is free of whitespace, and every token but the first is non-empty. */
  lemma SplitTokens(s: string)
    ensures forall k :: 0 <= k < |Split(s)| ==> NoSpace(Split(s)[k])
    ensures forall k :: 0 < k < |Split(s)| ==> Split(s)[k] != ""
  {
    if !NoSpace(s) {
      PiecesShape(s);
      TrimmedPiecesShape(Pieces(s));
    }
  }

  /** The tokens of a line that starts with whitespace start with an empty token. */
  lemma LeadingSpaceGivesEmptyToken(s: string)
    requires s != [] && IsSpace(s[0])
    requires exists i :: 0 <= i < |s| && !IsSpace(s[i])
    ensures |Split(s)| >= 2 && Split(s)[0] == ""
  {
    var i :| 0 <= i < |s| && !IsSpace(s[i]);
    var t := DropSpaces(s);
    assert |t| > 0 by {
      DropSpacesDropsSpaces(s);
    }
    var p := Pieces(s);
    assert p == [""] + Pieces(t);
    assert p[1] != "" by {
      PiecesShape(t);
    }
    DropTrailingEmptyKeeps(p, 1);
  }

  /** Tokens written out with one space between them. */
  function JoinWords(words: seq<string>): string
    requires words != []
  {
    if |words| == 1 then words[0] else words[0] + " " + JoinWords(words[1..])
  }

  /** Splitting a whitespace-free string prepended to `t` glues it to the first piece of `t`. */
  lemma {:induction false} PiecesPrepend(w: string, t: string)
    requires NoSpace(w)
    ensures Pieces(w + t) == [w + Pieces(t)[0]] + Pieces(t)[1..]
    decreases |w|
  {
    if w == [] {
      assert w + t == t;
      assert w + Pieces(t)[0] == Pieces(t)[0];
      assert Pieces(t) == [Pieces(t)[0]] + Pieces(t)[1..];
    } else {
      var s := w + t;
      var first := Pieces(t)[0];
      var rest := Pieces(s[1..]);
      assert rest[0] == w[1..] + first && rest[1..] == Pieces(t)[1..] by {
        assert s[1..] == w[1..] + t;
        PiecesPrepend(w[1..], t);
      }
      assert Pieces(s) == [[s[0]] + rest[0]] + rest[1..] by {
        assert s[0] == w[0] && !IsSpace(s[0]);
      }
      assert [w[0]] + (w[1..] + first) == w + first;
    }
  }

  /** The words are non-empty and free of whitespace. */
  predicate AreWords(words: seq<string>) {
    forall k :: 0 <= k < |words| ==> words[k] != "" && NoSpace(words[k])
  }

  /** Pieces of non-empty, whitespace-free words joined by single spaces are those words. */
  lemma {:induction false} PiecesOfJoin(words: seq<string>)
    requires words != [] && AreWords(words)
    ensures Pieces(JoinWords(words)) == words
  {
    if |words| == 1 {
      PiecesPrepend(words[0], "");
      assert words[0] + "" == words[0];
    } else {
      AreWordsTail(words);
      PiecesOfJoin(words[1..]);
      PiecesOfJoinStep(words);
    }
  }

  lemma AreWordsTail(words: seq<string>)
    requires words != [] && AreWords(words)
    ensures AreWords(words[1..])
  {
    var tail := words[1..];
    forall k | 0 <= k < |tail| ensures tail[k] != "" && NoSpace(tail[k]) {
      assert tail[k] == words[k + 1];
    }
  }

  /** A word joined in front of words that split back to themselves splits off as the first piece. */
  lemma PiecesOfJoinStep(words: seq<string>)
    requires |words| > 1 && AreWords(words) && AreWords(words[1..])
    requires Pieces(JoinWords(words[1..])) == words[1..]
    ensures Pieces(JoinWords(words)) == words
  {
    var w, tail := words[0], words[1..];
    assert words == [w] + tail;
    var spaced := " " + JoinWords(tail);
    assert JoinWords(words) == w + spaced;
    SpacedPieces(tail);
    PrependWord(w, spaced, tail);
  }

  /** A whitespace-free word in front of text whose first piece is empty becomes that first piece. */
  lemma PrependWord(w: string, t: string, tail: seq<string>)
    requires NoSpace(w) && Pieces(t) == [""] + tail
    ensures Pieces(w + t) == [w] + tail
  {
    PiecesPrepend(w, t);
    assert w + Pieces(t)[0] == w;
    assert Pieces(t)[1..] == tail;
  }

  /** A single space before joined words adds an empty first piece. */
  lemma SpacedPieces(words: seq<string>)
    requires words != [] && AreWords(words) && Pieces(JoinWords(words)) == words
    ensures Pieces(" " + JoinWords(words)) == [""] + words
  {
    var rest := JoinWords(words);
    JoinStartsWithFirstWord(words);
    NoSpaceAt(words[0], 0);
    assert rest[0] == words[0][0];
    assert (" " + rest)[1..] == rest;
    assert DropSpaces(" " + rest) == rest;
  }

  lemma {:induction false} JoinStartsWithFirstWord(words: seq<string>)
    requires words != [] && words[0] != ""
    ensures |JoinWords(words)| >= |words[0]| && JoinWords(words)[..|words[0]|] == words[0]
  {
    if |words| > 1 {
      assert JoinWords(words) == words[0] + (" " + JoinWords(words[1..]));
    }
  }

  /** Round trip: splitting non-empty whitespace-free words joined by single spaces gives the words back. */
  lemma SplitJoin(words: seq<string>)
    requires words != [] && AreWords(words)
    ensures Split(JoinWords(words)) == words
  {
    var joined := JoinWords(words);
    if |words| == 1 {
      assert joined == words[0] && NoSpace(words[0]);
    } else {
      assert !NoSpace(joined) by {
        assert joined == words[0] + (" " + JoinWords(words[1..]));
        assert joined[|words[0]|] == ' ';
        if NoSpace(joined) {
          NoSpaceAt(joined, |words[0]|);
        }
      }
      PiecesOfJoin(words);
      assert words[|words| - 1] != "";
    }
  }

  // ---------------------------------------------------------------------------
  // Short.parseShort
  // ---------------------------------------------------------------------------

  const MinShort: int := -32768
  const MaxShort: int := 32767

  predicate IsDigit(c: char) {
    '0' <= c <= '9'
  }

  predicate AllDigits(s: string) {
    forall i :: 0 <= i < |s| ==> IsDigit(s[i])
  }

  /** The value of a string of decimal digits. */
  function DigitsValue(s: string): nat
    requires AllDigits(s)
  {
    if s == [] then 0
    else DigitsValue(s[..|s| - 1]) * 10 + (s[|s| - 1] as int - '0' as int)
  }

  /**
   * `Short.parseShort(s)`: an optional sign, then at least one decimal digit, the
   * value within the 16-bit range; anything else is a NumberFormatException (None).
   */
  function ParseShort(s: string): (r: Option<int>)
    ensures r.Some? ==> MinShort <= r.value <= MaxShort
    ensures r.Some? ==> s != [] && (IsDigit(s[0]) || s[0] == '-' || s[0] == '+')
  {
    var signed := s != [] && (s[0] == '-' || s[0] == '+');
    var digits := if signed then s[1..] else s;
    if digits == [] || !AllDigits(digits) then None
    else
      var magnitude: int := DigitsValue(digits);
      var v: int := if s[0] == '-' then -magnitude else magnitude;
      if MinShort <= v <= MaxShort then Some(v) else None
  }

  /** The decimal digits of `n`, most significant first. */
  function Decimal(n: nat): (s: string)
    ensures s != [] && AllDigits(s)
  {
    if n < 10 then ['0' + n as char] else Decimal(n / 10) + ['0' + (n % 10) as char]
  }

  lemma {:induction false} DecimalValue(n: nat)
    ensures DigitsValue(Decimal(n)) == n
  {
    if n >= 10 {
      DecimalValue(n / 10);
      var s := Decimal(n);
      assert s[..|s| - 1] == Decimal(n / 10);
    }
  }

  /** `Short.toString(v)` */
  function ShortToString(v: int): string {
    if v < 0 then "-" + Decimal(-v) else Decimal(v)
  }

  /** Round trip: every 16-bit value is read back from its decimal form. */
  lemma ParseShortToString(v: int)
    requires MinShort <= v <= MaxShort
    ensures ParseShort(ShortToString(v)) == Some(v)
  {
    var s := ShortToString(v);
    if v < 0 {
      var d := Decimal(-v);
      DecimalValue(-v);
      assert s == "-" + d;
      assert s[0] == '-' && s[1..] == d;
    } else {
      var d := Decimal(v);
      DecimalValue(v);
      assert s == d && IsDigit(s[0]);
    }
  }

  lemma {:induction false} DigitsHaveNoSpace(s: string)
    requires AllDigits(s)
    ensures NoSpace(s)
  {
    if s != [] {
      DigitsHaveNoSpace(s[1..]);
    }
  }

  /** The text of a short is a non-empty word without whitespace. */
  lemma ShortTextIsWord(v: int)
    ensures ShortToString(v) != "" && NoSpace(ShortToString(v))
  {
    var d := Decimal(if v < 0 then -v else v);
    DigitsHaveNoSpace(d);
    if v < 0 {
      assert ShortToString(v)[1..] == d;
    }
  }

  /** Every decimal text of a value outside [-32768, 32767] is rejected, with or without a sign. */
  lemma ParseShortRejectsOverflow(n: nat)
    ensures n > MaxShort ==> ParseShort(Decimal(n)) == None && ParseShort("+" + Decimal(n)) == None
    ensures n > -MinShort ==> ParseShort("-" + Decimal(n)) == None
  {
    var d := Decimal(n);
    DecimalValue(n);
    assert !(d[0] == '-' || d[0] == '+');
    assert ("+" + d)[1..] == d && ("-" + d)[1..] == d;
  }

  // ---------------------------------------------------------------------------
  // Records
  // ---------------------------------------------------------------------------

  /** The exceptions that end parsing. */
  datatype ParseError =
    | MissingSection(section: string)   // IllegalArgumentException: no header line
    | IncompleteLine(line: string)      // IllegalArgumentException: too few tokens
    | BadNumber(token: string)          // NumberFormatException from Short.parseShort

  /** A skew or delay key: (clock region, clock region) or (clock region, buffer site). */
  type PairKey = (string, string)

  /** The tokens parsed as shorts, in order; the first token that is not one is the error. */
  function ParseShorts(tokens: seq<string>): (r: Result<seq<int>, ParseError>)
    ensures r.Ok? ==> |r.value| == |tokens| && forall k :: 0 <= k < |tokens| ==> MinShort <= r.value[k] <= MaxShort
    ensures r.Err? ==> r.error.BadNumber? && r.error.token in tokens
  {
    if tokens == [] then Ok([])
    else
      var last := tokens[|tokens| - 1];
      match ParseShorts(tokens[..|tokens| - 1])
      case Err(e) => Err(e)
      case Ok(vs) =>
        match ParseShort(last)
        case None => Err(BadNumber(last))
        case Some(v) => Ok(vs + [v])
  }

  /** The values are read exactly when every token is a short, each value from its own token; otherwise the error names a bad token. */
  lemma {:induction false} ParseShortsOutcome(tokens: seq<string>)
    ensures ParseShorts(tokens).Ok? <==> forall i :: 0 <= i < |tokens| ==> ParseShort(tokens[i]).Some?
    ensures ParseShorts(tokens).Ok? ==>
              |ParseShorts(tokens).value| == |tokens|
              && forall i :: 0 <= i < |tokens| ==> ParseShorts(tokens).value[i] == ParseShort(tokens[i]).value
    ensures ParseShorts(tokens).Err? ==>
              exists i :: 0 <= i < |tokens| && ParseShort(tokens[i]).None? && ParseShorts(tokens).error == BadNumber(tokens[i])
  {
    if tokens != [] {
      var init := tokens[..|tokens| - 1];
      ParseShortsOutcome(init);
      assert forall i :: 0 <= i < |init| ==> init[i] == tokens[i];
    }
  }

  /** A skew or delay record: two key tokens and at least one short. */
  function SkewDelayRecord(line: string): (r: Result<(PairKey, seq<int>), ParseError>)
    ensures r.Ok? ==> |Split(line)| > 2 && r.value.0 == (Split(line)[0], Split(line)[1])
    ensures |Split(line)| <= 2 ==> r == Err(IncompleteLine(line))
  {
    var tokens := Split(line);
    if |tokens| <= 2 then Err(IncompleteLine(line))
    else
      match ParseShorts(tokens[2..])
      case Err(e) => Err(e)
      case Ok(values) => Ok(((tokens[0], tokens[1]), values))
  }

  /** A route record: a destination and at least one node name. */
  function RouteRecord(line: string): Result<(string, seq<string>), ParseError> {
    var tokens := Split(line);
    if |tokens| <= 1 then Err(IncompleteLine(line))
    else Ok((tokens[0], tokens[1..]))
  }

  /** A route record needs more than one token; its key followed by its values is the token list. */
  lemma RouteRecordTokens(line: string)
    ensures RouteRecord(line).Ok? <==> |Split(line)| > 1
    ensures RouteRecord(line).Ok? ==> [RouteRecord(line).value.0] + RouteRecord(line).value.1 == Split(line)
    ensures RouteRecord(line).Err? ==> RouteRecord(line).error == IncompleteLine(line)
  {
    var tokens := Split(line);
    if |tokens| > 1 {
      assert tokens == [tokens[0]] + tokens[1..];
    }
  }

  /** The decimal texts of a list of shorts. */
  function ShortTexts(values: seq<int>): (texts: seq<string>)
    ensures |texts| == |values|
    ensures forall i :: 0 <= i < |values| ==> texts[i] == ShortToString(values[i])
  {
    if values == [] then []
    else ShortTexts(values[..|values| - 1]) + [ShortToString(values[|values| - 1])]
  }

  lemma ParseShortsSnoc(texts: seq<string>, t: string, vs: seq<int>, v: int)
    requires ParseShorts(texts) == Ok(vs) && ParseShort(t) == Some(v)
    ensures ParseShorts(texts + [t]) == Ok(vs + [v])
  {
    assert (texts + [t])[..|texts|] == texts;
  }

  /** Round trip: the texts of 16-bit values read back as those values. */
  lemma {:induction false} ParseShortsOfTexts(values: seq<int>)
    requires forall i :: 0 <= i < |values| ==> MinShort <= values[i] <= MaxShort
    ensures ParseShorts(ShortTexts(values)) == Ok(values)
  {
    if values != [] {
      var init := values[..|values| - 1];
      var last := values[|values| - 1];
      assert init + [last] == values;
      ParseShortsOfTexts(init);
      ParseShortToString(last);
      ParseShortsSnoc(ShortTexts(init), ShortToString(last), init, last);
    }
  }

  /** Round trip: a skew or delay record written out with single spaces reads back as its key and values. */
  lemma SkewDelayRecordRoundTrip(a: string, b: string, values: seq<int>)
    requires a != "" && b != "" && NoSpace(a) && NoSpace(b) && values != []
    requires forall i :: 0 <= i < |values| ==> MinShort <= values[i] <= MaxShort
    ensures SkewDelayRecord(JoinWords([a, b] + ShortTexts(values))) == Ok(((a, b), values))
  {
    var texts := ShortTexts(values);
    var words := [a, b] + texts;
    assert AreWords(words) by {
      forall k | 0 <= k < |words| ensures words[k] != "" && NoSpace(words[k]) {
        if k >= 2 {
          assert words[k] == texts[k - 2];
          ShortTextIsWord(values[k - 2]);
        }
      }
    }
    SplitJoin(words);
    assert words[2..] == texts;
    ParseShortsOfTexts(values);
  }

  // ---------------------------------------------------------------------------
  // Sections
  // ---------------------------------------------------------------------------

  predicate IsComment(line: string) {
    StartsWith(line, "#")
  }

  /** A line of a section that holds data: neither empty nor a comment. */
  predicate IsRecordLine(line: string) {
    line != "" && !IsComment(line)
  }

  /** The cursor just past a section that starts at `pos`: past its first empty line, or at the end of the file. */
  function SectionEnd(lines: seq<string>, pos: nat): (end: nat)
    requires pos <= |lines|
    ensures pos <= end <= |lines|
    ensures end == |lines| || (pos < end && lines[end - 1] == "")
    decreases |lines| - pos
  {
    if pos == |lines| then pos
    else if lines[pos] == "" then pos + 1
    else SectionEnd(lines, pos + 1)
  }

  /** A section runs to its first empty line: no line before that one is empty. */
  lemma {:induction false} SectionEndIsFirstEmptyLine(lines: seq<string>, pos: nat)
    requires pos <= |lines|
    ensures forall i :: pos <= i < SectionEnd(lines, pos) - 1 ==> lines[i] != ""
    decreases |lines| - pos
  {
    if pos < |lines| && lines[pos] != "" {
      SectionEndIsFirstEmptyLine(lines, pos + 1);
    }
  }

  /**
   * Reading one section from `pos` into `m` (readSkewDelayToMap and readRouteToMap,
   * with the record parser as a parameter): comment lines are skipped, an empty
   * line or the end of the file ends the section, every other line is a record
   * that is put into the map. Gives the map and the cursor after the section.
   */
  function ReadSection<K(==), V>(parse: string -> Result<(K, V), ParseError>, lines: seq<string>, pos: nat, m: map<K, V>)
    : (r: Result<(map<K, V>, nat), ParseError>)
    requires pos <= |lines|
    ensures r.Ok? ==> pos < r.value.1 <= |lines| || r.value.1 == pos == |lines|
    decreases |lines| - pos
  {
    if pos == |lines| then Ok((m, pos))
    else if IsComment(lines[pos]) then ReadSection(parse, lines, pos + 1, m)
    else if lines[pos] == "" then Ok((m, pos + 1))
    else
      match parse(lines[pos])
      case Err(e) => Err(e)
      case Ok(kv) => ReadSection(parse, lines, pos + 1, m[kv.0 := kv.1])
  }

  /** A comment line of a section is skipped. */
  lemma ReadSectionSkipsComment<K, V>(parse: string -> Result<(K, V), ParseError>, lines: seq<string>, pos: nat, m: map<K, V>)
    requires pos < |lines| && IsComment(lines[pos])
    ensures ReadSection(parse, lines, pos, m) == ReadSection(parse, lines, pos + 1, m)
  {
  }

  /** A record line of a section that parses is put into the map; one that does not is the error. */
  lemma ReadSectionRecord<K, V>(parse: string -> Result<(K, V), ParseError>, lines: seq<string>, pos: nat, m: map<K, V>)
    requires pos < |lines| && IsRecordLine(lines[pos])
    ensures parse(lines[pos]).Err? ==> ReadSection(parse, lines, pos, m) == Err(parse(lines[pos]).error)
    ensures parse(lines[pos]).Ok? ==>
              var kv := parse(lines[pos]).value;
              ReadSection(parse, lines, pos, m) == ReadSection(parse, lines, pos + 1, m[kv.0 := kv.1])
  {
  }

  /** A section reads without error exactly when each of its record lines parses, and it ends where `SectionEnd` says. */
  lemma {:induction false} ReadSectionOutcome<K, V>(parse: string -> Result<(K, V), ParseError>, lines: seq<string>, pos: nat, m: map<K, V>)
    requires pos <= |lines|
    ensures ReadSection(parse, lines, pos, m).Ok? <==>
            forall i :: pos <= i < SectionEnd(lines, pos) && IsRecordLine(lines[i]) ==> parse(lines[i]).Ok?
    ensures ReadSection(parse, lines, pos, m).Ok? ==> ReadSection(parse, lines, pos, m).value.1 == SectionEnd(lines, pos)
    decreases |lines| - pos
  {
    if pos < |lines| {
      if IsComment(lines[pos]) {
        assert lines[pos] != "";
        ReadSectionOutcome(parse, lines, pos + 1, m);
      } else if lines[pos] != "" {
        match parse(lines[pos])
        case Err(_) =>
        case Ok(kv) => ReadSectionOutcome(parse, lines, pos + 1, m[kv.0 := kv.1]);
      }
    }
  }

  /** Line `i` of a section is a record with key `k`. */
  ghost predicate RecordWithKey<K, V>(parse: string -> Result<(K, V), ParseError>, line: string, k: K) {
    IsRecordLine(line) && parse(line).Ok? && parse(line).value.0 == k
  }

  /** A repeated key overwrites: the value kept is that of the last record with the key. */
  lemma {:induction false} ReadSectionLastRecordWins<K, V>(parse: string -> Result<(K, V), ParseError>, lines: seq<string>,
                                                         pos: nat, m: map<K, V>, i: nat)
    requires pos <= |lines| && pos <= i < SectionEnd(lines, pos)
    requires ReadSection(parse, lines, pos, m).Ok?
    requires IsRecordLine(lines[i]) && parse(lines[i]).Ok?
    requires forall j :: i < j < SectionEnd(lines, pos) ==> !RecordWithKey(parse, lines[j], parse(lines[i]).value.0)
    ensures var kv := parse(lines[i]).value;
            var result := ReadSection(parse, lines, pos, m).value.0;
            kv.0 in result && result[kv.0] == kv.1
    decreases |lines| - pos
  {
    var kv := parse(lines[i]).value;
    if IsComment(lines[pos]) {
      ReadSectionLastRecordWins(parse, lines, pos + 1, m, i);
    } else {
      var kv' := parse(lines[pos]).value;
      var m' := m[kv'.0 := kv'.1];
      if i == pos {
        ReadSectionUntouched(parse, lines, pos + 1, m', kv.0);
      } else {
        ReadSectionLastRecordWins(parse, lines, pos + 1, m', i);
      }
    }
  }

  /** A key that no record of the section carries is left as it was, present or absent. */
  lemma {:induction false} ReadSectionUntouched<K, V>(parse: string -> Result<(K, V), ParseError>, lines: seq<string>,
                                                    pos: nat, m: map<K, V>, k: K)
    requires pos <= |lines|
    requires ReadSection(parse, lines, pos, m).Ok?
    requires forall j :: pos <= j < SectionEnd(lines, pos) ==> !RecordWithKey(parse, lines[j], k)
    ensures var result := ReadSection(parse, lines, pos, m).value.0;
            (k in result <==> k in m) && (k in m ==> result[k] == m[k])
    decreases |lines| - pos
  {
    if pos < |lines| && lines[pos] != "" {
      if IsComment(lines[pos]) {
        ReadSectionUntouched(parse, lines, pos + 1, m, k);
      } else {
        var kv := parse(lines[pos]).value;
        assert !RecordWithKey(parse, lines[pos], k);
        ReadSectionUntouched(parse, lines, pos + 1, m[kv.0 := kv.1], k);
      }
    }
  }

  /** The cursor just past the first line at or after `pos` that equals `section`; None when there is none. */
  function FindHeader(lines: seq<string>, pos: nat, section: string): (r: Option<nat>)
    requires pos <= |lines|
    ensures r.Some? ==> pos < r.value <= |lines| && lines[r.value - 1] == section
    decreases |lines| - pos
  {
    if pos == |lines| then None
    else if lines[pos] == section then Some(pos + 1)
    else FindHeader(lines, pos + 1, section)
  }

  /** The header found is the first line from `pos` that equals it; none is found only when no such line exists. */
  lemma {:induction false} FindHeaderFirst(lines: seq<string>, pos: nat, section: string)
    requires pos <= |lines|
    ensures FindHeader(lines, pos, section).Some? ==>
              forall i :: pos <= i < FindHeader(lines, pos, section).value - 1 ==> lines[i] != section
    ensures FindHeader(lines, pos, section).None? <==> forall i :: pos <= i < |lines| ==> lines[i] != section
    decreases |lines| - pos
  {
    if pos < |lines| && lines[pos] != section {
      FindHeaderFirst(lines, pos + 1, section);
    }
  }

  /** The three tables a template file holds. */
  datatype Tables = Tables(skew: map<PairKey, seq<int>>, routes: map<string, seq<string>>, delay: map<PairKey, seq<int>>)

  /** The three sections of a template file. */
  datatype Section = Skew | Route | Delay

  /** The line that opens a section. */
  function Header(section: Section): string {
    match section
    case Skew => "skew"
    case Route => "route"
    case Delay => "delay"
  }

  /** parseDataSection: find the header from `pos`, then read the section into `t`. */
  function ParseSection(lines: seq<string>, pos: nat, section: Section, t: Tables): (r: Result<(Tables, nat), ParseError>)
    requires pos <= |lines|
    ensures r.Ok? ==> pos < r.value.1 <= |lines|
    ensures FindHeader(lines, pos, Header(section)).None? ==> r == Err(MissingSection(Header(section)))
  {
    match FindHeader(lines, pos, Header(section))
    case None => Err(MissingSection(Header(section)))
    case Some(start) =>
      match section
      case Skew =>
        (match ReadSection(SkewDelayRecord, lines, start, t.skew)
         case Err(e) => Err(e)
         case Ok((m, end)) => Ok((t.(skew := m), end)))
      case Route =>
        (match ReadSection(RouteRecord, lines, start, t.routes)
         case Err(e) => Err(e)
         case Ok((m, end)) => Ok((t.(routes := m), end)))
      case Delay =>
        (match ReadSection(SkewDelayRecord, lines, start, t.delay)
         case Err(e) => Err(e)
         case Ok((m, end)) => Ok((t.(delay := m), end)))
  }

  /** parseDataFromFile: skew, then route, then delay, from one shared cursor, into empty tables. */
  function ParseData(lines: seq<string>): Result<Tables, ParseError> {
    var t0 := Tables(map[], map[], map[]);
    match ParseSection(lines, 0, Skew, t0)
    case Err(e) => Err(e)
    case Ok((t1, p1)) =>
      match ParseSection(lines, p1, Route, t1)
      case Err(e) => Err(e)
      case Ok((t2, p2)) =>
        match ParseSection(lines, p2, Delay, t2)
        case Err(e) => Err(e)
        case Ok((t3, _)) => Ok(t3)
  }

  /** A section read without error starts after the first matching header line and ends at its first empty line. */
  lemma ParseSectionSpan(lines: seq<string>, pos: nat, section: Section, t: Tables) returns (headerAt: nat)
    requires pos <= |lines| && ParseSection(lines, pos, section, t).Ok?
    ensures pos <= headerAt < |lines| && lines[headerAt] == Header(section)
    ensures forall i :: pos <= i < headerAt ==> lines[i] != Header(section)
    ensures ParseSection(lines, pos, section, t).value.1 == SectionEnd(lines, headerAt + 1)
  {
    FindHeaderFirst(lines, pos, Header(section));
    var start := FindHeader(lines, pos, Header(section)).value;
    headerAt := start - 1;
    SectionReadEnd(lines, pos, section, t, start);
  }

  /** Once its header is found, a section read without error ends where `SectionEnd` says. */
  lemma SectionReadEnd(lines: seq<string>, pos: nat, section: Section, t: Tables, start: nat)
    requires pos <= |lines| && FindHeader(lines, pos, Header(section)) == Some(start)
    requires ParseSection(lines, pos, section, t).Ok?
    ensures start <= |lines| && ParseSection(lines, pos, section, t).value.1 == SectionEnd(lines, start)
  {
    match section
    case Skew => ReadSectionOutcome(SkewDelayRecord, lines, start, t.skew);
    case Route => ReadSectionOutcome(RouteRecord, lines, start, t.routes);
    case Delay => ReadSectionOutcome(SkewDelayRecord, lines, start, t.delay);
  }

  /**
   * The sections must appear in the order skew, route, delay, each header after the
   * end of the previous section (its first empty line).
   */
  lemma SectionsInFileOrder(lines: seq<string>) returns (skewAt: nat, routeAt: nat, delayAt: nat)
    requires ParseData(lines).Ok?
    ensures skewAt < routeAt < delayAt < |lines|
    ensures lines[skewAt] == "skew" && lines[routeAt] == "route" && lines[delayAt] == "delay"
    ensures forall i :: 0 <= i < skewAt ==> lines[i] != "skew"
    ensures routeAt >= SectionEnd(lines, skewAt + 1) && delayAt >= SectionEnd(lines, routeAt + 1)
  {
    var r1 := ParseSection(lines, 0, Skew, Tables(map[], map[], map[]));
    skewAt := ParseSectionSpan(lines, 0, Skew, Tables(map[], map[], map[]));
    var r2 := ParseSection(lines, r1.value.1, Route, r1.value.0);
    routeAt := ParseSectionSpan(lines, r1.value.1, Route, r1.value.0);
    delayAt := ParseSectionSpan(lines, r2.value.1, Delay, r2.value.0);
  }

  // ---------------------------------------------------------------------------
  // The reader and the parser object
  // ---------------------------------------------------------------------------

  /** A BufferedReader over the lines of a file. */
  class LineReader {
    const lines: seq<string>
    var pos: nat

    ghost predicate Valid()
      reads this
    {
      pos <= |lines|
    }

    constructor (lines: seq<string>)
      ensures Valid() && this.lines == lines && pos == 0
    {
      this.lines := lines;
      pos := 0;
    }

    /** `readLine()`: the next line, or null at the end of the file. */
    method ReadLine() returns (line: Option<string>)
      requires Valid()
      modifies this
      ensures Valid()
      ensures old(pos) < |lines| ==> line == Some(lines[old(pos)]) && pos == old(pos) + 1
      ensures old(pos) == |lines| ==> line == None && pos == old(pos)
    {
      if pos < |lines| {
        line := Some(lines[pos]);
        pos := pos + 1;
      } else {
        line := None;
      }
    }
  }

  /** The result of a section reader agrees with `ReadSection`, and the reader stands where it says. */
  ghost predicate AgreesWith<T>(r: Result<T, ParseError>, cursor: nat, spec: Result<(T, nat), ParseError>) {
    && (spec.Ok? ==> r == Ok(spec.value.0) && cursor == spec.value.1)
    && (spec.Err? ==> r == Err(spec.error))
  }

  class ClkSkewsAndRouteDelays {
    var skew: map<PairKey, seq<int>>
    var routesToDestinationClockRegions: map<string, seq<string>>
    var delay: map<PairKey, seq<int>>

    function AsTables(): Tables
      reads this
    {
      Tables(skew, routesToDestinationClockRegions, delay)
    }

    constructor Empty()
      ensures AsTables() == Tables(map[], map[], map[])
    {
      skew := map[];
      routesToDestinationClockRegions := map[];
      delay := map[];
    }

    /** parseDataFromFile: the three sections in order from one reader. */
    method ParseDataFromFile(reader: LineReader) returns (error: Option<ParseError>)
      requires reader.Valid() && reader.pos == 0
      requires AsTables() == Tables(map[], map[], map[])
      modifies this, reader
      ensures error.None? <==> ParseData(reader.lines).Ok?
      ensures error.None? ==> AsTables() == ParseData(reader.lines).value
      ensures error.Some? ==> ParseData(reader.lines) == Err(error.value)
    {
      error := ParseDataSection(reader, Skew);
      if error.Some? {
        return;
      }
      error := ParseDataSection(reader, Route);
      if error.Some? {
        return;
      }
      error := ParseDataSection(reader, Delay);
    }

    /** parseDataSection: skip to the header line, then read the section it names. */
    method ParseDataSection(reader: LineReader, section: Section) returns (error: Option<ParseError>)
      requires reader.Valid()
      modifies this, reader
      ensures reader.Valid()
      ensures var spec := ParseSection(reader.lines, old(reader.pos), section, old(AsTables()));
              && (spec.Ok? ==> error.None? && AsTables() == spec.value.0 && reader.pos == spec.value.1)
              && (spec.Err? ==> error == Some(spec.error))
    {
      ghost var start := reader.pos;
      var dataFound := false;
      while !dataFound
        modifies reader
        invariant reader.Valid() && start <= reader.pos
        invariant !dataFound ==> FindHeader(reader.lines, start, Header(section)) == FindHeader(reader.lines, reader.pos, Header(section))
        invariant dataFound ==> FindHeader(reader.lines, start, Header(section)) == Some(reader.pos)
        decreases !dataFound, |reader.lines| - reader.pos
      {
        var line := reader.ReadLine();
        if line.None? {
          break;
        }
        if line.value == Header(section) {
          dataFound := true;
        }
      }
      if !dataFound {
        return Some(MissingSection(Header(section)));
      }
      ghost var header := reader.pos;
      ghost var spec := ParseSection(reader.lines, start, section, AsTables());
      match section {
        case Skew =>
          var r := ReadSkewDelayToMap(reader, skew);
          ghost var sectionSpec := ReadSection(SkewDelayRecord, reader.lines, header, skew);
          assert spec == if sectionSpec.Err? then Err(sectionSpec.error)
                         else Ok((AsTables().(skew := sectionSpec.value.0), sectionSpec.value.1));
          if r.Err? {
            return Some(r.error);
          }
          skew := r.value;
        case Route =>
          var r := ReadRouteToMap(reader, routesToDestinationClockRegions);
          ghost var sectionSpec := ReadSection(RouteRecord, reader.lines, header, routesToDestinationClockRegions);
          assert spec == if sectionSpec.Err? then Err(sectionSpec.error)
                         else Ok((AsTables().(routes := sectionSpec.value.0), sectionSpec.value.1));
          if r.Err? {
            return Some(r.error);
          }
          routesToDestinationClockRegions := r.value;
        case Delay =>
          var r := ReadSkewDelayToMap(reader, delay);
          ghost var sectionSpec := ReadSection(SkewDelayRecord, reader.lines, header, delay);
          assert spec == if sectionSpec.Err? then Err(sectionSpec.error)
                         else Ok((AsTables().(delay := sectionSpec.value.0), sectionSpec.value.1));
          if r.Err? {
            return Some(r.error);
          }
          delay := r.value;
      }
      return None;
    }

    /** readSkewDelayToMap: records of a skew or delay section put into `toMap`. */
    static method ReadSkewDelayToMap(reader: LineReader, toMap: map<PairKey, seq<int>>)
      returns (r: Result<map<PairKey, seq<int>>, ParseError>)
      requires reader.Valid()
      modifies reader
      ensures reader.Valid()
      ensures AgreesWith(r, reader.pos, ReadSection(SkewDelayRecord, reader.lines, old(reader.pos), toMap))
    {
      var m := toMap;
      while true
        invariant reader.Valid()
        invariant ReadSection(SkewDelayRecord, reader.lines, old(reader.pos), toMap)
                  == ReadSection(SkewDelayRecord, reader.lines, reader.pos, m)
        decreases |reader.lines| - reader.pos
      {
        ghost var at := reader.pos;
        var next := reader.ReadLine();
        if next.None? {
          return Ok(m);
        }
        var line := next.value;
        if StartsWith(line, "#") {
          ReadSectionSkipsComment(SkewDelayRecord, reader.lines, at, m);
          continue;
        }
        if |line| == 0 {
          return Ok(m);
        }
        ReadSectionRecord(SkewDelayRecord, reader.lines, at, m);
        var dataStrings := Split(line);
        if |dataStrings| <= 2 {
          return Err(IncompleteLine(line));
        }
        var key := (dataStrings[0], dataStrings[1]);
        var values := ReadShorts(dataStrings[2..]);
        if values.Err? {
          return Err(values.error);
        }
        m := m[key := values.value];
      }
    }

    /** The values loop of readSkewDelayToMap: `Short.parseShort` of each token in turn; the first bad token ends it. */
    static method ReadShorts(tokens: seq<string>) returns (r: Result<seq<int>, ParseError>)
      ensures r == ParseShorts(tokens)
    {
      var values := [];
      var i := 0;
      while i < |tokens|
        invariant 0 <= i <= |tokens|
        invariant ParseShorts(tokens[..i]) == Ok(values)
      {
        assert tokens[..i + 1][..i] == tokens[..i];
        var v := ParseShort(tokens[i]);
        if v.None? {
          assert ParseShorts(tokens[..i + 1]) == Err(BadNumber(tokens[i]));
          ParseShortsPrefixError(tokens, i + 1);
          return Err(BadNumber(tokens[i]));
        }
        values := values + [v.value];
        i := i + 1;
      }
      assert tokens[..i] == tokens;
      return Ok(values);
    }

    /** readRouteToMap: records of the route section put into `toMap`. */
    static method ReadRouteToMap(reader: LineReader, toMap: map<string, seq<string>>)
      returns (r: Result<map<string, seq<string>>, ParseError>)
      requires reader.Valid()
      modifies reader
      ensures reader.Valid()
      ensures AgreesWith(r, reader.pos, ReadSection(RouteRecord, reader.lines, old(reader.pos), toMap))
    {
      var m := toMap;
      while true
        invariant reader.Valid()
        invariant ReadSection(RouteRecord, reader.lines, old(reader.pos), toMap)
                  == ReadSection(RouteRecord, reader.lines, reader.pos, m)
        decreases |reader.lines| - reader.pos
      {
        var outcome;
        outcome, m := ReadRouteStep(reader, m);
        if outcome.Some? {
          return outcome.value;
        }
      }
    }

    /**
     * One pass of readRouteToMap's loop: reads a line; an empty line or the end of the
     * file ends the section, a comment is skipped, a record is put into the map or
     * ends parsing with its error.
     */
    static method ReadRouteStep(reader: LineReader, m: map<string, seq<string>>)
      returns (outcome: Option<Result<map<string, seq<string>>, ParseError>>, m': map<string, seq<string>>)
      requires reader.Valid()
      modifies reader
      ensures reader.Valid()
      ensures outcome.None? ==> old(reader.pos) < reader.pos
      ensures outcome.None? ==>
        ReadSection(RouteRecord, reader.lines, old(reader.pos), m) == ReadSection(RouteRecord, reader.lines, reader.pos, m')
      ensures outcome.Some? ==> AgreesWith(outcome.value, reader.pos, ReadSection(RouteRecord, reader.lines, old(reader.pos), m))
    {
      m' := m;
      var at := reader.pos;
      var next := reader.ReadLine();
      if next.None? {
        return Some(Ok(m)), m';
      }
      var line := next.value;
      if |line| == 0 {
        return Some(Ok(m)), m';
      }
      if StartsWith(line, "#") {
        ReadSectionSkipsComment(RouteRecord, reader.lines, at, m);
        assert ReadSection(RouteRecord, reader.lines, at, m) == ReadSection(RouteRecord, reader.lines, at + 1, m');
        return None, m';
      }
      var error;
      error, m' := PutRouteLine(reader.lines, at, m);
      if error.Some? {
        return Some(Err(error.value)), m';
      }
      outcome := None;
    }

    /** A record line of readRouteToMap's loop: its entry put into the map, or the error that ends parsing. */
    static method PutRouteLine(lines: seq<string>, at: nat, m: map<string, seq<string>>)
      returns (error: Option<ParseError>, m': map<string, seq<string>>)
      requires at < |lines| && IsRecordLine(lines[at])
      ensures error.Some? ==> ReadSection(RouteRecord, lines, at, m) == Err(error.value)
      ensures error.None? ==> ReadSection(RouteRecord, lines, at, m) == ReadSection(RouteRecord, lines, at + 1, m')
    {
      m' := m;
      var record := ReadRouteLine(lines[at]);
      ReadSectionRecord(RouteRecord, lines, at, m);
      if record.Err? {
        return Some(record.error), m';
      }
      m' := m[record.value.0 := record.value.1];
      return None, m';
    }

    /** The body of readRouteToMap's loop for one record line: its key and values, or the incomplete-line error. */
    static method ReadRouteLine(line: string) returns (r: Result<(string, seq<string>), ParseError>)
      ensures r == RouteRecord(line)
    {
      var dataStrings := Split(line);
      if |dataStrings| <= 1 {
        return Err(IncompleteLine(line));
      }
      var values := RouteValues(dataStrings);
      return Ok((dataStrings[0], values));
    }

    /** The values loop of readRouteToMap: every token after the key, in order. */
    static method RouteValues(dataStrings: seq<string>) returns (values: seq<string>)
      requires |dataStrings| > 1
      ensures [dataStrings[0]] + values == dataStrings
    {
      values := [];
      var i := 1;
      while i < |dataStrings|
        invariant 1 <= i <= |dataStrings|
        invariant values == dataStrings[1..i]
      {
        values := values + [dataStrings[i]];
        i := i + 1;
      }
    }
  }

  /** Once a prefix of the tokens has a bad number, the whole list reports that same token. */
  lemma {:induction false} ParseShortsPrefixError(tokens: seq<string>, n: nat)
    requires n <= |tokens|
    requires ParseShorts(tokens[..n]).Err?
    ensures ParseShorts(tokens) == ParseShorts(tokens[..n])
    decreases |tokens| - n
  {
    if n < |tokens| {
      assert tokens[..n + 1][..n] == tokens[..n];
      ParseShortsPrefixError(tokens, n + 1);
    } else {
      assert tokens[..n] == tokens;
    }
  }

  /** `new ClkSkewsAndRouteDelays(file)`: the object with its three tables, or the exception that ends parsing. */
  method Load(fileLines: seq<string>) returns (r: Result<ClkSkewsAndRouteDelays, ParseError>)
    ensures r.Ok? <==> ParseData(fileLines).Ok?
    ensures r.Ok? ==> r.value.AsTables() == ParseData(fileLines).value
    ensures r.Err? ==> ParseData(fileLines) == Err(r.error)
  {
    var data := new ClkSkewsAndRouteDelays.Empty();
    var reader := new LineReader(fileLines);
    var error := data.ParseDataFromFile(reader);
    if error.Some? {
      return Err(error.value);
    }
    return Ok(data);
  }
}
