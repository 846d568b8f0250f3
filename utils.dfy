/**
 * The page's pure helpers (src/js/utils.js): reading usernames out of the
 * input text, comparing two username lists, rendering one pair and a list of
 * pairs, and laying out the download timestamp.
 */
module Utils {
  import opened Types
  import opened JsText

  // ---------------------------------------------------------------------------
  // parseUsernames

  /** `.map(trim).filter(length > 0)`: the trimmed lines that are not empty, in line order. */
  function KeepNames(lines: seq<string>): (names: seq<string>)
    ensures |names| <= |lines|
    ensures forall k :: 0 <= k < |names| ==> names[k] != "" && IsTrimmed(names[k])
  {
    if |lines| == 0 then []
    else
      var name := Trim(lines[|lines| - 1]);
      KeepNames(lines[..|lines| - 1]) + (if |name| > 0 then [name] else [])
  }

  /**
   * `parseUsernames`: the input split on line feeds, each line trimmed, empty
   * lines dropped. No name is empty or has white space at either end, and there
   * are at most as many names as lines.
   */
  function ParseUsernames(inputValue: string): (names: seq<string>)
    ensures forall k :: 0 <= k < |names| ==> names[k] != "" && IsTrimmed(names[k])
    ensures |names| <= |Split(inputValue, '\n')|
  {
    KeepNames(Split(inputValue, '\n'))
  }

  /** Lines are handled one by one: the names of `a + b` are those of `a`, then those of `b`. */
  lemma {:induction false} KeepNamesAppend(a: seq<string>, b: seq<string>)
    ensures KeepNames(a + b) == KeepNames(a) + KeepNames(b)
  {
    if |b| > 0 {
      assert (a + b)[..|a + b| - 1] == a + b[..|b| - 1];
      KeepNamesAppend(a, b[..|b| - 1]);
    } else {
      assert a + b == a;
    }
  }

  /** A string is among the names exactly when it is the non-empty trim of some line. */
  lemma {:induction false} KeepNamesMembers(lines: seq<string>, x: string)
    ensures x in KeepNames(lines) <==> x != "" && exists j :: 0 <= j < |lines| && Trim(lines[j]) == x
  {
    if |lines| > 0 {
      var init := lines[..|lines| - 1];
      KeepNamesMembers(init, x);
      if x != "" && (exists j :: 0 <= j < |lines| && Trim(lines[j]) == x) {
        var j :| 0 <= j < |lines| && Trim(lines[j]) == x;
        if j < |init| {
          assert init[j] == lines[j];
        }
      }
      if x in KeepNames(lines) && x !in KeepNames(init) {
        assert Trim(lines[|lines| - 1]) == x;
      }
      if x in KeepNames(init) {
        var j :| 0 <= j < |init| && Trim(init[j]) == x;
        assert lines[j] == init[j];
      }
    }
  }

  /** Names that are already trimmed and non-empty are kept as they are, in order. */
  lemma {:induction false} KeepNamesOfNames(names: seq<string>)
    requires forall k :: 0 <= k < |names| ==> names[k] != "" && IsTrimmed(names[k])
    ensures KeepNames(names) == names
  {
    if |names| > 0 {
      KeepNamesOfNames(names[..|names| - 1]);
      TrimOfTrimmed(names[|names| - 1]);
    }
  }

  /** A character none of the lines holds is held by none of the names. */
  lemma {:induction false} KeepNamesWithout(lines: seq<string>, c: char)
    requires forall j :: 0 <= j < |lines| ==> c !in lines[j]
    ensures forall k :: 0 <= k < |KeepNames(lines)| ==> c !in KeepNames(lines)[k]
  {
    if |lines| > 0 {
      KeepNamesWithout(lines[..|lines| - 1], c);
      if c in Trim(lines[|lines| - 1]) {
        TrimKeeps(lines[|lines| - 1], c);
      }
    }
  }

  /** No parsed name holds a line feed. */
  lemma ParsedHaveNoLineFeed(inputValue: string)
    ensures forall k :: 0 <= k < |ParseUsernames(inputValue)| ==> '\n' !in ParseUsernames(inputValue)[k]
  {
    KeepNamesWithout(Split(inputValue, '\n'), '\n');
  }

  /** Parsing lines joined with line feeds gives their trimmed, non-empty forms in line order. */
  lemma ParseUsernamesOfLines(lines: seq<string>)
    requires |lines| >= 1
    requires forall j :: 0 <= j < |lines| ==> '\n' !in lines[j]
    ensures ParseUsernames(Join(lines, "\n")) == KeepNames(lines)
  {
    SplitOfJoin(lines, '\n');
  }

  /** Writing the parsed names back one per line and parsing again gives the same names. */
  lemma ParseUsernamesIdempotent(inputValue: string)
    ensures ParseUsernames(Join(ParseUsernames(inputValue), "\n")) == ParseUsernames(inputValue)
  {
    var names := ParseUsernames(inputValue);
    if |names| == 0 {
      assert Join(names, "\n") == "";
      assert Trim("") == "";
    } else {
      ParsedHaveNoLineFeed(inputValue);
      ParseUsernamesOfLines(names);
      KeepNamesOfNames(names);
    }
  }

  // ---------------------------------------------------------------------------
  // areArraysEqual

  /** Ordered, element-by-element equality of two lists. */
  predicate SameElements<T(==)>(a: seq<T>, b: seq<T>)
  {
    |a| == |b| && forall i :: 0 <= i < |a| ==> a[i] == b[i]
  }

  /**
   * `areArraysEqual`: false as soon as the lengths differ or a position holds
   * different elements, true once every position has been compared.
   */
  method AreArraysEqual<T(==)>(a: seq<T>, b: seq<T>) returns (equal: bool)
    ensures equal <==> SameElements(a, b)
  {
    if |a| != |b| {
      return false;
    }
    for i := 0 to |a|
      invariant forall k :: 0 <= k < i ==> a[k] == b[k]
    {
      if a[i] != b[i] {
        return false;
      }
    }
    return true;
  }

  /** Element-by-element equality is list equality, so it is reflexive and symmetric. */
  lemma SameElementsIsEquality<T>(a: seq<T>, b: seq<T>)
    ensures SameElements(a, b) <==> a == b
    ensures SameElements(a, a)
    ensures SameElements(a, b) <==> SameElements(b, a)
  {
    if SameElements(a, b) {
      assert a == b;
    }
  }

  /** Order matters: two distinct names listed the other way round are not equal lists. */
  lemma SameElementsIsOrdered<T>(x: T, y: T)
    requires x != y
    ensures !SameElements([x, y], [y, x])
  {
    assert [x, y][0] != [y, x][0];
  }

  // ---------------------------------------------------------------------------
  // formatPair and formatOutputCode

  /** What `formatPair` returns: a `{uuid, name}` record or a text line. */
  datatype Formatted = Record(uuid: string, name: string) | Line(text: string)

  const PairSeparator := " - "

  /** `formatPair`: a record for the JSON format, `username - uuid` for any other. */
  function FormatPair(username: string, uuid: string, format: ExportFormat): (pair: Formatted)
    ensures format == Json <==> pair.Record?
  {
    if format == Json then Record(uuid, username) else Line(username + PairSeparator + uuid)
  }

  /** The record keeps both values; the text line reads back as the name and the identifier. */
  lemma FormatPairReadsBack(username: string, uuid: string, format: ExportFormat)
    ensures format == Json ==> FormatPair(username, uuid, format) == Record(uuid, username)
    ensures format == Txt ==> |FormatPair(username, uuid, format).text| == |username| + 3 + |uuid|
    ensures format == Txt ==> FormatPair(username, uuid, format).text[..|username|] == username
    ensures format == Txt ==> FormatPair(username, uuid, format).text[|username|..|username| + 3] == PairSeparator
    ensures format == Txt ==> FormatPair(username, uuid, format).text[|username| + 3..] == uuid
  {
  }

  /** How `Array.prototype.join` converts one element: an object prints as "[object Object]". */
  function JoinText(pair: Formatted): string
  {
    match pair
    case Line(text) => text
    case Record(_, _) => "[object Object]"
  }

  function JoinTexts(pairs: seq<Formatted>): (texts: seq<string>)
    ensures |texts| == |pairs|
    ensures forall i :: 0 <= i < |pairs| ==> texts[i] == JoinText(pairs[i])
  {
    seq(|pairs|, i requires 0 <= i < |pairs| => JoinText(pairs[i]))
  }

  /**
   * `formatOutputCode`: the JSON serialisation of the pairs for the JSON format,
   * the pairs one per line otherwise. The serialiser is a parameter.
   */
  function FormatOutputCode(pairs: seq<Formatted>, format: ExportFormat, stringify: seq<Formatted> -> string): string
  {
    if format == Json then stringify(pairs) else Join(JoinTexts(pairs), "\n")
  }

  /** The text output of no pairs is empty, and that of one pair is that pair's text alone. */
  lemma FormatOutputCodeFew(pairs: seq<Formatted>, stringify: seq<Formatted> -> string)
    ensures |pairs| == 0 ==> FormatOutputCode(pairs, Txt, stringify) == ""
    ensures |pairs| == 1 ==> FormatOutputCode(pairs, Txt, stringify) == JoinText(pairs[0])
  {
  }

  /** When no pair's text holds a line feed, the text output splits back into one line per pair, in order. */
  lemma FormatOutputCodeLines(pairs: seq<Formatted>, stringify: seq<Formatted> -> string)
    requires forall i :: 0 <= i < |pairs| ==> '\n' !in JoinText(pairs[i])
    ensures |pairs| >= 1 ==> Split(FormatOutputCode(pairs, Txt, stringify), '\n') == JoinTexts(pairs)
  {
    if |pairs| >= 1 {
      SplitOfJoin(JoinTexts(pairs), '\n');
    }
  }

  // ---------------------------------------------------------------------------
  // generateTimestamp

  /** The local date and time fields of a `Date`, as its getters return them (month counted from 0). */
  datatype DateParts = DateParts(year: int, month: int, day: int, hours: int, minutes: int, seconds: int)

  /** The ranges the `Date` getters keep to, for a year written without a sign. */
  predicate ValidDate(d: DateParts)
  {
    d.year >= 0 && 0 <= d.month < 12 && 1 <= d.day <= 31
    && 0 <= d.hours < 24 && 0 <= d.minutes < 60 && 0 <= d.seconds < 60
  }

  /** `String(n).padStart(2, '0')`. */
  function Pad2(n: int): string
  {
    PadStart(IntToString(n), 2, '0')
  }

  /** The six timestamp fields: year, day, month, hours, minutes, seconds. */
  function TimestampFields(d: DateParts): seq<string>
  {
    FieldsWith(d, Pad2)
  }

  /**
   * The six fields, each later field written by `pad`. Taking the padding as a
   * parameter keeps its definition out of the proofs about the field order.
   */
  function FieldsWith(d: DateParts, pad: int -> string): seq<string>
  {
    [IntToString(d.year), pad(d.day), pad(d.month + 1), pad(d.hours), pad(d.minutes), pad(d.seconds)]
  }

  /** `generateTimestamp`, with the clock read as a parameter: the fields joined with '-'. */
  function GenerateTimestamp(d: DateParts): string
  {
    Join(TimestampFields(d), "-")
  }

  /** Two decimal digits, tens first. */
  function TwoDigits(n: int): string
    requires 0 <= n < 100
  {
    [DigitChar(n / 10), DigitChar(n % 10)]
  }

  /** A value below 100 pads to exactly its two decimal digits. */
  lemma Pad2Digits(n: int)
    requires 0 <= n < 100
    ensures Pad2(n) == TwoDigits(n)
  {
    var s := NumberToString(n, 10);
    if n >= 10 {
      DivisionStep(n, 10);
      assert NumberToString(n / 10, 10) == [DigitChar(n / 10)];
      assert s == [DigitChar(n / 10), DigitChar(n % 10)];
    } else {
      assert s == [DigitChar(n)];
      assert Pad2(n) == ['0'] + s;
      assert DigitChar(0) == '0';
    }
  }

  /** A number written in decimal holds only the characters '0' to '9'. */
  lemma NoneInNumber(n: nat, c: char)
    requires !('0' <= c <= '9')
    ensures c !in NumberToString(n, 10)
  {
    var s := NumberToString(n, 10);
    NumberToStringDigits(n, 10);
    forall i | 0 <= i < |s|
      ensures '0' <= s[i] <= '9'
    {
      assert DigitChar(DigitValue(s[i])) == s[i];
    }
  }

  lemma NoneInDigits(n: int, c: char)
    requires 0 <= n < 100 && !('0' <= c <= '9')
    ensures c !in TwoDigits(n)
  {
    var a, b := DigitChar(n / 10), DigitChar(n % 10);
    assert '0' <= a <= '9' && '0' <= b <= '9';
  }

  /** For a valid date the fields are the year in decimal and two digits for each later field. */
  lemma TimestampFieldsAre(d: DateParts)
    requires ValidDate(d)
    ensures TimestampFields(d) ==
      [NumberToString(d.year, 10), TwoDigits(d.day), TwoDigits(d.month + 1),
       TwoDigits(d.hours), TwoDigits(d.minutes), TwoDigits(d.seconds)]
  {
    forall n | 0 <= n < 100
      ensures Pad2(n) == TwoDigits(n)
    {
      Pad2Digits(n);
    }
    FieldsWithTwoDigits(d, Pad2);
  }

  lemma FieldsWithTwoDigits(d: DateParts, pad: int -> string)
    requires ValidDate(d)
    requires forall n :: 0 <= n < 100 ==> pad(n) == TwoDigits(n)
    ensures FieldsWith(d, pad) ==
      [NumberToString(d.year, 10), TwoDigits(d.day), TwoDigits(d.month + 1),
       TwoDigits(d.hours), TwoDigits(d.minutes), TwoDigits(d.seconds)]
  {
  }

  /**
   * The timestamp splits on '-' into exactly its six fields, in the order year,
   * day, month, hours, minutes, seconds: the year in decimal, and every later
   * field as two digits, the month counted from 1.
   */
  lemma TimestampLayout(d: DateParts)
    requires ValidDate(d)
    ensures Split(GenerateTimestamp(d), '-') ==
      [NumberToString(d.year, 10), TwoDigits(d.day), TwoDigits(d.month + 1),
       TwoDigits(d.hours), TwoDigits(d.minutes), TwoDigits(d.seconds)]
  {
    TimestampFieldsAre(d);
    NoneInNumber(d.year, '-');
    NoneInDigits(d.day, '-');
    NoneInDigits(d.month + 1, '-');
    NoneInDigits(d.hours, '-');
    NoneInDigits(d.minutes, '-');
    NoneInDigits(d.seconds, '-');
    SplitSixFields(NumberToString(d.year, 10), TwoDigits(d.day), TwoDigits(d.month + 1),
                   TwoDigits(d.hours), TwoDigits(d.minutes), TwoDigits(d.seconds));
  }

  lemma SplitSixFields(f0: string, f1: string, f2: string, f3: string, f4: string, f5: string)
    requires '-' !in f0 && '-' !in f1 && '-' !in f2 && '-' !in f3 && '-' !in f4 && '-' !in f5
    ensures Split(Join([f0, f1, f2, f3, f4, f5], "-"), '-') == [f0, f1, f2, f3, f4, f5]
  {
    var fields := [f0, f1, f2, f3, f4, f5];
    forall k | 0 <= k < 6 ensures '-' !in fields[k] {
    }
    SplitOfJoin(fields, '-');
  }

  /** The timestamp holds nothing but decimal digits and dashes: no character that is neither is in it. */
  lemma TimestampCharacters(d: DateParts, c: char)
    requires ValidDate(d) && c != '-' && !('0' <= c <= '9')
    ensures c !in GenerateTimestamp(d)
  {
    TimestampFieldsAre(d);
    NoneInNumber(d.year, c);
    NoneInDigits(d.day, c);
    NoneInDigits(d.month + 1, c);
    NoneInDigits(d.hours, c);
    NoneInDigits(d.minutes, c);
    NoneInDigits(d.seconds, c);
    JoinSixWithout(NumberToString(d.year, 10), TwoDigits(d.day), TwoDigits(d.month + 1),
                   TwoDigits(d.hours), TwoDigits(d.minutes), TwoDigits(d.seconds), c);
  }

  lemma JoinSixWithout(f0: string, f1: string, f2: string, f3: string, f4: string, f5: string, c: char)
    requires c != '-'
    requires c !in f0 && c !in f1 && c !in f2 && c !in f3 && c !in f4 && c !in f5
    ensures c !in Join([f0, f1, f2, f3, f4, f5], "-")
  {
    var fields := [f0, f1, f2, f3, f4, f5];
    forall k | 0 <= k < 6 ensures c !in fields[k] {
    }
    JoinWithout(fields, "-", c);
  }
}
