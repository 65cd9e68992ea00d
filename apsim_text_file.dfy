/**
 * The APSIM text-file reader: a header of `name = value (unit) ! comment`
 * constant lines followed by a headings line and a units line, then one row
 * of values per line. The stream is a sequence of lines; number and date
 * parsing under a culture are parameters.
 */
module ApsimText {
  import opened Wrappers
  import opened Text
  import opened Dates

  /** The messages of the exceptions the reader throws. */
  const HeadingMismatch := "The number of headings and units doesn't match in file: "
  const ValueCountMismatch := "Invalid number of values on line: "
  const InvalidCast := "Specified cast is not valid."
  const IndexOutOfRange := "Index was out of range. Must be non-negative and less than the size of the collection."
  /** The message of an array index past the end. */
  const ArrayIndexOutOfRange := "Index was outside the bounds of the array."
  const Overflow := "Value was either too large or too small for an Int32."
  const FormatError := "Input string was not in a correct format."
  const MissingDate := " doesn't exist in file: "
  const DefaultDateFormat := "yyyy-MM-dd"
  const Int32Min := -0x8000_0000
  const Int32Max := 0x7FFF_FFFF

  datatype ApsimConstant = ApsimConstant(name: string, value: string, units: string, comment: string)

  /** The column types a row can be converted to. */
  datatype ColumnType = DateColumn | FloatColumn | StringColumn

  /** A converted value; `Missing` is `DBNull`. */
  datatype FieldValue = Missing | DateValue(date: DateTime) | Number(x: real) | Word(s: string)

  predicate IsComma(c: char) { c == ',' }
  predicate IsQuote(c: char) { c == '"' }

  // ---------------------------------------------------------------------
  // Stand-ins for the StringUtilities helpers.

  /** `SplitOffAfterDelimiter`: the text before the first delimiter and the text after it. */
  function SplitOffAfterDelimiter(line: string, delimiter: char): (r: (string, string))
    ensures delimiter !in r.0
    ensures delimiter !in line ==> r == (line, "")
  {
    var pos := IndexOf(line, delimiter);
    if pos == -1 then (line, "") else (line[..pos], line[pos + 1..])
  }

  /** The delimiter split loses nothing: the two parts rejoin into the line. */
  lemma SplitOffAfterDelimiterJoins(line: string, delimiter: char)
    requires delimiter in line
    ensures line == SplitOffAfterDelimiter(line, delimiter).0 + [delimiter] + SplitOffAfterDelimiter(line, delimiter).1
  {
    var pos := IndexOf(line, delimiter);
    assert line == line[..pos] + [line[pos]] + line[pos + 1..];
  }

  /**
   * `SplitOffBracketedValue`: the rest of `s` and the text between its last
   * open and last close bracket, both trimmed; without such a pair `s` is
   * left as it is and the bracketed text is empty.
   */
  function SplitOffBracketedValue(s: string, open: char, close: char): (r: (string, string))
    ensures r.1 != [] ==> open in s && close in s
    ensures open !in s ==> r == (s, "")
  {
    var o := LastIndexOf(s, open);
    var c := LastIndexOf(s, close);
    if o != -1 && c != -1 && o < c then (Trim(s[..o] + s[c + 1..]), Trim(s[o + 1..c]))
    else (s, "")
  }

  predicate IsPathSeparator(c: char) { c == '/' || c == '\\' }

  /** `path[start..]` is the last path component: it follows a separator or the start, and holds none. */
  predicate IsLastComponent(path: string, start: int)
  {
    && 0 <= start <= |path|
    && (start == 0 || IsPathSeparator(path[start - 1]))
    && forall j :: start <= j < |path| ==> !IsPathSeparator(path[j])
  }

  /** `stem` is `name` without its extension: all of it without a '.', else the text before its last '.'. */
  predicate IsStem(name: string, stem: string)
  {
    && ('.' !in name ==> stem == name)
    && ('.' in name ==> |stem| < |name| && name == stem + "." + name[|stem| + 1..] && '.' !in name[|stem| + 1..])
  }

  /** Where the last path component starts: after the later of the last '/' and the last '\\'. */
  function LastComponentStart(path: string): (start: nat)
    ensures start <= |path|
  {
    var slash := LastIndexOf(path, '/');
    var backslash := LastIndexOf(path, '\\');
    (if slash > backslash then slash else backslash) + 1
  }

  /** `name` up to its last '.', or all of it without one. */
  function Stem(name: string): (stem: string)
    ensures stem <= name
  {
    var dot := LastIndexOf(name, '.');
    if dot == -1 then name else name[..dot]
  }

  /** `Path.GetFileNameWithoutExtension`: the last path component up to its last '.'. */
  function FileNameWithoutExtension(path: string): (r: string)
    ensures '/' !in r && '\\' !in r
  {
    LastComponentHasNoSeparator(path);
    Stem(path[LastComponentStart(path)..])
  }

  /** The file name is the stem of the path's last component. */
  lemma FileNameIsStem(path: string)
    ensures exists start :: IsLastComponent(path, start) && IsStem(path[start..], FileNameWithoutExtension(path))
  {
    var start := LastComponentStart(path);
    LastComponentHasNoSeparator(path);
    StemBeforeLastDot(path[start..]);
    assert IsLastComponent(path, start) && IsStem(path[start..], FileNameWithoutExtension(path));
  }

  /** `LastComponentStart` starts the last component. */
  lemma LastComponentHasNoSeparator(path: string)
    ensures IsLastComponent(path, LastComponentStart(path))
  {
    var start := LastComponentStart(path);
    forall j | start <= j < |path|
      ensures !IsPathSeparator(path[j])
    {
      assert path[j] != '/' && path[j] != '\\';
    }
  }

  /** A path has one last component. */
  lemma LastComponentUnique(path: string, a: int, b: int)
    requires IsLastComponent(path, a) && IsLastComponent(path, b)
    ensures a == b
  {
    if a < b {
      assert !IsPathSeparator(path[b - 1]);
    } else if b < a {
      assert !IsPathSeparator(path[a - 1]);
    }
  }

  /** `Stem` cuts at the last '.'. */
  lemma StemBeforeLastDot(name: string)
    ensures IsStem(name, Stem(name))
  {
    var dot := LastIndexOf(name, '.');
    if dot != -1 {
      assert name == name[..dot] + "." + name[dot + 1..];
    }
  }

  // ---------------------------------------------------------------------
  // Header lines.

  /** A units line: no '=' and a '(' as its first non-blank character. */
  predicate IsUnitsLine(line: string)
  {
    IndexOf(line, '=') == -1 && var p := IndexNotBlank(line); p != -1 && line[p] == '('
  }

  /** The position of the first units line, or -1. */
  function FirstUnitsLine(lines: seq<string>): (r: int)
    ensures -1 <= r < |lines|
    ensures r >= 0 ==> IsUnitsLine(lines[r])
    ensures forall j :: 0 <= j < |lines| && (r == -1 || j < r) ==> !IsUnitsLine(lines[j])
  {
    if lines == [] then -1
    else
      var r := FirstUnitsLine(lines[..|lines| - 1]);
      if r != -1 then r else if IsUnitsLine(lines[|lines| - 1]) then |lines| - 1 else -1
  }

  /** A units line found in a prefix is still the first one once more lines follow. */
  lemma FirstUnitsLineExtend(a: seq<string>, b: seq<string>)
    requires FirstUnitsLine(a) != -1
    ensures FirstUnitsLine(a + b) == FirstUnitsLine(a)
  {
    var u := FirstUnitsLine(a);
    assert (a + b)[u] == a[u];
  }

  /**
   * The lines the header scan looks at before it stops: every line except
   * the last one of the stream, up to (not including) the first units line.
   */
  function ExaminedLines(lines: seq<string>): (r: seq<string>)
    ensures |r| <= |lines| && r == lines[..|r|]
    ensures lines != [] ==> |r| < |lines|
    ensures forall j :: 0 <= j < |r| ==> !IsUnitsLine(r[j])
  {
    if lines == [] then []
    else
      var candidates := lines[..|lines| - 1];
      var u := FirstUnitsLine(candidates);
      if u == -1 then candidates else candidates[..u]
  }

  /** The lines holding an '=', in order. */
  function ConstantLines(lines: seq<string>): (r: seq<string>)
    ensures |r| <= |lines|
    ensures forall i :: 0 <= i < |r| ==> '=' in r[i]
  {
    if lines == [] then []
    else
      var last := lines[|lines| - 1];
      ConstantLines(lines[..|lines| - 1]) + (if '=' in last then [last] else [])
  }

  /**
   * The headings and units lines: empty when no units line comes before the
   * last line; otherwise the line before the units line ("" when it is the
   * first line) and the units line itself.
   */
  function HeadingLines(lines: seq<string>): (r: seq<string>)
    ensures |r| == 0 || |r| == 2
  {
    if lines == [] then []
    else
      var candidates := lines[..|lines| - 1];
      var u := FirstUnitsLine(candidates);
      if u == -1 then [] else [if u == 0 then "" else candidates[u - 1], candidates[u]]
  }

  /** Every line holding '=' that the scan examines is a constant line, and nothing else is. */
  lemma {:induction false} ConstantLinesExact(lines: seq<string>, line: string)
    ensures line in ConstantLines(lines) <==> line in lines && '=' in line
  {
    if lines != [] {
      ConstantLinesExact(lines[..|lines| - 1], line);
      assert lines == lines[..|lines| - 1] + [lines[|lines| - 1]];
    }
  }

  /**
   * A headings/units pair is found exactly when some line before the last is
   * a units line; the units line is the first line the scan did not examine
   * and the headings line the one before it.
   */
  lemma HeadingLinesFound(lines: seq<string>)
    ensures |HeadingLines(lines)| == 2 <==> exists j :: 0 <= j < |lines| - 1 && IsUnitsLine(lines[j])
    ensures |HeadingLines(lines)| == 2 ==> var n := |ExaminedLines(lines)|;
      n < |lines| - 1 && HeadingLines(lines)[1] == lines[n] && IsUnitsLine(lines[n])
      && HeadingLines(lines)[0] == (if n == 0 then "" else lines[n - 1])
  {
    if lines != [] {
      var candidates := lines[..|lines| - 1];
      assert forall j :: 0 <= j < |lines| - 1 ==> lines[j] == candidates[j];
    }
  }

  /** What the last line of the stream says never changes the header scan. */
  lemma LastLineNeverExamined(lines: seq<string>, x: string, y: string)
    ensures ExaminedLines(lines + [x]) == ExaminedLines(lines + [y])
    ensures HeadingLines(lines + [x]) == HeadingLines(lines + [y])
  {
    assert (lines + [x])[..|lines|] == lines == (lines + [y])[..|lines|];
  }

  /** One more line of the scan. */
  lemma ScanOneMore(lines: seq<string>, k: nat)
    requires k < |lines|
    ensures FirstUnitsLine(lines[..k + 1]) ==
      if FirstUnitsLine(lines[..k]) != -1 then FirstUnitsLine(lines[..k]) else if IsUnitsLine(lines[k]) then k else -1
    ensures ConstantLines(lines[..k + 1]) == ConstantLines(lines[..k]) + (if '=' in lines[k] then [lines[k]] else [])
  {
    assert lines[..k + 1][..k] == lines[..k];
  }

  /** The scan stops at the first units line before the last line. */
  lemma ScanStopsAt(lines: seq<string>, k: nat)
    requires k < |lines| - 1 && FirstUnitsLine(lines[..k]) == -1 && IsUnitsLine(lines[k])
    ensures ExaminedLines(lines) == lines[..k]
    ensures HeadingLines(lines) == [if k == 0 then "" else lines[k - 1], lines[k]]
  {
    ScanOneMore(lines, k);
    FirstUnitsLineExtend(lines[..k + 1], lines[k + 1..|lines| - 1]);
    assert lines[..k + 1] + lines[k + 1..|lines| - 1] == lines[..|lines| - 1];
    assert lines[..|lines| - 1][..k] == lines[..k];
  }

  /** Without a units line the scan examines every line but the last. */
  lemma ScanRunsOut(lines: seq<string>)
    requires lines != [] && FirstUnitsLine(lines[..|lines| - 1]) == -1
    ensures ExaminedLines(lines) == lines[..|lines| - 1]
    ensures HeadingLines(lines) == []
  {
  }

  /** `ReadApsimHeaderLines`: collects the constant lines and the headings/units pair. */
  method ReadApsimHeaderLines(lines: seq<string>) returns (constantLines: seq<string>, headingLines: seq<string>)
    ensures constantLines == ConstantLines(ExaminedLines(lines))
    ensures headingLines == HeadingLines(lines)
  {
    constantLines := [];
    headingLines := [];
    if lines == [] {
      return;
    }
    var previous := "";
    var k := 0;
    while k < |lines| - 1
      invariant 0 <= k <= |lines| - 1
      invariant FirstUnitsLine(lines[..k]) == -1
      invariant constantLines == ConstantLines(lines[..k])
      invariant previous == if k == 0 then "" else lines[k - 1]
    {
      var line := lines[k];
      ScanOneMore(lines, k);
      if IndexOf(line, '=') != -1 {
        constantLines := constantLines + [line];
      } else {
        var p := IndexNotBlank(line);
        if p != -1 && line[p] == '(' {
          headingLines := [previous, line];
          ScanStopsAt(lines, k);
          return;
        }
      }
      previous := line;
      k := k + 1;
    }
    ScanRunsOut(lines);
  }

  // ---------------------------------------------------------------------
  // Constant lines.

  /**
   * One constant line: the '!' comment is split off (and kept untrimmed), the
   * name is the trimmed text before the first '=', stored as "Title" when it
   * reads "title" in any case, and the value is the trimmed rest with its
   * bracketed unit split off. A line whose '=' sits inside the comment gives
   * no constant.
   */
  function ParseConstantLine(line: string): Option<ApsimConstant>
  {
    var split := SplitOffAfterDelimiter(line, '!');
    var body := split.0;
    var pos := IndexOf(body, '=');
    if pos == -1 then None
    else
      var name := Trim(body[..pos]);
      var valueAndUnit := SplitOffBracketedValue(Trim(body[pos + 1..]), '(', ')');
      Some(ApsimConstant(if ToLower(name) == "title" then "Title" else name, valueAndUnit.0, valueAndUnit.1, split.1))
  }

  /** A line gives a constant exactly when its text before '!' holds '=', and keeps the text after '!' as the comment. */
  lemma ParseConstantLineSome(line: string)
    ensures var r := ParseConstantLine(line);
      r.Some? <==> '=' in SplitOffAfterDelimiter(line, '!').0
    ensures var r := ParseConstantLine(line);
      r.Some? ==> r.value.comment == SplitOffAfterDelimiter(line, '!').1
  {
  }

  lemma LowerTitle()
    ensures ToLower("Title") == "title"
  {
  }

  /** A constant named "title" in any case is stored as "Title". */
  lemma TitleNormalised(line: string)
    requires ParseConstantLine(line).Some?
    ensures EqualsIgnoreCase(ParseConstantLine(line).value.name, "title") ==> ParseConstantLine(line).value.name == "Title"
  {
    LowerTitle();
  }

  /**
   * A line `name = value (unit) ! comment` gives the trimmed name, value and
   * unit and the comment as it stands.
   */
  lemma ConstantLineParts(name: string, value: string, unit: string, comment: string)
    requires '=' !in name && '!' !in name
    requires '!' !in value && '(' !in value && ')' !in value
    requires '!' !in unit && '(' !in unit && ')' !in unit
    ensures ParseConstantLine(name + "=" + value + "(" + unit + ")!" + comment)
      == Some(ApsimConstant(if ToLower(Trim(name)) == "title" then "Title" else Trim(name), Trim(value), Trim(unit), comment))
  {
    var rest := value + "(" + unit + ")";
    var body := name + "=" + rest;
    assert name + "=" + value + "(" + unit + ")!" + comment == body + "!" + comment;
    IndexOfFirst(body, '!', comment);
    assert (body + "!" + comment)[..|body|] == body;
    IndexOfFirst(name, '=', rest);
    assert body[..|name|] == name && body[|name| + 1..] == rest;
    var tv := TrimStartWhere(value, IsBlank);
    TrimBeforeBracket(value, unit);
    TrimStartSuffix(value, IsBlank);
    BracketedSuffix(tv, unit);
    assert TrimStartWhere(tv, IsBlank) == tv;
  }

  /** A line `name = value` without unit or comment gives the trimmed name and value. */
  lemma ConstantLineWithoutUnit(name: string, value: string)
    requires '=' !in name && '!' !in name
    requires '!' !in value && '(' !in value
    ensures ParseConstantLine(name + "=" + value)
      == Some(ApsimConstant(if ToLower(Trim(name)) == "title" then "Title" else Trim(name), Trim(value), "", ""))
  {
    var line := name + "=" + value;
    assert '!' !in line;
    IndexOfFirst(name, '=', value);
    assert line[..|name|] == name && line[|name| + 1..] == value;
    TrimLacks(value, '(');
  }

  /** Trimming a value followed by its bracketed unit trims the front of the value only. */
  lemma TrimBeforeBracket(value: string, unit: string)
    ensures Trim(value + "(" + unit + ")") == TrimStartWhere(value, IsBlank) + "(" + unit + ")"
  {
    var tail := "(" + unit + ")";
    assert tail[0] == '(' && tail[|tail| - 1] == ')';
    TrimBeforeTail(value, tail);
    Bracketed(value, unit);
    Bracketed(TrimStartWhere(value, IsBlank), unit);
  }

  /** A bracketed unit appended piece by piece is the same as appended whole. */
  lemma Bracketed(s: string, unit: string)
    ensures s + "(" + unit + ")" == s + ("(" + unit + ")")
  {
    AppendRegroup(s, "(", unit);
    AppendRegroup(s, "(" + unit, ")");
  }

  /** The constants the lines give, in order. */
  function ParsedConstants(lines: seq<string>): (r: seq<ApsimConstant>)
    ensures |r| <= |lines|
  {
    if lines == [] then []
    else
      var last := lines[|lines| - 1];
      var front := ParsedConstants(lines[..|lines| - 1]);
      match ParseConstantLine(last)
      case Some(c) => front + [c]
      case None => front
  }

  /** One more constant line parsed. */
  lemma ParsedOneMore(lines: seq<string>, k: nat)
    requires k < |lines|
    ensures ParseConstantLine(lines[k]).Some? ==>
      ParsedConstants(lines[..k + 1]) == ParsedConstants(lines[..k]) + [ParseConstantLine(lines[k]).value]
    ensures ParseConstantLine(lines[k]).None? ==> ParsedConstants(lines[..k + 1]) == ParsedConstants(lines[..k])
  {
    assert lines[..k + 1][..k] == lines[..k];
  }

  lemma PrefixWhole(lines: seq<string>)
    ensures lines[..|lines|] == lines
  {
  }

  /** Appending one constant finds a title when it is one or one came before. */
  lemma HasTitleAppend(constants: seq<ApsimConstant>, c: ApsimConstant)
    ensures HasTitle(constants + [c]) == (HasTitle(constants) || c.name == "Title")
  {
    assert (constants + [c])[..|constants|] == constants;
  }

  /** Whether some constant is named "Title", looking from the last one back. */
  predicate HasTitle(constants: seq<ApsimConstant>)
  {
    constants != [] && (constants[|constants| - 1].name == "Title" || HasTitle(constants[..|constants| - 1]))
  }

  /** `HasTitle` holds exactly when some constant is named "Title". */
  lemma {:induction false} HasTitleSome(constants: seq<ApsimConstant>)
    ensures HasTitle(constants) <==> exists i :: 0 <= i < |constants| && constants[i].name == "Title"
  {
    if constants != [] {
      var front := constants[..|constants| - 1];
      HasTitleSome(front);
      if HasTitle(front) {
        var i :| 0 <= i < |front| && front[i].name == "Title";
        assert constants[i] == front[i];
      }
      if exists i :: 0 <= i < |constants| && constants[i].name == "Title" {
        var i :| 0 <= i < |constants| && constants[i].name == "Title";
        if i < |front| {
          assert front[i] == constants[i];
        }
      }
    }
  }

  /** The headings or units of one line: comma-separated and trimmed in CSV files, blank-separated otherwise. */
  function HeadingWords(line: string, csv: bool): (r: seq<string>)
    ensures csv ==> |r| >= 1
  {
    if csv then TrimAll(Split(TrimEndWhere(line, IsComma), ',')) else SplitWords(line)
  }

  function TrimAll(words: seq<string>): (r: seq<string>)
    ensures |r| == |words|
    ensures forall i :: 0 <= i < |words| ==> r[i] == Trim(words[i])
  {
    if words == [] then [] else [Trim(words[0])] + TrimAll(words[1..])
  }

  /** Whether the header names a title, as a constant or as a heading. */
  predicate TitleFound(parsed: seq<ApsimConstant>, headingLines: seq<string>, csv: bool)
    requires |headingLines| == 0 || |headingLines| == 2
  {
    HasTitle(parsed) || (|headingLines| == 2 && IndexOfIgnoreCase(HeadingWords(headingLines[0], csv), "title") != -1)
  }

  /** The Title constant added when the header names no title: the file name without directory or extension. */
  function TitleIfMissing(parsed: seq<ApsimConstant>, headingLines: seq<string>, csv: bool, fileName: string): (r: seq<ApsimConstant>)
    requires |headingLines| == 0 || |headingLines| == 2
    ensures |r| <= 1
    ensures r == [] <==> TitleFound(parsed, headingLines, csv)
    ensures r != [] ==> HasTitle(parsed + r)
  {
    if TitleFound(parsed, headingLines, csv) then []
    else
      var r := [ApsimConstant("Title", FileNameWithoutExtension(fileName), "", "")];
      assert (parsed + r)[|parsed|].name == "Title";
      r
  }

  // ---------------------------------------------------------------------
  // Data lines.

  /**
   * The part of a data line that holds values: when a '!' appears after the
   * first character the line is cut so that both the '!' and the character
   * before it are dropped.
   */
  function LineBody(line: string): (r: string)
    ensures '!' !in line || line[0] == '!' ==> r == line
    ensures |r| <= |line| && r == line[..|r|]
  {
    var bang := IndexOf(line, '!');
    if bang > 0 then line[..bang - 1] else line
  }

  /** A comment after the values is ignored, together with the character just before its '!'. */
  lemma CommentIgnored(values: string, comment1: string, comment2: string)
    requires values != [] && '!' !in values
    ensures LineBody(values + "!" + comment1) == LineBody(values + "!" + comment2) == values[..|values| - 1]
  {
    CutAtBang(values, comment1);
    CutAtBang(values, comment2);
  }

  lemma CutAtBang(values: string, comment: string)
    requires values != [] && '!' !in values
    ensures LineBody(values + "!" + comment) == values[..|values| - 1]
  {
    var line := values + "!" + comment;
    assert line[|values|] == '!';
    assert line[..|values|] == values;
    assert IndexOf(line, '!') == |values|;
  }

  /**
   * The cut the comment marker evidently intends: when a '!' appears after
   * the first character, everything before it.
   */
  function CorrectedLineBody(line: string): (r: string)
    ensures '!' !in line || line[0] == '!' ==> r == line
    ensures '!' in line && line[0] != '!' ==> '!' !in r && |r| < |line| && line == r + "!" + line[|r| + 1..]
  {
    var bang := IndexOf(line, '!');
    if bang > 0 then line[..bang] else line
  }

  /** Every value before the comment survives the corrected cut. */
  lemma CorrectedCutKeepsValues(values: string, comment: string)
    requires values != [] && '!' !in values
    ensures CorrectedLineBody(values + "!" + comment) == values
  {
    var line := values + "!" + comment;
    assert line[|values|] == '!';
    assert line[..|values|] == values;
  }

  /** A row whose last value touches its comment loses that value's last character as written: "1 2 3!c" reads as 1, 2 and nothing. */
  lemma CutDropsLastValue()
    ensures SplitWords(LineBody("1 2 3!c")) == ["1", "2"]
    ensures SplitWords(CorrectedLineBody("1 2 3!c")) == ["1", "2", "3"]
  {
    assert "1 2 3" + "!" + "c" == "1 2 3!c";
    CutAtBang("1 2 3", "c");
    CorrectedCutKeepsValues("1 2 3", "c");
    assert "1 2 3"[..4] == "1 2 ";
    WordsOneTwo();
    WordsOneTwoThree();
  }

  /** A blank followed by a word and then by a blank or nothing: the word, then the words of the rest. */
  lemma SpacedWord(w: string, rest: string)
    requires w != [] && forall j :: 0 <= j < |w| ==> !IsBlank(w[j])
    requires rest == [] || IsBlank(rest[0])
    ensures SplitWords([' '] + w + rest) == [w] + SplitWords(rest)
  {
    assert [' '] + w + rest == [' '] + (w + rest);
    SplitWordsBlank(' ', w + rest);
    SplitWordsWord(w, rest);
  }

  lemma WordsTwo()
    ensures SplitWords(" 2 ") == ["2"]
  {
    assert " 2 " == [' '] + "2" + " ";
    SpacedWord("2", " ");
    assert " " == [' '] + "";
    SplitWordsBlank(' ', "");
    assert SplitWords("") == [];
  }

  lemma WordsOneTwo()
    ensures SplitWords("1 2 ") == ["1", "2"]
  {
    assert "1 2 " == "1" + " 2 ";
    SplitWordsWord("1", " 2 ");
    WordsTwo();
  }

  lemma WordsTwoThree()
    ensures SplitWords(" 2 3") == ["2", "3"]
  {
    assert " 2 3" == [' '] + "2" + " 3";
    SpacedWord("2", " 3");
    assert " 3" == [' '] + "3" + "";
    SpacedWord("3", "");
    assert SplitWords("") == [];
  }

  lemma WordsOneTwoThree()
    ensures SplitWords("1 2 3") == ["1", "2", "3"]
  {
    assert "1 2 3" == "1" + " 2 3";
    SplitWordsWord("1", " 2 3");
    WordsTwoThree();
  }

  /**
   * The text a data line's words are split from, and which a count mismatch
   * names: the line cut before its comment (the corrected cut) and, for a
   * CSV file, without its trailing commas.
   */
  function LineText(line: string, csv: bool): (r: string)
    ensures r <= CorrectedLineBody(line)
    ensures !csv ==> r == CorrectedLineBody(line)
    ensures csv ==> r == [] || r[|r| - 1] != ','
  {
    var body := CorrectedLineBody(line);
    TrimEndPrefix(body, IsComma);
    if csv then TrimEndWhere(body, IsComma) else body
  }

  /** A CSV line without a comment is named without any of its trailing commas. */
  lemma CsvLineTextDropsCommas(values: string, n: nat)
    requires values != [] && values[|values| - 1] != ',' && '!' !in values
    ensures LineText(values + seq(n, _ => ','), true) == values
  {
    var line := values + seq(n, _ => ',');
    assert '!' !in line by {
      forall k | 0 <= k < |line| ensures line[k] != '!' {
        if k < |values| { assert line[k] == values[k]; }
      }
    }
    TrailingCommas(values, n);
  }

  lemma {:induction false} TrailingCommas(values: string, n: nat)
    requires values != [] && values[|values| - 1] != ','
    ensures TrimEndWhere(values + seq(n, _ => ','), IsComma) == values
  {
    if n == 0 {
      assert values + seq(0, _ => ',') == values;
    } else {
      var line := values + seq(n, _ => ',');
      assert line[..|line| - 1] == values + seq(n - 1, _ => ',');
      TrailingCommas(values, n - 1);
    }
  }

  /** The raw words of a data line, before quotes are stripped. */
  function LineWords(line: string, csv: bool): (r: seq<string>)
    ensures csv ==> |r| >= 1
  {
    if csv then Split(LineText(line, csv), ',') else SplitWords(LineText(line, csv))
  }

  // ---------------------------------------------------------------------
  // Value conversion.

  /** The missing-value markers. */
  predicate IsMissingMarker(word: string)
  {
    word == "?" || word == "*" || word == ""
  }

  /**
   * A lower-case date format rewritten to .NET's: "mmm" → "MMM", "mm" → "m",
   * "dd" → "d" and "m" → "M", applied in that order.
   */
  function RewriteDateFormat(f: string): (r: string)
    ensures 'm' !in r
  {
    var g := Replace(Replace(Replace(f, "mmm", "MMM"), "mm", "m"), "dd", "d");
    ReplaceRemovesChar(g, 'm', "M");
    Replace(g, "m", "M")
  }

  /**
   * The .NET date format a units entry asks for: its lower-cased bracketed
   * part rewritten, or "yyyy-MM-dd" when that leaves nothing.
   */
  function DateFormat(unit: string): (r: string)
    ensures r != []
    ensures 'm' !in r
  {
    var f := RewriteDateFormat(SplitOffBracketedValue(ToLower(unit), '(', ')').1);
    if f == "" then DefaultDateFormat else f
  }

  /** A units entry without an opening bracket asks for the default format. */
  lemma UnbracketedUnitGivesDefault(unit: string)
    requires '(' !in unit
    ensures DateFormat(unit) == DefaultDateFormat
  {
    var lower := ToLower(unit);
    assert '(' !in lower by {
      forall i | 0 <= i < |lower|
        ensures lower[i] != '('
      {
        assert lower[i] == LowerChar(unit[i]);
      }
    }
    assert Replace("", "mmm", "MMM") == "";
    assert Replace("", "mm", "m") == "";
    assert Replace("", "dd", "d") == "";
    assert Replace("", "m", "M") == "";
  }

  /** Text followed by one bracketed part splits into the two, each trimmed. */
  lemma BracketedSuffix(a: string, x: string)
    requires '(' !in a && ')' !in a && '(' !in x && ')' !in x
    ensures SplitOffBracketedValue(a + "(" + x + ")", '(', ')') == (Trim(a), Trim(x))
  {
    var u := a + "(" + x + ")";
    assert forall j :: 0 <= j < |a| ==> u[j] == a[j];
    assert forall j :: |a| < j < |u| - 1 ==> u[j] == x[j - |a| - 1];
    assert LastIndexOf(u, '(') == |a|;
    assert u[..|a|] + u[|u|..] == a;
    assert u[|a| + 1..|u| - 1] == x;
  }

  /** Text that is one bracketed part and nothing else. */
  lemma BracketedWhole(x: string)
    requires '(' !in x && ')' !in x
    ensures SplitOffBracketedValue("(" + x + ")", '(', ')').1 == Trim(x)
  {
    BracketedSuffix("", x);
    assert "" + "(" + x + ")" == "(" + x + ")";
  }

  /** Brackets holding nothing but blanks ask for the default format. */
  lemma BlankBracketsGiveDefault(blanks: string)
    requires forall i :: 0 <= i < |blanks| ==> IsBlank(blanks[i])
    ensures DateFormat("(" + blanks + ")") == DefaultDateFormat
  {
    LowerBracketed(blanks);
    TrimBlanks(blanks);
    assert Replace("", "mmm", "MMM") == "";
    assert Replace("", "mm", "m") == "";
    assert Replace("", "dd", "d") == "";
    assert Replace("", "m", "M") == "";
  }

  /** One field of a date format as a units entry writes it, in lower case. */
  datatype DatePart = Day | DayPadded | Month | MonthPadded | MonthName | ShortYear | Year

  function PartText(p: DatePart): string
  {
    match p
    case Day => "d"
    case DayPadded => "dd"
    case Month => "m"
    case MonthPadded => "mm"
    case MonthName => "mmm"
    case ShortYear => "yy"
    case Year => "yyyy"
  }

  /** The .NET custom format specifier the field is read with. */
  function PartPattern(p: DatePart): string
  {
    match p
    case Day => "d"
    case DayPadded => "d"
    case Month => "M"
    case MonthPadded => "M"
    case MonthName => "MMM"
    case ShortYear => "yy"
    case Year => "yyyy"
  }

  /** A character that may separate the fields: no day or month letter, bracket or capital. */
  predicate IsFormatSeparator(c: char)
  {
    c != 'd' && c != 'm' && c != '(' && c != ')' && !('A' <= c <= 'Z')
  }

  predicate IsFieldLetter(c: char)
  {
    c == 'd' || c == 'm' || c == 'y'
  }

  /** The fields written out with a separator between each two. */
  function FormatText(parts: seq<DatePart>, separators: string): string
    requires |parts| == |separators| + 1
    decreases |separators|
  {
    if separators == [] then PartText(parts[0])
    else PartText(parts[0]) + [separators[0]] + FormatText(parts[1..], separators[1..])
  }

  /** The .NET format for the same fields and separators. */
  function FormatPattern(parts: seq<DatePart>, separators: string): (r: string)
    requires |parts| == |separators| + 1
    ensures r != []
    decreases |separators|
  {
    if separators == [] then PartPattern(parts[0])
    else PartPattern(parts[0]) + [separators[0]] + FormatPattern(parts[1..], separators[1..])
  }

  /** Text made of field letters and separators only. */
  predicate FormatChars(x: string)
  {
    forall i :: 0 <= i < |x| ==> IsFieldLetter(x[i]) || IsFormatSeparator(x[i])
  }

  /** A written-out format starts and ends with a field letter and holds only field letters and separators. */
  lemma {:induction false} FormatTextChars(parts: seq<DatePart>, separators: string)
    requires |parts| == |separators| + 1
    requires forall i :: 0 <= i < |separators| ==> IsFormatSeparator(separators[i])
    ensures var x := FormatText(parts, separators);
      x != [] && IsFieldLetter(x[0]) && IsFieldLetter(x[|x| - 1]) && FormatChars(x)
    decreases |separators|
  {
    PartTextLetters(parts[0]);
    if separators != [] {
      var tail := FormatText(parts[1..], separators[1..]);
      FormatTextChars(parts[1..], separators[1..]);
      var head := PartText(parts[0]) + [separators[0]];
      assert FormatChars(head) by {
        assert forall i :: 0 <= i < |head| - 1 ==> head[i] == PartText(parts[0])[i];
      }
      FormatCharsAppend(head, tail);
    }
  }

  /** Each field is written with field letters only. */
  lemma PartTextLetters(p: DatePart)
    ensures PartText(p) != [] && IsFieldLetter(PartText(p)[0]) && IsFieldLetter(PartText(p)[|PartText(p)| - 1])
    ensures forall i :: 0 <= i < |PartText(p)| ==> IsFieldLetter(PartText(p)[i])
  {
  }

  lemma FormatCharsAppend(a: string, b: string)
    requires FormatChars(a) && FormatChars(b)
    ensures FormatChars(a + b)
  {
    assert forall i :: |a| <= i < |a + b| ==> (a + b)[i] == b[i - |a|];
  }

  /** Each field is rewritten to its .NET specifier. */
  lemma RewritePart(p: DatePart)
    ensures RewriteDateFormat(PartText(p)) == PartPattern(p)
  {
    match p
    case Day => RewriteDay(PartText(p));
    case DayPadded => RewriteDayPadded(PartText(p));
    case Month => RewriteMonth(PartText(p));
    case MonthPadded => RewriteMonthPadded(PartText(p));
    case MonthName => RewriteMonthName(PartText(p));
    case ShortYear => RewriteKeeps(PartText(p));
    case Year => RewriteKeeps(PartText(p));
  }

  /** Text without day or month letters is not rewritten. */
  lemma RewriteKeeps(t: string)
    requires 'd' !in t && 'm' !in t
    ensures RewriteDateFormat(t) == t
  {
    ReplaceAbsent(t, "mmm", "MMM");
    ReplaceAbsent(t, "mm", "m");
    ReplaceAbsent(t, "dd", "d");
    ReplaceAbsent(t, "m", "M");
  }

  lemma RewriteDay(t: string)
    requires t == "d"
    ensures RewriteDateFormat(t) == "d"
  {
    ReplaceAbsent(t, "mmm", "MMM");
    ReplaceAbsent(t, "mm", "m");
    assert Replace(t, "dd", "d") == t;
    ReplaceAbsent(t, "m", "M");
  }

  lemma RewriteDayPadded(t: string)
    requires t == "dd"
    ensures RewriteDateFormat(t) == "d"
  {
    ReplaceAbsent(t, "mmm", "MMM");
    ReplaceAbsent(t, "mm", "m");
    ReplaceWhole("dd", "d");
    ReplaceAbsent("d", "m", "M");
  }

  lemma RewriteMonth(t: string)
    requires t == "m"
    ensures RewriteDateFormat(t) == "M"
  {
    assert Replace(t, "mmm", "MMM") == t;
    assert Replace(t, "mm", "m") == t;
    ReplaceAbsent(t, "dd", "d");
    ReplaceWhole("m", "M");
  }

  lemma RewriteMonthPadded(t: string)
    requires t == "mm"
    ensures RewriteDateFormat(t) == "M"
  {
    assert Replace(t, "mmm", "MMM") == t;
    ReplaceWhole("mm", "m");
    ReplaceAbsent("m", "dd", "d");
    ReplaceWhole("m", "M");
  }

  lemma RewriteMonthName(t: string)
    requires t == "mmm"
    ensures RewriteDateFormat(t) == "MMM"
  {
    ReplaceWhole("mmm", "MMM");
    ReplaceAbsent("MMM", "mm", "m");
    ReplaceAbsent("MMM", "dd", "d");
    ReplaceAbsent("MMM", "m", "M");
  }

  /** The rewrite works on each side of a separator independently. */
  lemma RewriteAround(a: string, c: char, b: string)
    requires c != 'd' && c != 'm'
    ensures RewriteDateFormat(a + [c] + b) == RewriteDateFormat(a) + [c] + RewriteDateFormat(b)
  {
    ReplaceAround(a, c, b, "mmm", "MMM");
    var a1, b1 := Replace(a, "mmm", "MMM"), Replace(b, "mmm", "MMM");
    ReplaceAround(a1, c, b1, "mm", "m");
    var a2, b2 := Replace(a1, "mm", "m"), Replace(b1, "mm", "m");
    ReplaceAround(a2, c, b2, "dd", "d");
    var a3, b3 := Replace(a2, "dd", "d"), Replace(b2, "dd", "d");
    ReplaceAround(a3, c, b3, "m", "M");
  }

  /** Fields and separators rewrite to the .NET format field by field. */
  lemma {:induction false} RewriteFormat(parts: seq<DatePart>, separators: string)
    requires |parts| == |separators| + 1
    requires forall i :: 0 <= i < |separators| ==> IsFormatSeparator(separators[i])
    ensures RewriteDateFormat(FormatText(parts, separators)) == FormatPattern(parts, separators)
    decreases |separators|
  {
    RewritePart(parts[0]);
    if separators != [] {
      RewriteAround(PartText(parts[0]), separators[0], FormatText(parts[1..], separators[1..]));
      RewriteFormat(parts[1..], separators[1..]);
    }
  }

  /** Field letters and separators hold no bracket and no capital. */
  lemma FormatCharsPlain(x: string)
    requires FormatChars(x)
    ensures '(' !in x && ')' !in x
    ensures forall i :: 0 <= i < |x| ==> !('A' <= x[i] <= 'Z')
  {
    forall i | 0 <= i < |x|
      ensures x[i] != '(' && x[i] != ')' && !('A' <= x[i] <= 'Z')
    {
      assert IsFieldLetter(x[i]) || IsFormatSeparator(x[i]);
    }
  }

  /** The bracketed part of field letters and separators in brackets is that text. */
  lemma BracketedFormat(x: string)
    requires x != [] && IsFieldLetter(x[0]) && IsFieldLetter(x[|x| - 1])
    requires FormatChars(x)
    ensures SplitOffBracketedValue(ToLower("(" + x + ")"), '(', ')').1 == x
  {
    assert !IsBlank(x[0]) && !IsBlank(x[|x| - 1]);
    TrimKeeps(x);
    FormatCharsPlain(x);
    LowerBracketed(x);
  }

  /** Lower-casing text without capitals in brackets keeps its bracketed part. */
  lemma LowerBracketed(x: string)
    requires '(' !in x && ')' !in x
    requires forall i :: 0 <= i < |x| ==> !('A' <= x[i] <= 'Z')
    ensures SplitOffBracketedValue(ToLower("(" + x + ")"), '(', ')').1 == Trim(x)
  {
    LowerKeepsBrackets(x);
    BracketedWhole(x);
  }

  /** Brackets around text without capitals are their own lower case. */
  lemma LowerKeepsBrackets(x: string)
    requires forall i :: 0 <= i < |x| ==> !('A' <= x[i] <= 'Z')
    ensures ToLower("(" + x + ")") == "(" + x + ")"
  {
    var u := "(" + x + ")";
    assert forall i :: 0 < i < |u| - 1 ==> u[i] == x[i - 1];
    ToLowerKeeps(u);
  }

  /**
   * A units entry such as "(dd/mm/yyyy)" asks for the .NET format of its
   * fields ("d/M/yyyy"): days and one- or two-letter months lose their
   * padding, "mmm" becomes the month name "MMM", years and separators stay.
   */
  lemma DateFormatOfParts(parts: seq<DatePart>, separators: string)
    requires |parts| == |separators| + 1
    requires forall i :: 0 <= i < |separators| ==> IsFormatSeparator(separators[i])
    ensures DateFormat("(" + FormatText(parts, separators) + ")") == FormatPattern(parts, separators)
  {
    FormatTextChars(parts, separators);
    BracketedFormat(FormatText(parts, separators));
    RewriteFormat(parts, separators);
  }

  /** Three fields written out with their two separators. */
  lemma ThreeFields(parts: seq<DatePart>, separators: string)
    requires |parts| == 3 && |separators| == 2
    ensures FormatText(parts, separators)
      == PartText(parts[0]) + [separators[0]] + PartText(parts[1]) + [separators[1]] + PartText(parts[2])
    ensures FormatPattern(parts, separators)
      == PartPattern(parts[0]) + [separators[0]] + PartPattern(parts[1]) + [separators[1]] + PartPattern(parts[2])
  {
    var rest, restSeparators := parts[1..], separators[1..];
    assert FormatText(rest, restSeparators) == PartText(rest[0]) + [restSeparators[0]] + FormatText(rest[1..], restSeparators[1..]);
    assert FormatPattern(rest, restSeparators) == PartPattern(rest[0]) + [restSeparators[0]] + FormatPattern(rest[1..], restSeparators[1..]);
  }

  /** "(dd/mm/yyyy)" written as fields and separators. */
  lemma SlashedFields(parts: seq<DatePart>, separators: string)
    requires parts == [DayPadded, MonthPadded, Year] && separators == "//"
    ensures |parts| == |separators| + 1
    ensures "(" + FormatText(parts, separators) + ")" == "(dd/mm/yyyy)"
    ensures FormatPattern(parts, separators) == "d/M/yyyy"
  {
    ThreeFields(parts, separators);
  }

  /** "(dd-mmm-yyyy)" written as fields and separators. */
  lemma NamedMonthFields(parts: seq<DatePart>, separators: string)
    requires parts == [DayPadded, MonthName, Year] && separators == "--"
    ensures |parts| == |separators| + 1
    ensures "(" + FormatText(parts, separators) + ")" == "(dd-mmm-yyyy)"
    ensures FormatPattern(parts, separators) == "d-MMM-yyyy"
  {
    ThreeFields(parts, separators);
  }

  /** The usual units entry "(dd/mm/yyyy)". */
  lemma SlashedDayMonthYear(unit: string)
    requires unit == "(dd/mm/yyyy)"
    ensures DateFormat(unit) == "d/M/yyyy"
  {
    var parts, separators := [DayPadded, MonthPadded, Year], "//";
    SlashedFields(parts, separators);
    DateFormatOfParts(parts, separators);
  }

  /** The units entry "(dd-mmm-yyyy)", with the month by name. */
  lemma NamedMonthDayMonthYear(unit: string)
    requires unit == "(dd-mmm-yyyy)"
    ensures DateFormat(unit) == "d-MMM-yyyy"
  {
    var parts, separators := [DayPadded, MonthName, Year], "--";
    NamedMonthFields(parts, separators);
    DateFormatOfParts(parts, separators);
  }

  /**
   * The value of word `w` of a row: the trimmed word, missing for a marker,
   * otherwise converted by its column's type; every failure (an unparsable
   * word, a column or unit past the end of its list) gives a missing value.
   */
  function WordValue(word: string, w: nat, columnTypes: seq<ColumnType>, units: Option<seq<string>>,
                     parseDate: (string, string) -> Option<DateTime>, parseNumber: string -> Option<real>): (r: FieldValue)
    ensures IsMissingMarker(Trim(word)) ==> r == Missing
    ensures w >= |columnTypes| ==> r == Missing
    ensures r.Number? ==> columnTypes[w] == FloatColumn && parseNumber(Trim(word)) == Some(r.x)
    ensures r.DateValue? ==> columnTypes[w] == DateColumn && units.Some? && w < |units.value|
    ensures r.DateValue? ==> parseDate(Trim(word), DateFormat(units.value[w])) == Some(r.date)
    ensures r.Word? ==> columnTypes[w] == StringColumn && r.s == Trim(word) && !IsMissingMarker(r.s)
    ensures !IsMissingMarker(Trim(word)) && w < |columnTypes| ==>
      match columnTypes[w]
      case StringColumn => r == Word(Trim(word))
      case FloatColumn => r == (match parseNumber(Trim(word)) case Some(x) => Number(x) case None => Missing)
      case DateColumn =>
        if units.Some? && w < |units.value| then
          r == (match parseDate(Trim(word), DateFormat(units.value[w])) case Some(d) => DateValue(d) case None => Missing)
        else r == Missing
  {
    var t := Trim(word);
    if IsMissingMarker(t) || w >= |columnTypes| then Missing
    else match columnTypes[w]
      case DateColumn =>
        if units.None? || w >= |units.value| then Missing
        else (match parseDate(t, DateFormat(units.value[w])) case Some(d) => DateValue(d) case None => Missing)
      case FloatColumn =>
        (match parseNumber(t) case Some(x) => Number(x) case None => Missing)
      case StringColumn => Word(t)
  }

  /** `Convert.ToInt32(double)`: to the nearest integer, halves to the even one. */
  function RoundHalfEven(x: real): (n: int)
    ensures n as real - 0.5 <= x <= n as real + 0.5
    ensures x == n as real - 0.5 || x == n as real + 0.5 ==> n % 2 == 0
  {
    var f := x.Floor;
    var d := x - f as real;
    if d < 0.5 then f else if d > 0.5 then f + 1 else if f % 2 == 0 then f else f + 1
  }

  /** `Convert.ToInt32(object)` on a converted value. */
  function ToInt32(v: FieldValue, parseInt: string -> Option<int>): (r: Result<int>)
    ensures r.Success? ==> Int32Min <= r.value <= Int32Max
    ensures v.Missing? || v.DateValue? ==> r == Failure(InvalidCast)
    ensures v.Number? && Int32Min <= RoundHalfEven(v.x) <= Int32Max ==> r == Success(RoundHalfEven(v.x))
  {
    match v
    case Missing => Failure(InvalidCast)
    case DateValue(_) => Failure(InvalidCast)
    case Number(x) =>
      var n := RoundHalfEven(x);
      if Int32Min <= n <= Int32Max then Success(n) else Failure(Overflow)
    case Word(s) =>
      match parseInt(s)
      case None => Failure(FormatError)
      case Some(n) => if Int32Min <= n <= Int32Max then Success(n) else Failure(Overflow)
  }

  // ---------------------------------------------------------------------
  // Dates from a row.

  /**
   * The date of a row from its year, month and day columns: nothing before
   * year 1 gives `new DateTime()`; a positive day counts from 1 January of
   * the year (the month is then ignored); otherwise the first day of the
   * month, month 0 read as January.
   */
  function AssembleDate(year: int, month: int, day: int): (r: Result<DateTime>)
    ensures year <= 0 ==> r == Success(DateTime(0))
    ensures year > 0 && day <= 0 ==> r == FromYmd(year, if month == 0 then 1 else month, 1)
    ensures year > 0 && day > 0 ==> (r.Success? <==> year <= 9999 && DaysBeforeYear(year) + day - 1 <= MaxDays)
    ensures year > 0 && day > 0 && r.Success? ==> r.value.days == DaysBeforeYear(year) + day - 1
  {
    if year > 0 then
      if day > 0 then
        match FromYmd(year, 1, 1)
        case Success(jan1) => AddDays(jan1, day - 1)
        case Failure(e) => Failure(e)
      else FromYmd(year, if month == 0 then 1 else month, 1)
    else Success(DateTime(0))
  }

  /** Counting days from 1 January agrees with the calendar date. */
  lemma DayCountAgreesWithCalendar(year: int, month: int, day: int, anyMonth: int)
    requires FromYmd(year, month, day).Success?
    ensures AssembleDate(year, anyMonth, DaysBeforeMonth(year, month) + day) == FromYmd(year, month, day)
  {
    DayOfYear(year, month, day);
  }

  /** The progress of the column scan: still collecting, or finished with a result. */
  datatype DateScan = Scanning(year: int, month: int, day: int) | Found(result: Result<DateTime>)

  /** `Headings[col]`: fails when there are no headings or too few. */
  function HeadingAt(headings: Option<seq<string>>, col: nat): (r: Result<string>)
    ensures r.Success? <==> headings.Some? && col < |headings.value|
  {
    if headings.None? then Failure(NullReference)
    else if col < |headings.value| then Success(headings.value[col])
    else Failure(IndexOutOfRange)
  }

  /** One column of the scan: a "date" column ends it; "year", "month" and "day" columns record their value. */
  function ColumnStep(s: DateScan, heading: Result<string>, columnTypes: seq<ColumnType>, col: nat, value: FieldValue,
                      parseDate: FieldValue -> Option<DateTime>, parseInt: string -> Option<int>): (r: DateScan)
    requires s.Scanning?
  {
    match heading
    case Failure(e) => Found(Failure(e))
    case Success(h) =>
      if EqualsIgnoreCase(h, "date") then
        Found(
          if col >= |columnTypes| then Failure(ArrayIndexOutOfRange)
          else if columnTypes[col] == DateColumn then (if value.DateValue? then Success(value.date) else Failure(InvalidCast))
          else match parseDate(value) case Some(d) => Success(d) case None => Failure(FormatError))
      else if EqualsIgnoreCase(h, "year") then
        (match ToInt32(value, parseInt) case Success(n) => s.(year := n) case Failure(e) => Found(Failure(e)))
      else if EqualsIgnoreCase(h, "month") then
        (match ToInt32(value, parseInt) case Success(n) => s.(month := n) case Failure(e) => Found(Failure(e)))
      else if EqualsIgnoreCase(h, "day") then
        (match ToInt32(value, parseInt) case Success(n) => s.(day := n) case Failure(e) => Found(Failure(e)))
      else s
  }

  /** The scan over the first `n` columns. */
  function ScanColumns(headings: Option<seq<string>>, columnTypes: seq<ColumnType>, values: seq<FieldValue>, n: nat,
                       parseDate: FieldValue -> Option<DateTime>, parseInt: string -> Option<int>): DateScan
    requires n <= |values|
  {
    if n == 0 then Scanning(0, 0, 0)
    else
      var s := ScanColumns(headings, columnTypes, values, n - 1, parseDate, parseInt);
      if s.Found? then s
      else ColumnStep(s, HeadingAt(headings, n - 1), columnTypes, n - 1, values[n - 1], parseDate, parseInt)
  }

  /** The date `GetDateFromValues` returns, or the exception it throws. */
  function DateFromValues(headings: Option<seq<string>>, columnTypes: seq<ColumnType>, values: seq<FieldValue>,
                          parseDate: FieldValue -> Option<DateTime>, parseInt: string -> Option<int>): Result<DateTime>
  {
    match ScanColumns(headings, columnTypes, values, |values|, parseDate, parseInt)
    case Found(r) => r
    case Scanning(year, month, day) => AssembleDate(year, month, day)
  }

  /** Once a column finishes the scan, later columns change nothing. */
  lemma {:induction false} FoundSticks(headings: Option<seq<string>>, columnTypes: seq<ColumnType>, values: seq<FieldValue>,
                                       m: nat, n: nat, parseDate: FieldValue -> Option<DateTime>, parseInt: string -> Option<int>)
    requires m <= n <= |values|
    requires ScanColumns(headings, columnTypes, values, m, parseDate, parseInt).Found?
    ensures ScanColumns(headings, columnTypes, values, n, parseDate, parseInt) == ScanColumns(headings, columnTypes, values, m, parseDate, parseInt)
    decreases n
  {
    if n > m {
      FoundSticks(headings, columnTypes, values, m, n - 1, parseDate, parseInt);
    }
  }

  /** A leading "date" column of dates decides the row's date, whatever follows. */
  lemma DateColumnDecides(headings: seq<string>, columnTypes: seq<ColumnType>, values: seq<FieldValue>, d: DateTime,
                          parseDate: FieldValue -> Option<DateTime>, parseInt: string -> Option<int>)
    requires |headings| >= 1 && EqualsIgnoreCase(headings[0], "date")
    requires |columnTypes| >= 1 && columnTypes[0] == DateColumn
    requires |values| >= 1 && values[0] == DateValue(d)
    ensures DateFromValues(Some(headings), columnTypes, values, parseDate, parseInt) == Success(d)
  {
    FoundSticks(Some(headings), columnTypes, values, 1, |values|, parseDate, parseInt);
  }

  /** A row without values is dated `new DateTime()`. */
  lemma EmptyRowHasDefaultDate(headings: Option<seq<string>>, columnTypes: seq<ColumnType>,
                               parseDate: FieldValue -> Option<DateTime>, parseInt: string -> Option<int>)
    ensures DateFromValues(headings, columnTypes, [], parseDate, parseInt) == Success(DateTime(0))
  {
  }

  /** How the headings "Year" and "Day" compare with the names the scan looks for. */
  lemma YearDayHeadings()
    ensures EqualsIgnoreCase("Year", "year") && !EqualsIgnoreCase("Year", "date")
    ensures EqualsIgnoreCase("Day", "day") && !EqualsIgnoreCase("Day", "date")
    ensures !EqualsIgnoreCase("Day", "year") && !EqualsIgnoreCase("Day", "month")
  {
    assert ToLower("Year") == "year" && ToLower("Day") == "day";
    assert ToLower("date") == "date" && ToLower("month") == "month";
  }

  /** A whole number rounds to itself. */
  lemma RoundWhole(k: int)
    ensures RoundHalfEven(k as real) == k
  {
    assert (k as real).Floor == k;
  }

  /**
   * A row with a "Year" column and a "Day" column holding the day of the
   * year is dated by the calendar: year y, day DaysBeforeMonth(y, m) + d is
   * the date y-m-d.
   */
  lemma YearDayColumns(year: int, month: int, day: int,
                       parseDate: FieldValue -> Option<DateTime>, parseInt: string -> Option<int>)
    requires FromYmd(year, month, day).Success?
    ensures DateFromValues(Some(["Year", "Day"]), [FloatColumn, FloatColumn],
                           [Number(year as real), Number((DaysBeforeMonth(year, month) + day) as real)], parseDate, parseInt)
      == FromYmd(year, month, day)
  {
    var n := DaysBeforeMonth(year, month) + day;
    var headings := Some(["Year", "Day"]);
    var columnTypes := [FloatColumn, FloatColumn];
    var values := [Number(year as real), Number(n as real)];
    YearDayHeadings();
    RoundWhole(year);
    RoundWhole(n);
    assert ScanColumns(headings, columnTypes, values, 1, parseDate, parseInt) == Scanning(year, 0, 0);
    assert ScanColumns(headings, columnTypes, values, 2, parseDate, parseInt) == Scanning(year, 0, n);
    DayCountAgreesWithCalendar(year, month, day, 0);
  }

  // ---------------------------------------------------------------------
  // The reader.

  /** Whether `i` is the first position whose constant's name matches, ignoring case. */
  predicate FirstMatch(constants: seq<ApsimConstant>, name: string, i: int)
  {
    0 <= i < |constants| && EqualsIgnoreCase(constants[i].name, name)
    && forall j :: 0 <= j < i ==> !EqualsIgnoreCase(constants[j].name, name)
  }

  /** A constant after `SetConstant(name, value)`. */
  function WithValue(c: ApsimConstant, name: string, value: string): (r: ApsimConstant)
    ensures r.name == c.name && r.units == c.units && r.comment == c.comment
    ensures r.value == if EqualsIgnoreCase(c.name, name) then value else c.value
  {
    if EqualsIgnoreCase(c.name, name) then c.(value := value) else c
  }

  class ApsimTextFile {
    var fileName: string
    var csv: bool
    var headings: Option<seq<string>>
    var units: Option<seq<string>>
    var constants: seq<ApsimConstant>
    var columnTypes: seq<ColumnType>
    var firstDate: DateTime

    /** A reader for `fileName` whose first row is dated `firstDate`; the file's contents come as arguments. */
    constructor (fileName: string, csv: bool, columnTypes: seq<ColumnType>, firstDate: DateTime)
      ensures this.fileName == fileName && this.csv == csv
      ensures this.columnTypes == columnTypes && this.firstDate == firstDate
      ensures headings == None && units == None && constants == []
    {
      this.fileName := fileName;
      this.csv := csv;
      this.columnTypes := columnTypes;
      this.firstDate := firstDate;
      headings := None;
      units := None;
      constants := [];
    }

    /** `Constant`: the first constant whose name matches, ignoring case. */
    method Constant(name: string) returns (c: Option<ApsimConstant>)
      ensures c.Some? <==> exists i :: 0 <= i < |constants| && EqualsIgnoreCase(constants[i].name, name)
      ensures c.Some? ==> EqualsIgnoreCase(c.value.name, name)
      ensures c.Some? ==> exists i :: 0 <= i < |constants| && constants[i] == c.value && FirstMatch(constants, name, i)
    {
      var i := 0;
      while i < |constants|
        invariant 0 <= i <= |constants|
        invariant forall j :: 0 <= j < i ==> !EqualsIgnoreCase(constants[j].name, name)
      {
        if EqualsIgnoreCase(constants[i].name, name) {
          return Some(constants[i]);
        }
        i := i + 1;
      }
      return None;
    }

    /** `SetConstant`: every constant whose name matches takes the new value; nothing else changes. */
    method SetConstant(name: string, value: string)
      modifies this`constants
      ensures |constants| == |old(constants)|
      ensures forall i :: 0 <= i < |constants| ==> constants[i] == WithValue(old(constants)[i], name, value)
    {
      var i := 0;
      while i < |constants|
        invariant 0 <= i <= |constants| == |old(constants)|
        invariant forall j :: 0 <= j < i ==> constants[j] == WithValue(old(constants)[j], name, value)
        invariant constants[i..] == old(constants)[i..]
      {
        if EqualsIgnoreCase(constants[i].name, name) {
          constants := constants[i := constants[i].(value := value)];
        }
        i := i + 1;
      }
    }

    /** `AddConstant`: appends exactly one constant. */
    method AddConstant(name: string, value: string, units: string, comment: string)
      modifies this`constants
      ensures constants == old(constants) + [ApsimConstant(name, value, units, comment)]
    {
      constants := constants + [ApsimConstant(name, value, units, comment)];
    }

    /**
     * The constant-line loop of `ReadApsimHeader`: appends the constant of
     * each line that has one, and says whether one of them is the title.
     */
    method AddParsedConstants(constantLines: seq<string>) returns (titleFound: bool)
      modifies this`constants
      ensures constants == old(constants) + ParsedConstants(constantLines)
      ensures titleFound == HasTitle(ParsedConstants(constantLines))
    {
      titleFound := false;
      var found: seq<ApsimConstant> := [];
      for k := 0 to |constantLines|
        invariant found == ParsedConstants(constantLines[..k])
        invariant titleFound == HasTitle(found)
        invariant constants == old(constants)
      {
        var parsed := ParseConstantLine(constantLines[k]);
        ParsedOneMore(constantLines, k);
        if parsed.Some? {
          HasTitleAppend(found, parsed.value);
          found := found + [parsed.value];
          if parsed.value.name == "Title" {
            titleFound := true;
          }
        }
      }
      PrefixWhole(constantLines);
      constants := constants + found;
    }

    /**
     * `ReadApsimHeader`: adds a constant per constant line, takes the
     * headings and units when a units line was found (failing when their
     * counts differ, after the constants are added), and adds a Title
     * constant named after the file when the header names no title.
     */
    method ReadApsimHeader(lines: seq<string>) returns (r: Result<()>)
      modifies this`constants, this`headings, this`units
      ensures var hl := HeadingLines(lines);
        |hl| == 2 ==> headings == Some(HeadingWords(hl[0], csv)) && units == Some(HeadingWords(hl[1], csv))
      ensures |HeadingLines(lines)| == 0 ==> headings == old(headings) && units == old(units)
      ensures var hl := HeadingLines(lines);
        r.Failure? <==> |hl| == 2 && |HeadingWords(hl[0], csv)| != |HeadingWords(hl[1], csv)|
      ensures var parsed := ParsedConstants(ConstantLines(ExaminedLines(lines)));
        r.Failure? ==> r.error == HeadingMismatch + fileName && constants == old(constants) + parsed
      ensures var parsed := ParsedConstants(ConstantLines(ExaminedLines(lines)));
        r.Success? ==> constants == old(constants) + parsed + TitleIfMissing(parsed, HeadingLines(lines), csv, fileName)
    {
      var constantLines, headingLines := ReadApsimHeaderLines(lines);
      var titleFound := AddParsedConstants(constantLines);
      var titleInHeadings;
      r, titleInHeadings := ReadHeadings(headingLines);
      if r.Failure? {
        return;
      }
      ghost var parsed := ParsedConstants(constantLines);
      assert titleFound || titleInHeadings <==> TitleFound(parsed, headingLines, csv);
      if !(titleFound || titleInHeadings) {
        constants := constants + [ApsimConstant("Title", FileNameWithoutExtension(fileName), "", "")];
      }
    }

    /**
     * The headings part of `ReadApsimHeader`: takes the headings and units
     * from the headings/units pair, if there is one, failing when their
     * counts differ, and says whether a heading reads "title".
     */
    method ReadHeadings(headingLines: seq<string>) returns (r: Result<()>, titleInHeadings: bool)
      requires |headingLines| == 0 || |headingLines| == 2
      modifies this`headings, this`units
      ensures |headingLines| == 2 ==>
        headings == Some(HeadingWords(headingLines[0], csv)) && units == Some(HeadingWords(headingLines[1], csv))
      ensures |headingLines| == 0 ==> headings == old(headings) && units == old(units)
      ensures r.Failure? <==> |headingLines| == 2 && |headings.value| != |units.value|
      ensures r.Failure? ==> r.error == HeadingMismatch + fileName
      ensures r.Success? ==> (titleInHeadings <==> |headingLines| == 2 && IndexOfIgnoreCase(headings.value, "title") != -1)
    {
      titleInHeadings := false;
      if |headingLines| >= 2 {
        var headingWords := HeadingWords(headingLines[0], csv);
        var unitWords := HeadingWords(headingLines[1], csv);
        headings := Some(headingWords);
        units := Some(unitWords);
        titleInHeadings := IndexOfIgnoreCase(headingWords, "title") != -1;
        if |headingWords| != |unitWords| {
          return Failure(HeadingMismatch + fileName), titleInHeadings;
        }
      }
      r := Success(());
    }

    /**
     * `GetNextLine`: the words of the next line (`None` at the end of the
     * stream or on an empty line) up to its '!' comment, with surrounding '"'
     * stripped; fails when their count differs from the headings'. The line
     * is cut with `CorrectedLineBody`, which keeps the character before the '!'.
     */
    method GetNextLine(line: Option<string>) returns (r: Result<Option<seq<string>>>)
      ensures line.None? || line.value == [] ==> r == Success(None)
      ensures line.Some? && line.value != [] ==>
        (r.Failure? <==> headings.None? || |LineWords(line.value, csv)| != |headings.value|)
      ensures r.Failure? && headings.Some? ==>
        r.error == ValueCountMismatch + LineText(line.value, csv) + "\r\nin file: " + fileName
      ensures r.Success? && r.value.Some? ==> line.Some? && headings.Some?
      ensures r.Success? && r.value.Some? ==> |r.value.value| == |LineWords(line.value, csv)| == |headings.value|
      ensures r.Success? && r.value.Some? ==>
        forall i :: 0 <= i < |r.value.value| ==> r.value.value[i] == TrimWhere(LineWords(line.value, csv)[i], IsQuote)
    {
      if line.None? || line.value == [] {
        return Success(None);
      }
      var body := CorrectedLineBody(line.value);
      if csv {
        body := TrimEndWhere(body, IsComma);
      }
      var words := if csv then Split(body, ',') else SplitWords(body);
      if headings.None? {
        return Failure(NullReference);
      }
      if |words| != |headings.value| {
        return Failure(ValueCountMismatch + body + "\r\nin file: " + fileName);
      }
      ghost var raw := words;
      var i := 0;
      while i < |words|
        invariant 0 <= i <= |words| == |raw|
        invariant forall j :: 0 <= j < i ==> words[j] == TrimWhere(raw[j], IsQuote)
        invariant words[i..] == raw[i..]
      {
        words := words[i := TrimWhere(words[i], IsQuote)];
        i := i + 1;
      }
      return Success(Some(words));
    }

    /**
     * `ConvertWordsToObjects`: the value of each word under its column's
     * type, missing for the markers "?", "*" and "" and for anything that
     * does not convert.
     */
    method ConvertWordsToObjects(words: seq<string>, parseDate: (string, string) -> Option<DateTime>,
                                 parseNumber: string -> Option<real>) returns (values: seq<FieldValue>)
      ensures |values| == |words|
      ensures forall w :: 0 <= w < |words| ==> values[w] == WordValue(words[w], w, columnTypes, units, parseDate, parseNumber)
    {
      values := [];
      var w := 0;
      while w != |words|
        invariant 0 <= w <= |words| && |values| == w
        invariant forall v :: 0 <= v < w ==> values[v] == WordValue(words[v], v, columnTypes, units, parseDate, parseNumber)
      {
        var value := ConvertWord(words[w], w, parseDate, parseNumber);
        values := values + [value];
        w := w + 1;
      }
    }

    /** The body of the loop of `ConvertWordsToObjects`: the value of word `w`. */
    method ConvertWord(rawWord: string, w: nat, parseDate: (string, string) -> Option<DateTime>,
                       parseNumber: string -> Option<real>) returns (value: FieldValue)
      ensures value == WordValue(rawWord, w, columnTypes, units, parseDate, parseNumber)
    {
      var word := Trim(rawWord);
      if word == "?" || word == "*" || word == "" {
        value := Missing;
      } else if w >= |columnTypes| {
        value := Missing;
      } else if columnTypes[w] == DateColumn {
        if units.None? || w >= |units.value| {
          value := Missing;
        } else {
          var parsed := parseDate(word, DateFormat(units.value[w]));
          value := if parsed.Some? then DateValue(parsed.value) else Missing;
        }
      } else if columnTypes[w] == FloatColumn {
        var parsed := parseNumber(word);
        value := if parsed.Some? then Number(parsed.value) else Missing;
      } else {
        value := Word(word);
      }
    }

    /**
     * The body of the column loop of `GetDateFromValues`: a "date" column
     * gives the row's date (or the exception reading it throws), a "year",
     * "month" or "day" column records its value.
     */
    method ReadDateColumn(s: DateScan, col: nat, value: FieldValue, parseDate: FieldValue -> Option<DateTime>,
                          parseInt: string -> Option<int>) returns (r: DateScan)
      requires s.Scanning?
      ensures r == ColumnStep(s, HeadingAt(headings, col), columnTypes, col, value, parseDate, parseInt)
    {
      var heading := HeadingAt(headings, col);
      if heading.Failure? {
        return Found(Failure(heading.error));
      }
      var name := heading.value;
      if EqualsIgnoreCase(name, "date") {
        if col >= |columnTypes| {
          return Found(Failure(ArrayIndexOutOfRange));
        } else if columnTypes[col] == DateColumn {
          return Found(if value.DateValue? then Success(value.date) else Failure(InvalidCast));
        } else {
          var parsed := parseDate(value);
          return Found(if parsed.Some? then Success(parsed.value) else Failure(FormatError));
        }
      }
      r := s;
      if EqualsIgnoreCase(name, "year") || EqualsIgnoreCase(name, "month") || EqualsIgnoreCase(name, "day") {
        var n := ToInt32(value, parseInt);
        if n.Failure? {
          return Found(Failure(n.error));
        }
        if EqualsIgnoreCase(name, "year") {
          r := s.(year := n.value);
        } else if EqualsIgnoreCase(name, "month") {
          r := s.(month := n.value);
        } else {
          r := s.(day := n.value);
        }
      }
    }

    /** `GetDateFromValues`: the date of a row of converted values. */
    method GetDateFromValues(values: seq<FieldValue>, parseDate: FieldValue -> Option<DateTime>,
                             parseInt: string -> Option<int>) returns (r: Result<DateTime>)
      ensures r == DateFromValues(headings, columnTypes, values, parseDate, parseInt)
    {
      var year, month, day := 0, 0, 0;
      var col := 0;
      while col != |values|
        invariant 0 <= col <= |values|
        invariant ScanColumns(headings, columnTypes, values, col, parseDate, parseInt) == Scanning(year, month, day)
      {
        var step := ReadDateColumn(Scanning(year, month, day), col, values[col], parseDate, parseInt);
        if step.Found? {
          FoundSticks(headings, columnTypes, values, col + 1, |values|, parseDate, parseInt);
          return step.result;
        }
        year, month, day := step.year, step.month, step.day;
        col := col + 1;
      }
      if year > 0 {
        if day > 0 {
          var jan1 := FromYmd(year, 1, 1);
          if jan1.Failure? {
            return Failure(jan1.error);
          }
          return AddDays(jan1.value, day - 1);
        } else {
          day := 1;
        }
        if month == 0 {
          month := 1;
        }
        return FromYmd(year, month, day);
      }
      return Success(DateTime(0));
    }

    /**
     * `SeekToDate`: the number of data rows skipped to reach `date`, one per
     * day after the first row's date and no more than the rows left; fails
     * for a date before the first row's.
     */
    method SeekToDate(date: DateTime, dateText: string, rowsAfterFirst: nat) returns (r: Result<nat>)
      ensures date.days < firstDate.days <==> r.Failure?
      ensures r.Failure? ==> r.error == "Date " + dateText + MissingDate + fileName
      ensures r.Success? ==> r.value <= rowsAfterFirst && r.value <= date.days - firstDate.days
      ensures r.Success? ==> r.value == rowsAfterFirst || r.value == date.days - firstDate.days
    {
      if date.days < firstDate.days {
        return Failure("Date " + dateText + MissingDate + fileName);
      }
      var numRowsToSkip := date.days - firstDate.days;
      var remaining := rowsAfterFirst;
      var skipped := 0;
      while remaining > 0 && numRowsToSkip > 0
        invariant 0 <= remaining && 0 <= numRowsToSkip
        invariant skipped + remaining == rowsAfterFirst
        invariant skipped + numRowsToSkip == date.days - firstDate.days
      {
        remaining := remaining - 1;
        numRowsToSkip := numRowsToSkip - 1;
        skipped := skipped + 1;
      }
      return Success(skipped);
    }
  }
}
