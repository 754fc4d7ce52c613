/** The record parser: `ReadRaceData` and its helpers. The lines of the file are
    the input; the runtime's number parsers are left abstract. */
module Parsing {
  import opened Wrappers
  import opened RaceData
  import opened Sequences

  /** `int.Parse` and `double.Parse(_, CultureInfo.InvariantCulture)`, as
      partial functions: `None` stands for the exception they throw. */
  datatype NumberFormat = NumberFormat(parseInt: string -> Option<int>, parseReal: string -> Option<real>)

  // ---------------------------------------------------------------------------
  // Character classes

  /** `char.IsWhiteSpace`: the characters with the Unicode White_Space property. */
  predicate IsWhiteSpace(c: char) {
    || ('\U{0009}' <= c <= '\U{000D}')
    || c == '\U{0020}' || c == '\U{0085}' || c == '\U{00A0}' || c == '\U{1680}'
    || ('\U{2000}' <= c <= '\U{200A}')
    || c == '\U{2028}' || c == '\U{2029}' || c == '\U{202F}' || c == '\U{205F}' || c == '\U{3000}'
  }

  /** `string.IsNullOrWhiteSpace` (a split or read line is never null). */
  predicate IsNullOrWhiteSpace(s: string) {
    forall i :: 0 <= i < |s| ==> IsWhiteSpace(s[i])
  }

  /** `char.IsDigit`, restricted to the ASCII digits. */
  predicate IsDigit(c: char) {
    '0' <= c <= '9'
  }

  /** A line the parser turns into a lap: not blank, and starting with a digit.
      Every other line is a header or metadata and is skipped. */
  predicate IsDataLine(line: string)
    ensures IsDataLine(line) <==> |line| > 0 && '0' <= line[0] <= '9'
  {
    !IsNullOrWhiteSpace(line) && IsDigit(line[0])
  }

  function AsDataLine(line: string): Option<string> {
    if IsDataLine(line) then Some(line) else None
  }

  /** The data lines of a file, in file order. */
  function DataLines(lines: seq<string>): seq<string> {
    Keep(lines, AsDataLine)
  }

  // ---------------------------------------------------------------------------
  // Splitting a row

  /** `line.Split(sep)`: every piece between separators, empty pieces included. */
  function Split(s: string, sep: char): (parts: seq<string>)
    ensures |parts| >= 1
  {
    if s == [] then [""]
    else
      var rest := Split(s[1..], sep);
      if s[0] == sep then [""] + rest
      else [[s[0]] + rest[0]] + rest[1..]
  }

  /** `string.Join(sep, parts)`. */
  function Join(parts: seq<string>, sep: char): string {
    if parts == [] then ""
    else if |parts| == 1 then parts[0]
    else parts[0] + [sep] + Join(parts[1..], sep)
  }

  /** Splitting loses nothing: joining the pieces back gives the line. */
  lemma {:induction false} JoinSplit(s: string, sep: char)
    ensures Join(Split(s, sep), sep) == s
  {
    if s != [] {
      JoinSplit(s[1..], sep);
      var rest := Split(s[1..], sep);
      if s[0] == sep {
        assert s == [sep] + s[1..];
      } else {
        assert s == [s[0]] + s[1..];
        if |rest| > 1 {
          assert ([[s[0]] + rest[0]] + rest[1..])[1..] == rest[1..];
        }
      }
    }
  }

  /** No piece contains the separator. */
  lemma {:induction false} SplitPiecesHaveNoSeparator(s: string, sep: char)
    ensures forall k :: 0 <= k < |Split(s, sep)| ==> sep !in Split(s, sep)[k]
  {
    if s != [] {
      SplitPiecesHaveNoSeparator(s[1..], sep);
    }
  }

  /** Splitting the join of separator-free pieces gives the pieces back. */
  lemma {:induction false} SplitJoin(parts: seq<string>, sep: char)
    requires |parts| >= 1
    requires forall k :: 0 <= k < |parts| ==> sep !in parts[k]
    ensures Split(Join(parts, sep), sep) == parts
  {
    if |parts| == 1 {
      SplitNoSeparator(parts[0], sep);
    } else {
      SplitJoin(parts[1..], sep);
      SplitPrefix(parts[0], Join(parts[1..], sep), sep);
      assert parts == [parts[0]] + parts[1..];
    }
  }

  lemma {:induction false} SplitNoSeparator(p: string, sep: char)
    requires sep !in p
    ensures Split(p, sep) == [p]
  {
    if p != [] {
      SplitNoSeparator(p[1..], sep);
      assert p == [p[0]] + p[1..];
    }
  }

  /** A separator-free prefix followed by a separator becomes the first piece. */
  lemma {:induction false} SplitPrefix(p: string, rest: string, sep: char)
    requires sep !in p
    ensures Split(p + [sep] + rest, sep) == [p] + Split(rest, sep)
  {
    if p == [] {
      assert p + [sep] + rest == [sep] + rest;
      assert ([sep] + rest)[1..] == rest;
    } else {
      SplitPrefix(p[1..], rest, sep);
      assert (p + [sep] + rest)[1..] == p[1..] + [sep] + rest;
      assert p == [p[0]] + p[1..];
    }
  }

  /** The first field of a data line starts with its leading digit, so it is
      never empty. */
  lemma SplitDataLine(line: string)
    requires IsDataLine(line)
    ensures Split(line, ',')[0] != "" && Split(line, ',')[0][0] == line[0]
  {
  }

  // ---------------------------------------------------------------------------
  // Field helpers

  /** `parts[i]`, which throws when the row is too short. */
  function Field(parts: seq<string>, i: nat): (r: Result<string, ParseError>)
    ensures r.Success? <==> i < |parts|
    ensures r.Success? ==> r.value == parts[i]
    ensures r.Failure? ==> r.error == MissingField(i)
  {
    if i < |parts| then Success(parts[i]) else Failure(MissingField(i))
  }

  /** `int.Parse`, which throws on anything that is not an integer. */
  function ParseInt(val: string, fmt: NumberFormat): (r: Result<int, ParseError>)
    ensures r.Success? <==> fmt.parseInt(val).Some?
    ensures r.Success? ==> r.value == fmt.parseInt(val).value
  {
    match fmt.parseInt(val)
    case Some(n) => Success(n)
    case None => Failure(BadInteger(val))
  }

  /** `ParseIntOrNull`: null for an empty field, otherwise `int.Parse`. */
  function ParseIntOrNull(val: string, fmt: NumberFormat): (r: Result<Option<int>, ParseError>)
    ensures r == Success(None) <==> val == ""
    ensures val != "" ==> (r.Success? <==> fmt.parseInt(val).Some?)
    ensures val != "" && r.Success? ==> r.value == fmt.parseInt(val)
    ensures r.Failure? ==> r.error == BadInteger(val)
  {
    if val == "" then Success(None)
    else
      match fmt.parseInt(val)
      case Some(n) => Success(Some(n))
      case None => Failure(BadInteger(val))
  }

  /** `ParseDoubleOrNull`: null for an empty field, otherwise the invariant-culture
      `double.Parse`. */
  function ParseDoubleOrNull(val: string, fmt: NumberFormat): (r: Result<Option<real>, ParseError>)
    ensures r == Success(None) <==> val == ""
    ensures val != "" ==> (r.Success? <==> fmt.parseReal(val).Some?)
    ensures val != "" && r.Success? ==> r.value == fmt.parseReal(val)
    ensures r.Failure? ==> r.error == BadNumber(val)
  {
    if val == "" then Success(None)
    else
      match fmt.parseReal(val)
      case Some(x) => Success(Some(x))
      case None => Failure(BadNumber(val))
  }

  /** Upper-case mapping of the ordinal case-insensitive comparison, on ASCII. */
  function AsciiUpper(c: char): char {
    if 'a' <= c <= 'z' then (c as int - 32) as char else c
  }

  predicate EqualsIgnoreCase(a: string, b: string) {
    |a| == |b| && forall i :: 0 <= i < |a| ==> AsciiUpper(a[i]) == AsciiUpper(b[i])
  }

  /** `ParseBool`: true exactly for "TRUE" in any mix of cases; an empty or any
      other token is false and never an error. */
  function ParseBool(val: string): (b: bool)
    ensures b <==> |val| == 4 && val[0] in "Tt" && val[1] in "Rr" && val[2] in "Uu" && val[3] in "Ee"
  {
    if val == "" then false else EqualsIgnoreCase(val, "TRUE")
  }

  lemma ParseBoolExamples()
    ensures ParseBool("TRUE") && ParseBool("true") && ParseBool("True")
    ensures !ParseBool("") && !ParseBool("FALSE") && !ParseBool("yes") && !ParseBool(" TRUE")
  {
    assert !ParseBool("FALSE") by { assert |"FALSE"| == 5; }
    assert !ParseBool("yes") by { assert |"yes"| == 3; }
    assert !ParseBool(" TRUE") by { assert |" TRUE"| == 5; }
  }

  // ---------------------------------------------------------------------------
  // Rows

  /** Column indices of one driver's fields; the gaps are unused columns. */
  datatype Columns = Columns(time: nat, position: nat, tyre: nat, pitstop: nat, status: nat)

  const LapNumberColumn: nat := 0
  const GasColumns := Columns(1, 3, 5, 7, 13)
  const ColColumns := Columns(15, 17, 19, 21, 27)

  /** One driver's fields, read in the order the source reads them, so that the
      first missing column or bad number is the error. */
  function ParseLapData(parts: seq<string>, cols: Columns, fmt: NumberFormat): Result<LapData, ParseError> {
    var timeText :- Field(parts, cols.time);
    var time :- ParseDoubleOrNull(timeText, fmt);
    var positionText :- Field(parts, cols.position);
    var position :- ParseIntOrNull(positionText, fmt);
    var tyre :- Field(parts, cols.tyre);
    var pitstopText :- Field(parts, cols.pitstop);
    var statusText :- Field(parts, cols.status);
    var status :- ParseIntOrNull(statusText, fmt);
    Success(LapData(time, status, ParseBool(pitstopText), tyre, position))
  }

  /** A number field that parses: empty, or accepted by the parser. */
  predicate RealFieldOk(t: string, fmt: NumberFormat) {
    t == "" || fmt.parseReal(t).Some?
  }

  predicate IntFieldOk(t: string, fmt: NumberFormat) {
    t == "" || fmt.parseInt(t).Some?
  }

  function OptReal(t: string, fmt: NumberFormat): Option<real> {
    if t == "" then None else fmt.parseReal(t)
  }

  function OptInt(t: string, fmt: NumberFormat): Option<int> {
    if t == "" then None else fmt.parseInt(t)
  }

  /** One data row: split on commas and read the fixed columns. The row fails
      exactly when it has fewer than 28 fields or a numeric field does not
      parse; otherwise every field comes from its fixed column, the tyre
      compounds verbatim. */
  function ParseRow(line: string, fmt: NumberFormat): (r: Result<RaceLap, ParseError>)
    ensures var p := Split(line, ',');
      r.Success? <==>
        && |p| >= 28
        && fmt.parseInt(p[0]).Some?
        && RealFieldOk(p[1], fmt) && IntFieldOk(p[3], fmt) && IntFieldOk(p[13], fmt)
        && RealFieldOk(p[15], fmt) && IntFieldOk(p[17], fmt) && IntFieldOk(p[27], fmt)
    ensures var p := Split(line, ',');
      r.Success? ==>
        && r.value.lapNumber == fmt.parseInt(p[0]).value
        && r.value.gas == LapData(OptReal(p[1], fmt), OptInt(p[13], fmt), ParseBool(p[7]), p[5], OptInt(p[3], fmt))
        && r.value.col == LapData(OptReal(p[15], fmt), OptInt(p[27], fmt), ParseBool(p[21]), p[19], OptInt(p[17], fmt))
  {
    var parts := Split(line, ',');
    var lapNumber :- ParseInt(parts[LapNumberColumn], fmt);
    var gas :- ParseLapData(parts, GasColumns, fmt);
    var col :- ParseLapData(parts, ColColumns, fmt);
    Success(RaceLap(lapNumber, gas, col))
  }

  // ---------------------------------------------------------------------------
  // The whole file

  /** The laps of a file: one per data line, in file order; the first row that
      fails aborts the whole parse with its error. */
  function ParseLines(lines: seq<string>, fmt: NumberFormat): Result<seq<RaceLap>, ParseError> {
    if lines == [] then Success([])
    else
      var laps :- ParseLines(Init(lines), fmt);
      if IsDataLine(Last(lines)) then
        var lap :- ParseRow(Last(lines), fmt);
        Success(laps + [lap])
      else
        Success(laps)
  }

  /** A failure in the first `i` lines is the failure of the whole file. */
  lemma {:induction false} FailurePersists(lines: seq<string>, i: nat, fmt: NumberFormat)
    requires i <= |lines|
    requires ParseLines(lines[..i], fmt).Failure?
    ensures ParseLines(lines, fmt) == ParseLines(lines[..i], fmt)
  {
    if i < |lines| {
      assert Init(lines)[..i] == lines[..i];
      FailurePersists(Init(lines), i, fmt);
    } else {
      assert lines[..i] == lines;
    }
  }

  /** All data rows of `rows` parse. */
  ghost predicate AllRowsParse(rows: seq<string>, fmt: NumberFormat) {
    forall k :: 0 <= k < |rows| ==> ParseRow(rows[k], fmt).Success?
  }

  /** Row `k` is the first data row that fails, with error `e`. */
  ghost predicate FirstFailure(rows: seq<string>, fmt: NumberFormat, k: int, e: ParseError) {
    && 0 <= k < |rows|
    && ParseRow(rows[k], fmt) == Failure(e)
    && forall j :: 0 <= j < k ==> ParseRow(rows[j], fmt).Success?
  }

  /** The parse of a file, stated against its data lines: it succeeds exactly when
      every data row parses, and then holds one lap per data line, in order;
      otherwise its error is that of the first data row that fails. */
  lemma {:induction false} ParseLinesMeaning(lines: seq<string>, fmt: NumberFormat)
    ensures var rows := DataLines(lines); var r := ParseLines(lines, fmt);
      && (r.Success? <==> AllRowsParse(rows, fmt))
      && (r.Success? ==> |r.value| == |rows| && forall k :: 0 <= k < |rows| ==> ParseRow(rows[k], fmt) == Success(r.value[k]))
      && (r.Failure? ==> exists k :: FirstFailure(rows, fmt, k, r.error))
  {
    if lines != [] {
      var init, line := Init(lines), Last(lines);
      ParseLinesMeaning(init, fmt);
      KeepSnoc(init, line, AsDataLine);
      assert lines == init + [line];
      var before := DataLines(init);
      var rows := DataLines(lines);
      var prev := ParseLines(init, fmt);
      assert rows == before + (if IsDataLine(line) then [line] else []);
      assert forall k :: 0 <= k < |before| ==> rows[k] == before[k];
      if prev.Failure? {
        var k :| FirstFailure(before, fmt, k, prev.error);
        assert FirstFailure(rows, fmt, k, prev.error);
      } else if IsDataLine(line) {
        var row := ParseRow(line, fmt);
        assert rows[|before|] == line;
        if row.Failure? {
          assert FirstFailure(rows, fmt, |before|, row.error);
        } else {
          var laps := prev.value + [row.value];
          assert forall k :: 0 <= k < |rows| ==> ParseRow(rows[k], fmt) == Success(laps[k]);
        }
      } else {
        assert rows == before;
      }
    }
  }

  /** `ReadRaceData`, with `None` for a file that does not exist: that case
      gives the empty list; otherwise the lines are parsed in one forward pass
      that appends a lap per data line and aborts on the first bad row. */
  method ReadRaceData(file: Option<seq<string>>, fmt: NumberFormat) returns (r: Result<seq<RaceLap>, ParseError>)
    ensures file.None? ==> r == Success([])
    ensures file.Some? ==> r == ParseLines(file.value, fmt)
  {
    var raceLaps: seq<RaceLap> := [];
    if file.None? {
      return Success(raceLaps);
    }
    var lines := file.value;
    var i := 0;
    while i < |lines|
      invariant 0 <= i <= |lines|
      invariant ParseLines(lines[..i], fmt) == Success(raceLaps)
    {
      var line := lines[i];
      assert Init(lines[..i + 1]) == lines[..i] && Last(lines[..i + 1]) == line;
      if IsNullOrWhiteSpace(line) {
        i := i + 1;
        continue;
      }
      if !IsDigit(line[0]) {
        i := i + 1;
        continue;
      }
      var row := ParseRow(line, fmt);
      if row.Failure? {
        FailurePersists(lines, i + 1, fmt);
        return Failure(row.error);
      }
      raceLaps := raceLaps + [row.value];
      i := i + 1;
    }
    assert lines[..i] == lines;
    return Success(raceLaps);
  }
}
