/**
 * convert_dmx_to_csv: turns the lines of a raw DMX channel file into a CSV
 * table with a `frame` column and one column per light, dividing every
 * channel value by 255.
 */
module ConvertDmx {
  import opened Results
  import opened Text
  import opened CsvTable

  /** Number of `light_<i>` columns in the header, whatever the input's width. */
  const LIGHT_COLUMNS: nat := 64

  /** The raw channel value that maps to full intensity. */
  const DMX_FULL: real := 255.0

  /** The only failure of the conversion: float() rejects a token. */
  datatype ConvertError = NotANumber(token: string)

  /** What the conversion has written after the header, and the failure that stopped it, if any. */
  datatype Conversion = Conversion(rows: seq<Row>, failure: Option<ConvertError>)

  // ---------------------------------------------------------------------------
  // Header
  // ---------------------------------------------------------------------------

  function ColumnName(i: nat): string {
    "light_" + NatToString(i)
  }

  /** The header row: `frame`, then `light_0` … `light_63`. */
  function Header(): (h: Row)
    ensures |h| == LIGHT_COLUMNS + 1 && h[0] == Str("frame")
  {
    [Str("frame")] + seq(LIGHT_COLUMNS, i requires 0 <= i => Str(ColumnName(i)))
  }

  /** The header has 65 distinct names: `frame` first, then `light_i` in column i + 1. */
  lemma HeaderShape()
    ensures |Header()| == LIGHT_COLUMNS + 1
    ensures Header()[0] == Str("frame")
    ensures forall i :: 0 <= i < LIGHT_COLUMNS ==> Header()[i + 1] == Str(ColumnName(i))
    ensures forall i, j :: 0 <= i < j < |Header()| ==> Header()[i] != Header()[j]
  {
    var h := Header();
    forall i, j | 0 <= i < j < |h| ensures h[i] != h[j] {
      if i == 0 {
        assert h[j].text[0] == 'l';
      } else {
        assert h[i] == Str(ColumnName(i - 1)) && h[j] == Str(ColumnName(j - 1));
        NatToStringInjective(i - 1, j - 1);
        assert ColumnName(i - 1)[6..] == NatToString(i - 1);
        assert ColumnName(j - 1)[6..] == NatToString(j - 1);
      }
    }
  }

  // ---------------------------------------------------------------------------
  // One line
  // ---------------------------------------------------------------------------

  /** `line.startswith('#')`: only a '#' in the very first column marks a comment. */
  predicate IsComment(line: string)
    ensures IsComment(line) ==> !AllSpace(line)
  {
    |line| > 0 && line[0] == '#'
  }

  /** The lines the loop passes over with `continue`. */
  predicate IsSkipped(line: string)
    ensures !IsSkipped(line) ==> Words(line) != []
  {
    StripEmptyIff(line);
    WordsEmptyIff(line);
    IsComment(line) || Strip(line) == []
  }

  /** A line is skipped exactly when it starts with '#' or holds nothing but whitespace. */
  lemma SkippedIff(line: string)
    ensures IsSkipped(line) <==> (|line| > 0 && line[0] == '#') || AllSpace(line)
  {
    StripEmptyIff(line);
  }

  /** `float(val) / 255.0` for a token float() accepts. */
  function Normalized(token: string): (v: real)
    requires IsDigits(token)
    ensures v * DMX_FULL == DigitsValue(token) as real
  {
    DigitsValue(token) as real / DMX_FULL
  }

  /** A normalised value is never negative, and it is at most 1 exactly for raw values up to 255. */
  lemma NormalizedBounds(token: string)
    requires IsDigits(token)
    ensures 0.0 <= Normalized(token)
    ensures Normalized(token) <= 1.0 <==> DigitsValue(token) <= 255
    ensures Normalized(token) == 1.0 <==> DigitsValue(token) == 255
    ensures Normalized(token) == 0.0 <==> DigitsValue(token) == 0
  {
  }

  /** The list comprehension `[float(val) / 255.0 for val in values]`, failing at the first bad token. */
  function Normalize(tokens: seq<string>): (r: Result<seq<Cell>, ConvertError>)
    ensures r.Success? ==> |r.value| == |tokens|
    ensures r.Failure? ==> r.error.token in tokens && !IsDigits(r.error.token)
  {
    if tokens == [] then Success([])
    else if !IsDigits(tokens[0]) then Failure(NotANumber(tokens[0]))
    else match Normalize(tokens[1..])
      case Failure(e) => Failure(e)
      case Success(rest) => Success([Num(Normalized(tokens[0]))] + rest)
  }

  /** Normalize succeeds exactly when every token is numeric; then it maps each token to its value over 255,
      and otherwise it reports the first token that is not numeric. */
  lemma {:induction false} NormalizeSpec(tokens: seq<string>)
    ensures Normalize(tokens).Success? <==> forall j :: 0 <= j < |tokens| ==> IsDigits(tokens[j])
    ensures Normalize(tokens).Success? ==>
      && |Normalize(tokens).value| == |tokens|
      && forall j :: 0 <= j < |tokens| ==> Normalize(tokens).value[j] == Num(Normalized(tokens[j]))
    ensures Normalize(tokens).Failure? ==>
      exists j :: 0 <= j < |tokens| && !IsDigits(tokens[j]) && Normalize(tokens).error == NotANumber(tokens[j])
        && forall i :: 0 <= i < j ==> IsDigits(tokens[i])
  {
    NormalizeFailure(tokens);
    if tokens != [] && IsDigits(tokens[0]) {
      NormalizeSpec(tokens[1..]);
      if Normalize(tokens).Success? {
        var vs := Normalize(tokens).value;
        forall j | 0 <= j < |tokens| ensures vs[j] == Num(Normalized(tokens[j])) {
          if j > 0 {
            assert vs[j] == Normalize(tokens[1..]).value[j - 1];
          }
        }
      }
      assert (forall j :: 0 <= j < |tokens| ==> IsDigits(tokens[j])) <==> (forall j :: 0 <= j < |tokens[1..]| ==> IsDigits(tokens[1..][j])) by {
        if forall j :: 0 <= j < |tokens[1..]| ==> IsDigits(tokens[1..][j]) {
          forall j | 0 < j < |tokens| ensures IsDigits(tokens[j]) {
            assert tokens[j] == tokens[1..][j - 1];
          }
        }
      }
    }
  }

  /** A failing Normalize reports the first token that is not numeric. */
  lemma {:induction false} NormalizeFailure(tokens: seq<string>)
    ensures Normalize(tokens).Failure? ==>
      exists j :: 0 <= j < |tokens| && !IsDigits(tokens[j]) && Normalize(tokens).error == NotANumber(tokens[j])
        && forall i :: 0 <= i < j ==> IsDigits(tokens[i])
  {
    if tokens != [] && IsDigits(tokens[0]) && Normalize(tokens).Failure? {
      var rest := tokens[1..];
      NormalizeFailure(rest);
      var j :| 0 <= j < |rest| && !IsDigits(rest[j]) && Normalize(rest).error == NotANumber(rest[j])
        && forall i :: 0 <= i < j ==> IsDigits(rest[i]);
      assert tokens[j + 1] == rest[j];
      forall i | 0 <= i < j + 1 ensures IsDigits(tokens[i]) {
        if i > 0 {
          assert tokens[i] == rest[i - 1];
        }
      }
    }
  }


  /** What the loop body does with one line. */
  datatype LineOutcome = Skip | Cells(values: seq<Cell>) | Reject(error: ConvertError)

  /** A numeric line: every token float() accepts. */
  predicate IsNumericLine(line: string) {
    forall j :: 0 <= j < |Words(line)| ==> IsDigits(Words(line)[j])
  }

  /** One pass of the loop body: skip the line, or normalise its tokens (which may fail). */
  function ParseLine(line: string): (o: LineOutcome)
    ensures o.Cells? ==> |o.values| == |Words(line)|
    ensures o.Reject? ==> o.error.token in Words(line) && !IsDigits(o.error.token)
  {
    WordsOfStrip(line);
    if IsComment(line) || Strip(line) == [] then Skip
    else match Normalize(Words(Strip(line)))
      case Failure(e) => Reject(e)
      case Success(values) => Cells(values)
  }

  /** A line is skipped exactly when it is a comment or blank, and turned into cells exactly when it is
      a numeric data line; every other line is rejected. */
  lemma ParseLineKind(line: string)
    ensures ParseLine(line).Skip? <==> IsSkipped(line)
    ensures ParseLine(line).Cells? <==> !IsSkipped(line) && IsNumericLine(line)
  {
    WordsOfStrip(line);
    NormalizeSpec(Words(line));
  }

  /** The cells of a data line are its tokens divided by 255, in order; a rejected line names one of its
      tokens that is not a number. */
  lemma ParseLineSpec(line: string)
    ensures ParseLine(line).Cells? ==>
      && |ParseLine(line).values| == |Words(line)|
      && forall j :: 0 <= j < |Words(line)| ==>
           IsDigits(Words(line)[j]) && ParseLine(line).values[j] == Num(Normalized(Words(line)[j]))
    ensures ParseLine(line).Reject? ==>
      exists j :: 0 <= j < |Words(line)| && !IsDigits(Words(line)[j]) && ParseLine(line).error == NotANumber(Words(line)[j])
  {
    WordsOfStrip(line);
    NormalizeSpec(Words(line));
  }

  /** The outcome of every line, in input order. */
  function ParseLines(lines: seq<string>): (outcomes: seq<LineOutcome>)
    ensures |outcomes| == |lines|
  {
    if lines == [] then [] else ParseLines(lines[..|lines| - 1]) + [ParseLine(lines[|lines| - 1])]
  }

  /** The outcomes that are not skips, in order. */
  function Kept(outcomes: seq<LineOutcome>): seq<LineOutcome> {
    if outcomes == [] then []
    else
      var o := outcomes[|outcomes| - 1];
      Kept(outcomes[..|outcomes| - 1]) + (if o.Skip? then [] else [o])
  }

  /** The lines that are not skipped, in input order. */
  function DataLines(lines: seq<string>): seq<string> {
    if lines == [] then []
    else
      var line := lines[|lines| - 1];
      DataLines(lines[..|lines| - 1]) + (if IsSkipped(line) then [] else [line])
  }

  /** The rows written after the header for a sequence of line outcomes: the frame counter is the number
      of rows written so far, and the first rejection stops everything. */
  function Emit(outcomes: seq<LineOutcome>): (c: Conversion)
    ensures |c.rows| <= |outcomes|
  {
    if outcomes == [] then Conversion([], None)
    else
      var prev := Emit(outcomes[..|outcomes| - 1]);
      if prev.failure.Some? then prev
      else match outcomes[|outcomes| - 1]
        case Skip => prev
        case Reject(e) => Conversion(prev.rows, Some(e))
        case Cells(values) => Conversion(prev.rows + [[Num(|prev.rows| as real)] + values], None)
  }

  /** What convert_dmx_to_csv writes after the header, and the failure that stopped it, if any. */
  function ConvertLines(lines: seq<string>): (c: Conversion)
    ensures |c.rows| <= |lines|
  {
    Emit(ParseLines(lines))
  }

  /** Emit stops at the first rejected outcome; with no rejection it writes one row per kept outcome. */
  lemma {:induction false} EmitCount(outcomes: seq<LineOutcome>)
    ensures Emit(outcomes).failure == None ==> |Emit(outcomes).rows| == |Kept(outcomes)|
    ensures Emit(outcomes).failure.Some? ==>
      && |Emit(outcomes).rows| < |Kept(outcomes)|
      && Kept(outcomes)[|Emit(outcomes).rows|] == Reject(Emit(outcomes).failure.value)
  {
    if outcomes != [] {
      var p := outcomes[..|outcomes| - 1];
      EmitCount(p);
      var o := outcomes[|outcomes| - 1];
      assert Kept(outcomes) == Kept(p) + (if o.Skip? then [] else [o]);
    }
  }

  /** Row k is the frame number k followed by the cells of the k-th kept outcome. */
  lemma {:induction false} EmitRows(outcomes: seq<LineOutcome>)
    ensures |Emit(outcomes).rows| <= |Kept(outcomes)|
    ensures forall k :: 0 <= k < |Emit(outcomes).rows| ==>
      Kept(outcomes)[k].Cells? && Emit(outcomes).rows[k] == [Num(k as real)] + Kept(outcomes)[k].values
  {
    if outcomes == [] {
      assert Emit(outcomes).rows == [];
    } else {
      var p := outcomes[..|outcomes| - 1];
      var o := outcomes[|outcomes| - 1];
      EmitCount(p);
      EmitRows(p);
      var prev := Emit(p);
      var c := Emit(outcomes);
      var kept := Kept(outcomes);
      assert kept == Kept(p) + (if o.Skip? then [] else [o]);
      var grows := prev.failure.None? && o.Cells?;
      assert grows ==> c.rows == prev.rows + [[Num(|prev.rows| as real)] + o.values];
      assert !grows ==> c.rows == prev.rows;
      forall k | 0 <= k < |c.rows|
        ensures kept[k].Cells? && c.rows[k] == [Num(k as real)] + kept[k].values
      {
        if k < |prev.rows| {
          assert c.rows[k] == prev.rows[k];
          assert kept[k] == Kept(p)[k];
        } else {
          assert kept[k] == o;
        }
      }
      assert forall k :: 0 <= k < |c.rows| ==> kept[k].Cells? && c.rows[k] == [Num(k as real)] + kept[k].values;
    }
  }

  /** Once an outcome is a rejection, later outcomes change nothing. */
  lemma {:induction false} EmitStopsAtFailure(outcomes: seq<LineOutcome>, n: nat)
    requires n <= |outcomes|
    requires Emit(outcomes[..n]).failure.Some?
    ensures Emit(outcomes) == Emit(outcomes[..n])
  {
    if n < |outcomes| {
      var p := outcomes[..|outcomes| - 1];
      assert p[..n] == outcomes[..n];
      EmitStopsAtFailure(p, n);
    } else {
      assert outcomes[..n] == outcomes;
    }
  }

  /** The kept outcomes are exactly the outcomes of the data lines. */
  lemma {:induction false} KeptParseLines(lines: seq<string>)
    ensures |Kept(ParseLines(lines))| == |DataLines(lines)|
    ensures forall k :: 0 <= k < |DataLines(lines)| ==> Kept(ParseLines(lines))[k] == ParseLine(DataLines(lines)[k])
  {
    if lines != [] {
      var p := lines[..|lines| - 1];
      var line := lines[|lines| - 1];
      KeptParseLines(p);
      ParseLineKind(line);
      var os := ParseLines(lines);
      assert os[..|os| - 1] == ParseLines(p);
    }
  }

  /** The conversion succeeds exactly when every data line is numeric, and then it writes one row per
      data line; otherwise it stops at the first data line that is not, naming one of its tokens, having
      written the rows of the data lines before it. */
  lemma ConvertLinesOutcome(lines: seq<string>)
    ensures |ConvertLines(lines).rows| <= |DataLines(lines)|
    ensures ConvertLines(lines).failure.Some? ==> |ConvertLines(lines).rows| < |DataLines(lines)|
    ensures ConvertLines(lines).failure == None <==>
      forall k :: 0 <= k < |DataLines(lines)| ==> IsNumericLine(DataLines(lines)[k])
    ensures ConvertLines(lines).failure == None ==> |ConvertLines(lines).rows| == |DataLines(lines)|
    ensures ConvertLines(lines).failure.Some? ==>
      var bad := DataLines(lines)[|ConvertLines(lines).rows|];
      && !IsNumericLine(bad)
      && exists j :: 0 <= j < |Words(bad)| && ConvertLines(lines).failure.value == NotANumber(Words(bad)[j])
  {
    var os := ParseLines(lines);
    var d := DataLines(lines);
    EmitCount(os);
    EmitRows(os);
    KeptParseLines(lines);
    forall k | 0 <= k < |d| ensures ParseLine(d[k]).Cells? <==> IsNumericLine(d[k]) {
      ParseLineKind(d[k]);
      assert !IsSkipped(d[k]) by { DataLinesNotSkipped(lines, k); }
    }
    if ConvertLines(lines).failure.Some? {
      ParseLineSpec(d[|ConvertLines(lines).rows|]);
    }
  }

  lemma {:induction false} DataLinesNotSkipped(lines: seq<string>, k: nat)
    requires k < |DataLines(lines)|
    ensures !IsSkipped(DataLines(lines)[k])
  {
    var p := lines[..|lines| - 1];
    if k < |DataLines(p)| {
      DataLinesNotSkipped(p, k);
    }
  }

  /** Row k carries frame number k, then one value per token of the k-th data line, token/255 in order. */
  lemma ConvertedRow(lines: seq<string>, k: nat)
    requires k < |ConvertLines(lines).rows|
    ensures k < |DataLines(lines)|
    ensures var tokens := Words(DataLines(lines)[k]);
      var row := ConvertLines(lines).rows[k];
      && |row| == 1 + |tokens|
      && row[0] == Num(k as real)
      && forall j :: 0 <= j < |tokens| ==> IsDigits(tokens[j]) && row[j + 1] == Num(Normalized(tokens[j]))
  {
    var os := ParseLines(lines);
    assert k < |DataLines(lines)| by { EmitRows(os); KeptParseLines(lines); }
    var line := DataLines(lines)[k];
    var outcome := ParseLine(line);
    var row := ConvertLines(lines).rows[k];
    assert outcome.Cells? && row == [Num(k as real)] + outcome.values by {
      EmitRows(os);
      KeptParseLines(lines);
      assert Kept(os)[k] == outcome;
    }
    assert |outcome.values| == |Words(line)|
      && forall j :: 0 <= j < |Words(line)| ==> IsDigits(Words(line)[j]) && outcome.values[j] == Num(Normalized(Words(line)[j]))
    by {
      ParseLineSpec(line);
      DataLinesNotSkipped(lines, k);
    }
    forall j | 0 <= j < |Words(line)| ensures IsDigits(Words(line)[j]) && row[j + 1] == Num(Normalized(Words(line)[j])) {
      assert row[j + 1] == outcome.values[j];
    }
  }

  /** Appending a line to input that converted cleanly: a skipped line adds nothing; any other line adds
      exactly one row, numbered with the count of rows before it, or stops the conversion without a row. */
  lemma LineEffect(lines: seq<string>, line: string)
    requires ConvertLines(lines).failure == None
    ensures IsSkipped(line) ==> ConvertLines(lines + [line]) == ConvertLines(lines)
    ensures !IsSkipped(line) && IsNumericLine(line) ==>
      && ConvertLines(lines + [line]).failure == None
      && ConvertLines(lines + [line]).rows == ConvertLines(lines).rows + [[Num(|ConvertLines(lines).rows| as real)] + ParseLine(line).values]
    ensures !IsSkipped(line) && !IsNumericLine(line) ==>
      && ParseLine(line).Reject?
      && ConvertLines(lines + [line]).failure == Some(ParseLine(line).error)
      && ConvertLines(lines + [line]).rows == ConvertLines(lines).rows
  {
    var os := ParseLines(lines);
    var o := ParseLine(line);
    assert ConvertLines(lines + [line]) == Emit(os + [o]) by {
      assert (lines + [line])[..|lines|] == lines;
    }
    EmitSnoc(os, o);
    ParseLineKind(line);
  }

  /** One more line after input that converted cleanly, by the outcome of that line. */
  lemma ConvertStep(lines: seq<string>, line: string)
    requires ConvertLines(lines).failure == None
    ensures ConvertLines(lines + [line]) ==
      match ParseLine(line)
      case Skip => ConvertLines(lines)
      case Reject(e) => Conversion(ConvertLines(lines).rows, Some(e))
      case Cells(values) => Conversion(ConvertLines(lines).rows + [[Num(|ConvertLines(lines).rows| as real)] + values], None)
  {
    assert (lines + [line])[..|lines|] == lines;
    EmitSnoc(ParseLines(lines), ParseLine(line));
  }

  /** One more outcome after outcomes that raised nothing: a skip adds nothing, a rejection stops, and
      cells become the next row, numbered with the count of rows so far. */
  lemma EmitSnoc(outcomes: seq<LineOutcome>, o: LineOutcome)
    requires Emit(outcomes).failure == None
    ensures Emit(outcomes + [o]) ==
      match o
      case Skip => Emit(outcomes)
      case Reject(e) => Conversion(Emit(outcomes).rows, Some(e))
      case Cells(values) => Conversion(Emit(outcomes).rows + [[Num(|Emit(outcomes).rows| as real)] + values], None)
  {
    assert (outcomes + [o])[..|outcomes|] == outcomes;
  }

  /** A '#' anywhere but the first column is data: the line is not skipped, and its '#' token stops the
      conversion before any row is written for it. */
  lemma IndentedHashIsData(line: string, j: nat)
    requires |line| > 0 && line[0] != '#'
    requires j < |line| && line[j] == '#'
    ensures !IsSkipped(line)
    ensures ParseLine(line).Reject?
    ensures ConvertLines([line]) == Conversion([], Some(ParseLine(line).error))
  {
    assert !AllSpace(line) by { assert !IsSpace(line[j]); }
    StripEmptyIff(line);
    assert !IsNumericLine(line) by {
      WordsKeepNonSpace(line);
      NonSpaceContains(line, j);
      ConcatContains(Words(line), '#');
      var k :| 0 <= k < |Words(line)| && '#' in Words(line)[k];
      var w := Words(line)[k];
      var i :| 0 <= i < |w| && w[i] == '#';
      assert !IsDigit(w[i]);
    }
    ParseLineKind(line);
    assert ParseLine(line).Reject?;
    assert ParseLines([line]) == [ParseLine(line)] by {
      assert [line][..0] == [];
    }
    var o := ParseLine(line);
    assert [o][..0] == [];
    assert Emit([o]) == Conversion([], Some(o.error));
  }

  // ---------------------------------------------------------------------------
  // The script
  // ---------------------------------------------------------------------------

  /** convert_dmx_to_csv: truncates `output`, writes the header, then one row per data line with a frame
      counter that only data lines advance. On a bad token it stops, leaving what was written. */
  method ConvertDmxToCsv(lines: seq<string>, output: CsvFile) returns (failure: Option<ConvertError>)
    modifies output
    ensures output.rows == [Header()] + ConvertLines(lines).rows
    ensures failure == ConvertLines(lines).failure
  {
    output.Truncate();
    output.WriteRow(Header());
    var frameNumber: nat := 0;
    var i := 0;
    while i < |lines|
      invariant 0 <= i <= |lines|
      invariant ConvertLines(lines[..i]).failure == None
      invariant frameNumber == |ConvertLines(lines[..i]).rows|
      invariant output.rows == [Header()] + ConvertLines(lines[..i]).rows
    {
      var line := lines[i];
      ghost var prev := ConvertLines(lines[..i]);
      ghost var outcome := ParseLine(line);
      ghost var next := ConvertLines(lines[..i + 1]);
      assert next == match outcome
        case Skip => prev
        case Reject(e) => Conversion(prev.rows, Some(e))
        case Cells(values) => Conversion(prev.rows + [[Num(|prev.rows| as real)] + values], None)
      by {
        assert lines[..i + 1] == lines[..i] + [line];
        ConvertStep(lines[..i], line);
      }
      if IsComment(line) || Strip(line) == [] {
        assert outcome.Skip?;
        i := i + 1;
        continue;
      }
      var values := Words(Strip(line));
      var normalized := Normalize(values);
      if normalized.Failure? {
        assert outcome == Reject(normalized.error);
        StopsAtFailure(lines, i + 1);
        failure := Some(normalized.error);
        return;
      }
      assert outcome == Cells(normalized.value);
      output.WriteRow([Num(frameNumber as real)] + normalized.value);
      frameNumber := frameNumber + 1;
      i := i + 1;
    }
    assert lines[..i] == lines;
    failure := None;
  }

  /** Once a prefix of the input has failed, the rest of the input changes nothing. */
  lemma StopsAtFailure(lines: seq<string>, n: nat)
    requires n <= |lines|
    requires ConvertLines(lines[..n]).failure.Some?
    ensures ConvertLines(lines) == ConvertLines(lines[..n])
  {
    ParseLinesPrefix(lines, n);
    EmitStopsAtFailure(ParseLines(lines), n);
  }

  lemma {:induction false} ParseLinesPrefix(lines: seq<string>, n: nat)
    requires n <= |lines|
    ensures ParseLines(lines)[..n] == ParseLines(lines[..n])
  {
    if n < |lines| {
      var p := lines[..|lines| - 1];
      ParseLinesPrefix(p, n);
      assert p[..n] == lines[..n];
    } else {
      assert lines[..n] == lines;
    }
  }
}
