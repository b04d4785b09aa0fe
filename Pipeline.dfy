/**
 * The two scripts together: the importer reads the CSV the converter wrote.
 * Row k of that file starts with the frame counter k, and the importer indexes
 * a row with the light's own number, so light 0 reads the frame counter and
 * light i >= 1 reads the column headed light_{i-1}.
 */
module Pipeline {
  import opened Results
  import opened Text
  import opened CsvTable
  import ConvertDmx
  import ImportDmx

  /** The column that light i >= 1 reads is headed light_{i-1}; light 0 reads the column headed frame. */
  lemma ColumnReadByLight(i: nat)
    requires i < ImportDmx.NUM_LIGHTS
    ensures i == 0 ==> ConvertDmx.Header()[i] == Str("frame")
    ensures i > 0 ==> ConvertDmx.Header()[i] == Str(ConvertDmx.ColumnName(i - 1))
  {
    ConvertDmx.HeaderShape();
    if i > 0 {
      assert ConvertDmx.Header()[(i - 1) + 1] == Str(ConvertDmx.ColumnName(i - 1));
    }
  }

  /** The importer looks only at the first NUM_LIGHTS cells of a frame row: two CSV files with the same
      number of rows whose frame rows agree on those cells (the frame column and light_0 .. light_62)
      make the same calls and end the same way. So the light_63 column the converter writes, and any
      column after it, never reaches the editor. */
  lemma LastColumnUnread(csvRows: seq<Row>, others: seq<Row>, actors: seq<ImportDmx.Actor>)
    requires |csvRows| == |others|
    requires forall k :: 0 < k < |csvRows| ==> ImportDmx.SameLeadingCells(csvRows[k], others[k], ImportDmx.NUM_LIGHTS)
    ensures ImportDmx.ImportCalls(csvRows, actors) == ImportDmx.ImportCalls(others, actors)
  {
    if csvRows != [] {
      var rows := csvRows[1..];
      var rest := others[1..];
      forall k | 0 <= k < |rows|
        ensures ImportDmx.SameLeadingCells(rows[k], rest[k], ImportDmx.NUM_LIGHTS)
      {
        assert rows[k] == csvRows[k + 1] && rest[k] == others[k + 1];
      }
      ImportDmx.BindAllLightsBelow(actors);
      ImportDmx.TrackKeysLeadingCells(rows, rest, ImportDmx.NUM_LIGHTS, ImportDmx.BindAll(actors));
    }
  }


  /** Light 0 reads the frame counter: on frame k its brightness is k, so its key has intensity
      k * 5000. */
  lemma LightZeroReadsFrameCounter(lines: seq<string>, k: nat)
    requires k < |ConvertDmx.ConvertLines(lines).rows|
    ensures ImportDmx.Brightness(ConvertDmx.ConvertLines(lines).rows[k], k, 0) == Success(k as real)
  {
    ConvertDmx.ConvertedRow(lines, k);
  }

  /** Light i >= 1 reads token i - 1 of the k-th data line divided by 255; a data line with fewer than i
      tokens stops the import at that frame. */
  lemma LightReadsPreviousColumn(lines: seq<string>, k: nat, i: nat)
    requires k < |ConvertDmx.ConvertLines(lines).rows|
    requires 1 <= i
    ensures k < |ConvertDmx.DataLines(lines)|
    ensures ConvertDmx.IsNumericLine(ConvertDmx.DataLines(lines)[k])
    ensures var tokens := Words(ConvertDmx.DataLines(lines)[k]);
      ImportDmx.Brightness(ConvertDmx.ConvertLines(lines).rows[k], k, i) ==
        if i <= |tokens| then Success(ConvertDmx.Normalized(tokens[i - 1]))
        else Failure(ImportDmx.ColumnMissing(k, i))
  {
    ConvertDmx.ConvertedRow(lines, k);
  }

  /** Every cell the converter writes is a number, so a light can read a converted row exactly when the
      row is long enough: the data line has at least as many tokens as the light's index. */
  lemma ConvertedBrightness(lines: seq<string>, k: nat, light: nat)
    requires k < |ConvertDmx.ConvertLines(lines).rows|
    ensures k < |ConvertDmx.DataLines(lines)|
    ensures ImportDmx.Brightness(ConvertDmx.ConvertLines(lines).rows[k], k, light).Success? <==>
      light <= |Words(ConvertDmx.DataLines(lines)[k])|
  {
    ConvertDmx.ConvertedRow(lines, k);
    if light > 0 {
      LightReadsPreviousColumn(lines, k, light);
    }
  }

  /** Importing converted data finishes exactly when every data line has at least as many tokens as the
      index of every bound light. */
  lemma ConvertedImportSucceedsIff(lines: seq<string>, actors: seq<ImportDmx.Actor>)
    ensures |ConvertDmx.ConvertLines(lines).rows| <= |ConvertDmx.DataLines(lines)|
    ensures
      var rows := ConvertDmx.ConvertLines(lines).rows;
      var entries := ImportDmx.BindAll(actors);
      ImportDmx.TrackKeys(rows, entries).failure == None <==>
        forall p, k :: 0 <= p < |entries| && 0 <= k < |rows| ==>
          entries[p].light <= |Words(ConvertDmx.DataLines(lines)[k])|
  {
    var rows := ConvertDmx.ConvertLines(lines).rows;
    var entries := ImportDmx.BindAll(actors);
    ConvertDmx.ConvertLinesOutcome(lines);
    ImportDmx.TrackKeysSucceedsIff(rows, entries);
    forall p | 0 <= p < |entries|
      ensures ImportDmx.ChannelKeys(rows, entries[p].light).failure == None <==>
        forall k :: 0 <= k < |rows| ==> entries[p].light <= |Words(ConvertDmx.DataLines(lines)[k])|
    {
      ImportDmx.ChannelKeysSpec(rows, entries[p].light);
      forall k | 0 <= k < |rows|
        ensures ImportDmx.Brightness(rows[k], k, entries[p].light).Success? <==>
          entries[p].light <= |Words(ConvertDmx.DataLines(lines)[k])|
      {
        ConvertedBrightness(lines, k, entries[p].light);
      }
    }
  }
}
