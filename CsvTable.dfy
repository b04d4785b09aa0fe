/**
 * The CSV table that connects the two scripts. A cell is either a number
 * (the frame counter or a normalised intensity, written by csv.writer) or
 * text (a header name, or any cell csv.reader hands back unparsed).
 */
module CsvTable {
  datatype Cell = Num(value: real) | Str(text: string)

  type Row = seq<Cell>

  /** An output CSV file: the rows written to it so far, in order. */
  class CsvFile {
    var rows: seq<Row>

    constructor ()
      ensures rows == []
    {
      rows := [];
    }

    /** Opening the file for writing (mode 'w') truncates it. */
    method Truncate()
      modifies this
      ensures rows == []
    {
      rows := [];
    }

    /** csv.writer.writerow: appends one row. */
    method WriteRow(row: Row)
      modifies this
      ensures rows == old(rows) + [row]
    {
      rows := rows + [row];
    }
  }
}
