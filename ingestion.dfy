/**
 * The first half of `create_database`: read the CSV with the encoding
 * fallback, then rename the frame's columns in place to their normalised
 * form. Writing the frame into SQLite is not part of this model.
 */
module Ingestion {
  import opened Results
  import opened ColumnNames
  import opened CsvReader

  /** The pandas frame; `columns` is reassigned in place by the rename. */
  class DataFrame {
    var columns: seq<string>
    var rows: seq<seq<string>>

    constructor (t: Table)
      ensures columns == t.columns && rows == t.rows
    {
      columns := t.columns;
      rows := t.rows;
    }

    /** `df.columns = [c.strip().lower().replace(" ", "_") for c in df.columns]`. */
    method NormalizeColumns()
      modifies this
      ensures columns == NormalizeAll(old(columns))
      ensures rows == old(rows)
    {
      columns := NormalizeAll(columns);
    }
  }

  /**
   * Lines 16-18: the frame the table is built from. It fails exactly when
   * every encoding fails; otherwise it holds the first successful parse,
   * with each column named by the normalised form of its header.
   */
  method LoadFrame(read: Reader) returns (r: Result<DataFrame, ReadError>)
    ensures r.Failure? <==> forall e :: e in FallbackEncodings ==> read(e).Raised?
    ensures r.Failure? ==> r.error == RuntimeError
    ensures r.Success? ==>
      var k := FirstParsed(read, FallbackEncodings);
      k < |FallbackEncodings| &&
      fresh(r.value) &&
      r.value.columns == NormalizeAll(read(FallbackEncodings[k]).table.columns) &&
      r.value.rows == read(FallbackEncodings[k]).table.rows
  {
    var parsed, attempts := ReadCsvWithFallback(read);
    match parsed
    case Failure(e) =>
      r := Failure(e);
    case Success(t) =>
      var df := new DataFrame(t);
      df.NormalizeColumns();
      r := Success(df);
  }

  /** After loading, every column name is in normal form and the column count is unchanged. */
  lemma LoadedColumnsNormal(t: Table, cols: seq<string>)
    requires cols == NormalizeAll(t.columns)
    ensures |cols| == |t.columns|
    ensures forall i :: 0 <= i < |cols| ==> IsNormal(cols[i])
  {
    forall i | 0 <= i < |cols| ensures IsNormal(cols[i]) {
      NormalizeIdempotent(t.columns[i]);
      NormalizeFixedPoint(cols[i]);
    }
  }
}
