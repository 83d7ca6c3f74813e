/** The result store: a workbook whose active sheet logs one row per analysed
    review, with column display widths re-derived from all rows on every write. */
module ResultLog {
  import opened Outcomes
  import opened Columns

  /** The header row written into a new store. */
  const Header: Row := ["Review", "Sentiment", "Detected Language"]

  /** The title given to the sheet of a new store. */
  const ResultsTitle: string := "Sentiment Results"

  /** The title a new workbook gives its active sheet before it is renamed. */
  const DefaultTitle: string := "Sheet"

  /** Extra width added to every column beyond its longest cell. */
  const Padding: nat := 2

  /** What a saved workbook holds of its active sheet: the title, the rows, and
      the display widths set on its columns, keyed by 1-based column number
      (column letter A is 1, B is 2, and so on). */
  datatype SheetData = SheetData(title: string, rows: seq<Row>, widths: map<nat, nat>)

  /** The workbook file at the store's path: absent, readable, or present but
      failing to load (corrupt, unreadable) with the error's message. */
  datatype StoredFile = Missing | Readable(data: SheetData) | Unreadable(reason: string)

  /** The active sheet of an open workbook. */
  class Sheet {
    var title: string
    var rows: seq<Row>
    var widths: map<nat, nat>

    /** The active sheet of a new, empty workbook. */
    constructor Create()
      ensures title == DefaultTitle && rows == [] && widths == map[]
    {
      title := DefaultTitle;
      rows := [];
      widths := map[];
    }

    /** The active sheet of a workbook loaded from a file. */
    constructor Load(data: SheetData)
      ensures Data() == data
    {
      title := data.title;
      rows := data.rows;
      widths := data.widths;
    }

    /** The sheet's current contents, as they would be saved. */
    function Data(): SheetData
      reads this
    {
      SheetData(title, rows, widths)
    }

    /** Adds a row after the last one. */
    method Append(row: Row)
      modifies this
      ensures rows == old(rows) + [row]
      ensures title == old(title) && widths == old(widths)
    {
      rows := rows + [row];
    }

    /** Sets the display width of one column. */
    method SetColumnWidth(column: nat, width: nat)
      modifies this
      ensures widths == old(widths)[column := width]
      ensures title == old(title) && rows == old(rows)
    {
      widths := widths[column := width];
    }
  }

  /** The rows already stored, if the store exists. */
  function StoredRows(file: StoredFile): Option<seq<Row>>
  {
    match file
    case Readable(data) => Some(data.rows)
    case _ => None
  }

  /** The rows a write starts from: those of the existing store, or the header alone. */
  function StartRows(prior: Option<seq<Row>>): seq<Row>
  {
    match prior
    case None => [Header]
    case Some(rows) => rows
  }

  /** The widths a write starts from: those of the existing store, or none. */
  function StartWidths(file: StoredFile): map<nat, nat>
  {
    match file
    case Readable(data) => data.widths
    case _ => map[]
  }

  /** The widths the logger leaves on a sheet with `rows` whose columns had widths
      `before`: each of the first LongestRow(rows) columns gets its longest cell
      plus the padding, and every other column keeps the width it had. */
  function FittedWidths(rows: seq<Row>, before: map<nat, nat>): map<nat, nat>
  {
    before + map c: nat | 1 <= c <= LongestRow(rows) :: FittedWidth(rows, c)
  }

  /** The width fitted to 1-based column c: its longest cell plus the padding. */
  function FittedWidth(rows: seq<Row>, c: nat): nat
    requires 1 <= c
  {
    ColumnMax(rows, c - 1) + Padding
  }

  /** The width applied to 1-based column c from the computed list of maxima. */
  function PaddedWidth(widths: seq<nat>, c: nat): nat
    requires 1 <= c <= |widths|
  {
    widths[c - 1] + Padding
  }

  /** Every column that holds a cell has a width at least that cell's length plus the padding. */
  ghost predicate WidthsCoverCells(rows: seq<Row>, widths: map<nat, nat>)
  {
    forall r, i :: 0 <= r < |rows| && 0 <= i < |rows[r]| ==>
      i + 1 in widths && widths[i + 1] >= |rows[r][i]| + Padding
  }

  /** Every column up to the longest row's length is exactly as wide as one of its
      cells plus the padding: no such column is wider than it needs to be. */
  ghost predicate WidthsTight(rows: seq<Row>, widths: map<nat, nat>)
  {
    forall c: nat :: 1 <= c <= LongestRow(rows) ==>
      c in widths && exists r :: 0 <= r < |rows| && c - 1 < |rows[r]| && widths[c] == |rows[r][c - 1]| + Padding
  }

  /** The layout of a store: the header first, three fields in every data row, and
      every column wide enough for all of its cells. */
  ghost predicate ValidStore(data: SheetData)
  {
    && |data.rows| >= 1
    && data.rows[0] == Header
    && (forall k :: 1 <= k < |data.rows| ==> |data.rows[k]| == 3)
    && WidthsCoverCells(data.rows, data.widths)
  }

  /** Fitted widths cover every cell of their column, are tight, and leave the
      columns beyond the longest row as they were. */
  lemma {:induction false} FittedWidthsFit(rows: seq<Row>, before: map<nat, nat>)
    ensures WidthsCoverCells(rows, FittedWidths(rows, before))
    ensures WidthsTight(rows, FittedWidths(rows, before))
    ensures forall c :: c in before && !(1 <= c <= LongestRow(rows)) ==>
              c in FittedWidths(rows, before) && FittedWidths(rows, before)[c] == before[c]
    ensures forall c :: c in FittedWidths(rows, before) ==> c in before || 1 <= c <= LongestRow(rows)
  {
    var after := FittedWidths(rows, before);
    LongestRowIsLongest(rows);
    forall r, i | 0 <= r < |rows| && 0 <= i < |rows[r]|
      ensures i + 1 in after && after[i + 1] >= |rows[r][i]| + Padding
    {
      ColumnMaxBound(rows, i, r);
    }
    forall c: nat | 1 <= c <= LongestRow(rows)
      ensures c in after && exists r :: 0 <= r < |rows| && c - 1 < |rows[r]| && after[c] == |rows[r][c - 1]| + Padding
    {
      ColumnMaxAttained(rows, c - 1);
    }
  }

  /** What recording `row` into `file` saves, or the error it raises: loading an
      unreadable store raises first, then `saveError`, which stands for any error
      raised after loading (by the sheet's cell checks or by the save); otherwise the row is
      appended to the existing sheet, or to a new sheet titled ResultsTitle that
      holds only the header, and the column widths are refitted to all rows. */
  function Recorded(file: StoredFile, row: Row, saveError: Option<string>): Result<SheetData>
  {
    if file.Unreadable? then Err(file.reason)
    else if saveError.Some? then Err(saveError.value)
    else
      var rows := StartRows(StoredRows(file)) + [row];
      var title := if file.Readable? then file.data.title else ResultsTitle;
      Ok(SheetData(title, rows, FittedWidths(rows, StartWidths(file))))
  }

  /** The properties of a record: when it succeeds; a new store holds exactly the
      header and the row; an existing one gains the row at the end and keeps all
      earlier rows; widths fit every cell; and the store layout is preserved. */
  lemma {:induction false} RecordedStore(file: StoredFile, row: Row, saveError: Option<string>)
    ensures Recorded(file, row, saveError).Ok? <==> !file.Unreadable? && saveError.None?
    ensures file.Unreadable? ==> Recorded(file, row, saveError) == Err(file.reason)
    ensures !file.Unreadable? && saveError.Some? ==> Recorded(file, row, saveError) == Err(saveError.value)
    ensures file.Missing? && saveError.None? ==>
              var data := Recorded(file, row, saveError).value;
              data.rows == [Header, row] && data.title == ResultsTitle
    ensures file.Readable? && saveError.None? ==>
              var data := Recorded(file, row, saveError).value;
              && |data.rows| == |file.data.rows| + 1
              && data.rows[..|file.data.rows|] == file.data.rows
              && data.rows[|file.data.rows|] == row
              && data.title == file.data.title
    ensures Recorded(file, row, saveError).Ok? ==>
              var data := Recorded(file, row, saveError).value;
              WidthsCoverCells(data.rows, data.widths) && WidthsTight(data.rows, data.widths)
    ensures Recorded(file, row, saveError).Ok? && |row| == 3 && (file.Missing? || ValidStore(file.data)) ==>
              ValidStore(Recorded(file, row, saveError).value)
  {
    if Recorded(file, row, saveError).Ok? {
      var data := Recorded(file, row, saveError).value;
      FittedWidthsFit(data.rows, StartWidths(file));
      if file.Readable? {
        assert data.rows[..|file.data.rows|] == file.data.rows;
      }
    }
  }

  /** The second loop of the logger: column i + 1 gets width widths[i] plus the padding. */
  method ApplyColumnWidths(sheet: Sheet, widths: seq<nat>)
    modifies sheet
    ensures sheet.rows == old(sheet.rows) && sheet.title == old(sheet.title)
    ensures sheet.widths == old(sheet.widths) + map c: nat | 1 <= c <= |widths| :: PaddedWidth(widths, c)
  {
    var i := 0;
    while i < |widths|
      invariant 0 <= i <= |widths|
      invariant sheet.rows == old(sheet.rows) && sheet.title == old(sheet.title)
      invariant sheet.widths == old(sheet.widths) + map c: nat | 1 <= c <= i :: PaddedWidth(widths, c)
    {
      sheet.SetColumnWidth(i + 1, widths[i] + Padding);
      i := i + 1;
    }
  }

  /** Padding the computed column maxima gives the fitted widths. */
  lemma PaddedIsFitted(widths: seq<nat>, rows: seq<Row>)
    requires |widths| == LongestRow(rows)
    requires forall i :: 0 <= i < |widths| ==> widths[i] == ColumnMax(rows, i)
    ensures (map c: nat | 1 <= c <= |widths| :: PaddedWidth(widths, c))
         == (map c: nat | 1 <= c <= LongestRow(rows) :: FittedWidth(rows, c))
  {
  }

  /** Records one analysed review, as Recorded says. */
  method RecordSentiment(file: StoredFile, review: string, sentiment: string, detectedLanguage: string,
                         saveError: Option<string>)
    returns (r: Result<SheetData>)
    ensures r == Recorded(file, [review, sentiment, detectedLanguage], saveError)
  {
    var sheet: Sheet;
    if file.Unreadable? {
      return Err(file.reason);
    } else if file.Readable? {
      sheet := new Sheet.Load(file.data);
    } else {
      sheet := new Sheet.Create();
      sheet.title := ResultsTitle;
      sheet.Append(Header);
    }
    sheet.Append([review, sentiment, detectedLanguage]);
    ghost var rows := StartRows(StoredRows(file)) + [[review, sentiment, detectedLanguage]];
    assert sheet.rows == rows && sheet.widths == StartWidths(file);

    var columnWidths := ColumnWidths(sheet.rows);
    ApplyColumnWidths(sheet, columnWidths);
    PaddedIsFitted(columnWidths, rows);

    if saveError.Some? {
      return Err(saveError.value);
    }
    r := Ok(sheet.Data());
  }

  /** The store after recording each of `records` in turn with no error, starting
      without a store: each step is one Recorded. */
  function Store(records: seq<Row>): StoredFile
    decreases |records|
  {
    if records == [] then Missing
    else
      match Recorded(Store(records[..|records| - 1]), records[|records| - 1], None)
      case Ok(data) => Readable(data)
      case Err(e) => Unreadable(e)
  }

  /** After N successful records starting without a store, the store holds the
      header and then the N rows, in order; when every row has three fields the
      store has the header layout and widths covering every cell. */
  lemma {:induction false} StoreRows(records: seq<Row>)
    requires records != []
    ensures Store(records).Readable?
    ensures Store(records).data.rows == [Header] + records
    ensures Store(records).data.title == ResultsTitle
    ensures (forall k :: 0 <= k < |records| ==> |records[k]| == 3) ==> ValidStore(Store(records).data)
    decreases |records|
  {
    var init := records[..|records| - 1];
    var last := records[|records| - 1];
    if init != [] {
      StoreRows(init);
      assert forall k :: 0 <= k < |init| ==> init[k] == records[k];
      RecordedStore(Store(init), last, None);
      assert [Header] + init + [last] == [Header] + records;
    } else {
      RecordedStore(Missing, last, None);
      assert records == [last];
    }
  }
}
