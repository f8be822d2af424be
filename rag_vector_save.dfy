/**
 * Row-to-passage rendering of the retrieval pipeline (the
 * load_and_prepare_documents service): every row of every processed CSV
 * becomes one document whose text names the company, the data point and
 * the row's non-missing values, and whose metadata records where it came
 * from.
 *
 * A cell is given by the text Python's `str` writes for it, or as missing
 * when pandas read it as NaN.
 */
module RagVectorSave {
  import opened Wrappers
  import opened Strings
  import opened Config

  datatype Cell = Value(text: string) | Missing

  predicate DistinctColumns(r: seq<(string, Cell)>) {
    forall i, j :: 0 <= i < j < |r| ==> r[i].0 != r[j].0
  }

  /** One row of a DataFrame: its column labels (distinct, as read_csv makes them) with their cells, in column order. */
  type Row = r: seq<(string, Cell)> | DistinctColumns(r)

  /** The cell under `column`, if the row has that column. */
  function CellOf(row: Row, column: string): (r: Option<Cell>)
    ensures r.Some? <==> exists i :: 0 <= i < |row| && row[i].0 == column
    ensures r.Some? ==> exists i :: 0 <= i < |row| && row[i] == (column, r.value)
  {
    if row == [] then None
    else if row[0].0 == column then Some(row[0].1)
    else
      assert DistinctColumns(row[1..]);
      var r := CellOf(row[1..], column);
      assert forall i :: 0 <= i < |row[1..]| ==> row[1..][i] == row[i + 1];
      r
  }

  const DataPointColumn: string := "Data Point Name"
  const YearColumn: string := "Year"

  /** What an f-string or `str` writes for a cell: NaN prints as "nan". */
  function CellText(c: Cell): string {
    match c
    case Value(t) => t
    case Missing => "nan"
  }

  /** `row.get('Data Point Name', 'N/A')` as the f-string writes it. */
  function DataPointText(row: Row): (r: string)
    ensures CellOf(row, DataPointColumn).None? ==> r == "N/A"
    ensures CellOf(row, DataPointColumn) == Some(Missing) ==> r == "nan"
    ensures CellOf(row, DataPointColumn).Some? && CellOf(row, DataPointColumn).value.Value? ==>
              r == CellOf(row, DataPointColumn).value.text
  {
    match CellOf(row, DataPointColumn)
    case None => "N/A"
    case Some(c) => CellText(c)
  }

  /** `row.drop('Data Point Name', errors='ignore').dropna().items()`, in column order. */
  function KeptCells(row: seq<(string, Cell)>): (r: seq<(string, string)>)
    ensures |r| <= |row|
  {
    if row == [] then []
    else
      var (col, cell) := row[|row| - 1];
      KeptCells(row[..|row| - 1]) + (if col != DataPointColumn && cell.Value? then [(col, cell.text)] else [])
  }

  /** The kept values are exactly the present cells outside the data-point column. */
  lemma {:induction false} KeptCellsSpec(row: seq<(string, Cell)>, col: string, text: string)
    ensures (col, text) in KeptCells(row) <==> (col, Value(text)) in row && col != DataPointColumn
  {
    if row != [] {
      var p := row[..|row| - 1];
      var last := row[|row| - 1];
      KeptCellsSpec(p, col, text);
      assert row == p + [last];
      assert (col, Value(text)) in row <==> (col, Value(text)) in p || (col, Value(text)) == last;
      assert KeptCells(row) == KeptCells(p) + (if last.0 != DataPointColumn && last.1.Value? then [(last.0, last.1.text)] else []);
    }
  }

  /** Dropping cells keeps the remaining columns in table order. */
  lemma {:induction false} KeptCellsAppend(a: seq<(string, Cell)>, b: seq<(string, Cell)>)
    ensures KeptCells(a + b) == KeptCells(a) + KeptCells(b)
  {
    if b == [] {
      assert a + b == a;
    } else {
      var b' := b[..|b| - 1];
      assert (a + b)[..|a + b| - 1] == a + b';
      assert (a + b)[|a + b| - 1] == b[|b| - 1];
      KeptCellsAppend(a, b');
    }
  }

  /** `f"{col}: {val}"` for every kept cell. */
  function ValueParts(kept: seq<(string, string)>): (r: seq<string>)
    ensures |r| == |kept|
    ensures forall i :: 0 <= i < |kept| ==> r[i] == kept[i].0 + ": " + kept[i].1
  {
    seq(|kept|, i requires 0 <= i < |kept| => kept[i].0 + ": " + kept[i].1)
  }

  /** row_data_string. */
  function RowDataString(row: Row): string {
    Join(", ", ValueParts(KeptCells(row)))
  }

  /** page_content: "Company: C (S). Data Point: N. Values: col: val, col: val". */
  function Passage(meta: FileMetadata, row: Row): string {
    "Company: " + meta.company + " (" + meta.symbol + "). Data Point: " + DataPointText(row) + "."
    + " Values: " + RowDataString(row)
  }

  /** A row holding only its data point name renders with an empty value list. */
  lemma PassageWithoutValues(meta: FileMetadata, name: string)
    ensures Passage(meta, [(DataPointColumn, Value(name))])
            == "Company: " + meta.company + " (" + meta.symbol + "). Data Point: " + name + ". Values: "
  {
    var row: Row := [(DataPointColumn, Value(name))];
    assert row[..0] == [];
    assert KeptCells(row) == [];
  }

  /** A row without the data-point column names it "N/A", and each present cell is one "col: val" part. */
  lemma PassageWithoutDataPoint(meta: FileMetadata, row: Row)
    requires forall i :: 0 <= i < |row| ==> row[i].0 != DataPointColumn
    requires forall i :: 0 <= i < |row| ==> row[i].1.Value?
    ensures Passage(meta, row) == "Company: " + meta.company + " (" + meta.symbol + "). Data Point: N/A. Values: "
                                  + Join(", ", seq(|row|, i requires 0 <= i < |row| => row[i].0 + ": " + row[i].1.text))
  {
    KeptAll(row);
    assert DataPointText(row) == "N/A";
    assert ValueParts(KeptCells(row)) == seq(|row|, i requires 0 <= i < |row| => row[i].0 + ": " + row[i].1.text);
  }

  lemma {:induction false} KeptAll(row: seq<(string, Cell)>)
    requires forall i :: 0 <= i < |row| ==> row[i].0 != DataPointColumn && row[i].1.Value?
    ensures KeptCells(row) == seq(|row|, i requires 0 <= i < |row| => (row[i].0, row[i].1.text))
  {
    if row != [] {
      KeptAll(row[..|row| - 1]);
    }
  }

  /** A metadata value: a string, or the integer row index. */
  datatype MetaValue = Str(s: string) | Index(n: nat)

  /** The configured metadata of a file: `{"company": ..., "symbol": ...}`. */
  function ConfiguredMetadata(meta: FileMetadata): map<string, MetaValue> {
    map["company" := Str(meta.company), "symbol" := Str(meta.symbol)]
  }

  /** One document: page_content and its metadata. */
  datatype Document = Document(content: string, metadata: map<string, MetaValue>)

  /** The metadata of the document for row `index` of the file. */
  function RowMetadata(meta: FileMetadata, row: Row, index: nat): (m: map<string, MetaValue>)
    ensures m.Keys == {"company", "symbol", "source_file", "row_index"}
                      + (if CellOf(row, DataPointColumn).Some? then {"data_point_name"} else {})
                      + (if CellOf(row, YearColumn).Some? then {"year"} else {})
    ensures m["company"] == Str(meta.company) && m["symbol"] == Str(meta.symbol)
    ensures m["source_file"] == Str(meta.filename) && m["row_index"] == Index(index)
    ensures CellOf(row, DataPointColumn).Some? ==> m["data_point_name"] == Str(CellText(CellOf(row, DataPointColumn).value))
    ensures CellOf(row, YearColumn).Some? ==> m["year"] == Str(CellText(CellOf(row, YearColumn).value))
  {
    assert |"company"| == 7 && |"symbol"| == 6 && |"source_file"| == 11 && |"row_index"| == 9;
    assert |"data_point_name"| == 15 && |"year"| == 4;
    var dataPoint, year := CellOf(row, DataPointColumn), CellOf(row, YearColumn);
    var m := ConfiguredMetadata(meta)["source_file" := Str(meta.filename)]["row_index" := Index(index)];
    assert m.Keys == {"company", "symbol", "source_file", "row_index"};
    var m := if dataPoint.Some? then m["data_point_name" := Str(CellText(dataPoint.value))] else m;
    if year.Some? then m["year" := Str(CellText(year.value))] else m
  }

  /** `doc_metadata = metadata.copy()` followed by the key-by-key updates of the source. */
  method BuildMetadata(meta: FileMetadata, row: Row, index: nat) returns (docMetadata: map<string, MetaValue>)
    ensures docMetadata == RowMetadata(meta, row, index)
  {
    docMetadata := ConfiguredMetadata(meta);
    docMetadata := docMetadata["source_file" := Str(meta.filename)];
    docMetadata := docMetadata["row_index" := Index(index)];
    var dataPoint := CellOf(row, DataPointColumn);
    if dataPoint.Some? {
      docMetadata := docMetadata["data_point_name" := Str(CellText(dataPoint.value))];
    }
    var year := CellOf(row, YearColumn);
    if year.Some? {
      docMetadata := docMetadata["year" := Str(CellText(year.value))];
    }
  }

  function RowDocument(meta: FileMetadata, row: Row, index: nat): Document {
    Document(Passage(meta, row), RowMetadata(meta, row, index))
  }

  /** What reading a configured CSV yields: absent, unreadable, or its rows in order. */
  datatype CsvSource = Absent | Unreadable | Rows(rows: seq<Row>)

  /** The documents of one file, one per row, rows in order. */
  function FileDocuments(meta: FileMetadata, src: CsvSource): (docs: seq<Document>)
    ensures !src.Rows? ==> docs == []
    ensures src.Rows? ==> |docs| == |src.rows|
  {
    match src
    case Rows(rows) => seq(|rows|, i requires 0 <= i < |rows| => RowDocument(meta, rows[i], i))
    case _ => []
  }

  /** The i-th document of a file that was read is built from its i-th row, with row index i. */
  lemma FileDocumentsAt(meta: FileMetadata, rows: seq<Row>, i: nat)
    requires i < |rows|
    ensures FileDocuments(meta, Rows(rows))[i] == RowDocument(meta, rows[i], i)
  {
  }

  /** The concatenation of `f` over `xs`, in order. */
  function Flatten<X, Y>(xs: seq<X>, f: X -> seq<Y>): seq<Y> {
    if xs == [] then []
    else Flatten(xs[..|xs| - 1], f) + f(xs[|xs| - 1])
  }

  lemma {:induction false} FlattenAppend<X, Y>(a: seq<X>, b: seq<X>, f: X -> seq<Y>)
    ensures Flatten(a + b, f) == Flatten(a, f) + Flatten(b, f)
  {
    if b == [] {
      assert a + b == a;
    } else {
      var b', last := b[..|b| - 1], b[|b| - 1];
      assert (a + b)[..|a + b| - 1] == a + b';
      assert (a + b)[|a + b| - 1] == last;
      FlattenAppend(a, b', f);
    }
  }

  function FileEntryDocuments(file: (FileMetadata, CsvSource)): seq<Document> {
    FileDocuments(file.0, file.1)
  }

  /** all_docs over FILES_METADATA's entries, each with what reading its CSV yields. */
  function AllDocuments(files: seq<(FileMetadata, CsvSource)>): seq<Document> {
    Flatten(files, FileEntryDocuments)
  }

  /** The number of rows of the files that were read. */
  function RowCount(files: seq<(FileMetadata, CsvSource)>): nat {
    if files == [] then 0
    else
      var src := files[|files| - 1].1;
      RowCount(files[..|files| - 1]) + (if src.Rows? then |src.rows| else 0)
  }

  /** Exactly one document per row of every file that was read; files that are absent or unreadable add none. */
  lemma {:induction false} OneDocumentPerRow(files: seq<(FileMetadata, CsvSource)>)
    ensures |AllDocuments(files)| == RowCount(files)
  {
    if files != [] {
      OneDocumentPerRow(files[..|files| - 1]);
    }
  }

  /** Documents follow the files in configuration order. */
  lemma AllDocumentsAppend(a: seq<(FileMetadata, CsvSource)>, b: seq<(FileMetadata, CsvSource)>)
    ensures AllDocuments(a + b) == AllDocuments(a) + AllDocuments(b)
  {
    FlattenAppend(a, b, FileEntryDocuments);
  }

  /** One more row adds its document at the end. */
  lemma FileDocumentsSnoc(meta: FileMetadata, rows: seq<Row>, n: nat)
    requires n < |rows|
    ensures FileDocuments(meta, Rows(rows[..n + 1])) == FileDocuments(meta, Rows(rows[..n])) + [RowDocument(meta, rows[n], n)]
  {
    var longer, shorter := FileDocuments(meta, Rows(rows[..n + 1])), FileDocuments(meta, Rows(rows[..n]));
    assert forall i :: 0 <= i < n ==> longer[i] == shorter[i];
  }

  /** The loop over one file's rows, appending one document per row. */
  method RowDocuments(meta: FileMetadata, rows: seq<Row>) returns (docs: seq<Document>)
    ensures docs == FileDocuments(meta, Rows(rows))
  {
    docs := [];
    for index := 0 to |rows|
      invariant docs == FileDocuments(meta, Rows(rows[..index]))
    {
      var docMetadata := BuildMetadata(meta, rows[index], index);
      var pageContent := Passage(meta, rows[index]);
      FileDocumentsSnoc(meta, rows, index);
      docs := docs + [Document(pageContent, docMetadata)];
    }
    assert rows[..|rows|] == rows;
  }

  /** load_and_prepare_documents: the loop over the files; a file that is absent or unreadable is skipped. */
  method LoadAndPrepareDocuments(files: seq<(FileMetadata, CsvSource)>) returns (allDocs: seq<Document>)
    ensures allDocs == AllDocuments(files)
  {
    allDocs := [];
    for f := 0 to |files|
      invariant allDocs == AllDocuments(files[..f])
    {
      assert files[..f + 1][..f] == files[..f];
      var (meta, src) := files[f];
      if !src.Rows? {
        continue;
      }
      var docs := RowDocuments(meta, src.rows);
      allDocs := allDocs + docs;
    }
    assert files[..|files|] == files;
  }
}
