/** The spreadsheet the spider writes (`init_excel` and `update_excel`).

    The workbook on disk is a `StoreFile`: missing, present but unreadable,
    or holding a `Table` of string cells under a header row. Whether a write
    succeeds is a parameter. Every read-modify-write is all or nothing: when
    any step fails the file keeps its previous content. */
module Store {
  import opened Wrappers
  import Text
  import Extraction

  /** One spreadsheet cell; `None` is an empty (NaN) cell. */
  type Cell = Option<string>

  /** The fixed header, in column order. */
  const Schema: seq<string> := [
    "No", "URL", "product_name", "price", "description", "main_image",
    "other_pictures", "description_images", "product_code", "size",
    "tip", "thickness", "material", "color", "quantity_in_box", "URL type"]

  const NoColumn: nat := 0
  const UrlColumn: nat := 1

  /** The separator used to store an image list in one cell. */
  const ListSeparator: char := ','

  datatype Table = Table(columns: seq<string>, rows: seq<seq<Cell>>)

  /** A table as `init_excel` creates it and `update_excel` keeps it: the
      fixed header and one cell per column in every row. */
  predicate WellFormed(t: Table)
  {
    && t.columns == Schema
    && forall i :: 0 <= i < |t.rows| ==> |t.rows[i]| == |Schema|
  }

  datatype StoreFile = Absent | Unreadable | Present(table: Table)

  predicate WellFormedFile(file: StoreFile)
  {
    file.Present? ==> WellFormed(file.table)
  }

  datatype StoreError = ReadFailed | WriteFailed | ArityMismatch(columns: nat, values: nat)

  /** Everything `parse` hands to `update_excel` for one page. */
  datatype Record = Record(url: string, data: Extraction.Product, urlType: string)

  /** The header has sixteen distinct names, `No` first and `URL` second. */
  lemma SchemaShape()
    ensures |Schema| == 16
    ensures Schema[NoColumn] == "No" && Schema[UrlColumn] == "URL"
    ensures forall i, j :: 0 <= i < j < |Schema| ==> Schema[i] != Schema[j]
  {
  }

  /** Creates the workbook with the header and no rows when none exists;
      leaves an existing one (readable or not) alone. A failed creation is
      an error that stops the spider. */
  function Bootstrap(file: StoreFile, writeOk: bool): (r: Result<StoreFile, StoreError>)
    ensures r.Success? <==> !file.Absent? || writeOk
    ensures r.Success? && file.Absent? ==> r.value == Present(Table(Schema, []))
    ensures !file.Absent? ==> r == Success(file)
  {
    if file.Absent? then
      if writeOk then Success(Present(Table(Schema, []))) else Failure(WriteFailed)
    else Success(file)
  }

  /** A second bootstrap changes nothing, and a fresh workbook is well formed
      and empty. */
  lemma BootstrapIdempotent(file: StoreFile, writeOk: bool, writeOk': bool)
    requires Bootstrap(file, writeOk).Success?
    ensures Bootstrap(Bootstrap(file, writeOk).value, writeOk') == Bootstrap(file, writeOk)
    ensures file.Absent? ==> WellFormed(Bootstrap(file, writeOk).value.table)
    ensures file.Absent? ==> Bootstrap(file, writeOk).value.table.rows == []
  {
  }

  /** The fifteen values of the positional row list (image lists
      comma-joined). Preceded by an empty `No`, they are exactly the new-row
      dictionary aligned with the header: both spellings of a row carry the
      same values for the same columns. */
  function DataCells(rec: Record): (cells: seq<Cell>)
    ensures |cells| == |Schema| - 1
    ensures [None] + cells == RowFromDict(Schema, NewRowDict(rec))
  {
    SchemaShape();
    var x := rec.data;
    [Some(rec.url), x.productName, x.price, x.description, x.mainImage,
     Some(Text.Join(ListSeparator, x.otherPictures)),
     Some(Text.Join(ListSeparator, x.descriptionImages)),
     x.productCode, x.size, x.tip, x.thickness, x.material, x.color,
     x.quantityInBox, Some(rec.urlType)]
  }

  /** The new row as a column-name dictionary; it has no `No` entry. */
  function NewRowDict(rec: Record): (d: map<string, Cell>)
    ensures Schema[NoColumn] !in d
    ensures forall k :: NoColumn < k < |Schema| ==> Schema[k] in d
    ensures d[Schema[UrlColumn]] == Some(rec.url)
    ensures "other_pictures" in d && d["other_pictures"] == Some(Text.Join(ListSeparator, rec.data.otherPictures))
    ensures "description_images" in d && d["description_images"] == Some(Text.Join(ListSeparator, rec.data.descriptionImages))
    ensures "URL type" in d && d["URL type"] == Some(rec.urlType)
  {
    SchemaShape();
    var x := rec.data;
    map[
      "URL" := Some(rec.url), "product_name" := x.productName, "price" := x.price,
      "description" := x.description, "main_image" := x.mainImage,
      "other_pictures" := Some(Text.Join(ListSeparator, x.otherPictures)),
      "description_images" := Some(Text.Join(ListSeparator, x.descriptionImages)),
      "product_code" := x.productCode, "size" := x.size, "tip" := x.tip,
      "thickness" := x.thickness, "material" := x.material, "color" := x.color,
      "quantity_in_box" := x.quantityInBox, "URL type" := Some(rec.urlType)]
  }

  /** The header column that holds a single-valued field. */
  function ColumnName(f: Extraction.Field): (name: string)
    ensures name in Schema
    ensures name != Schema[NoColumn] && name != Schema[UrlColumn]
  {
    match f
    case ProductName => "product_name"
    case Price => "price"
    case Description => "description"
    case MainImage => "main_image"
    case ProductCode => "product_code"
    case Size => "size"
    case Tip => "tip"
    case Thickness => "thickness"
    case Material => "material"
    case Color => "color"
    case QuantityInBox => "quantity_in_box"
  }

  /** Distinct fields go to distinct columns. */
  lemma ColumnNamesDistinct(f: Extraction.Field, g: Extraction.Field)
    ensures ColumnName(f) == ColumnName(g) <==> f == g
  {
  }

  /** Every single-valued field lands in its own column of the new row,
      unchanged. */
  lemma NewRowDictFields(rec: Record, f: Extraction.Field)
    ensures ColumnName(f) in NewRowDict(rec)
    ensures NewRowDict(rec)[ColumnName(f)] == rec.data.Scalar(f)
  {
    match f
    case ProductName =>
    case Price =>
    case Description =>
    case MainImage =>
    case ProductCode =>
    case Size =>
    case Tip =>
    case Thickness =>
    case Material =>
    case Color =>
    case QuantityInBox =>
  }

  /** Aligning a dictionary with a header when it is appended as a row:
      each column takes the entry of the same name, or stays empty. */
  function RowFromDict(columns: seq<string>, d: map<string, Cell>): (row: seq<Cell>)
    ensures |row| == |columns|
    ensures forall i :: 0 <= i < |columns| && columns[i] in d ==> row[i] == d[columns[i]]
    ensures forall i :: 0 <= i < |columns| && columns[i] !in d ==> row[i] == None
  {
    seq(|columns|, i requires 0 <= i < |columns| => if columns[i] in d then d[columns[i]] else None)
  }

  /** The URL cell of a row. */
  function UrlAt(row: seq<Cell>): (url: Cell)
    ensures |row| > UrlColumn ==> url == row[UrlColumn]
  {
    if |row| > UrlColumn then row[UrlColumn] else None
  }

  /** Some row's URL cell equals `url`. */
  predicate HasUrl(rows: seq<seq<Cell>>, url: string)
  {
    exists i :: 0 <= i < |rows| && UrlAt(rows[i]) == Some(url)
  }

  /** No URL occurs in two rows. */
  predicate UrlsUnique(rows: seq<seq<Cell>>)
  {
    forall i, j :: 0 <= i < j < |rows| && UrlAt(rows[i]).Some? ==> UrlAt(rows[i]) != UrlAt(rows[j])
  }

  /** Index of the first row whose URL is `url`. */
  function FirstUrlMatch(rows: seq<seq<Cell>>, url: string): (r: Option<nat>)
    ensures r.Some? <==> HasUrl(rows, url)
    ensures r.Some? ==> r.value < |rows| && UrlAt(rows[r.value]) == Some(url)
    ensures r.Some? ==> forall j :: 0 <= j < r.value ==> UrlAt(rows[j]) != Some(url)
  {
    if rows == [] then None
    else if UrlAt(rows[0]) == Some(url) then Some(0)
    else
      match FirstUrlMatch(rows[1..], url)
      case None => None
      case Some(i) => Some(i + 1)
  }

  /** Assigning a list to a whole row by position: the list must have one
      value per column, otherwise the assignment raises. */
  function AssignRow(columns: seq<string>, values: seq<Cell>): (r: Result<seq<Cell>, StoreError>)
    ensures r.Success? <==> |values| == |columns|
    ensures r.Success? ==> r.value == values
    ensures r.Failure? ==> r.error == ArityMismatch(|columns|, |values|)
  {
    if |values| == |columns| then Success(values)
    else Failure(ArityMismatch(|columns|, |values|))
  }

  /** The upsert as written: an existing URL's row is assigned the fifteen
      positional values, which any header but a fifteen-column one rejects
      (the sixteen-column header in particular); a new URL is appended from
      the dictionary. */
  function UpsertAsWritten(t: Table, rec: Record): (r: Result<Table, StoreError>)
    ensures HasUrl(t.rows, rec.url) && |t.columns| != |Schema| - 1 ==>
      r == Failure(ArityMismatch(|t.columns|, |Schema| - 1))
    ensures WellFormed(t) && HasUrl(t.rows, rec.url) ==> r == Failure(ArityMismatch(16, 15))
    ensures WellFormed(t) && !HasUrl(t.rows, rec.url) ==> r == Success(Upsert(t, rec))
  {
    match FirstUrlMatch(t.rows, rec.url)
    case Some(i) =>
      var row :- AssignRow(t.columns, DataCells(rec));
      Success(t.(rows := t.rows[i := row]))
    case None =>
      Success(t.(rows := t.rows + [RowFromDict(t.columns, NewRowDict(rec))]))
  }

  /** The upsert as intended: an existing URL's first row gets the fifteen
      values in the columns after `No` (its `No` cell is kept); a new URL is
      appended with an empty `No`. */
  function Upsert(t: Table, rec: Record): (r: Table)
    requires WellFormed(t)
    ensures WellFormed(r)
    ensures HasUrl(r.rows, rec.url)
    ensures UrlsUnique(t.rows) ==> UrlsUnique(r.rows)
    ensures !HasUrl(t.rows, rec.url) ==>
      && |r.rows| == |t.rows| + 1
      && r.rows[..|t.rows|] == t.rows
      && r.rows[|t.rows|][NoColumn] == None
      && r.rows[|t.rows|][1..] == DataCells(rec)
    ensures HasUrl(t.rows, rec.url) ==>
      var i := FirstUrlMatch(t.rows, rec.url).value;
      && |r.rows| == |t.rows|
      && (forall j :: 0 <= j < |t.rows| && j != i ==> r.rows[j] == t.rows[j])
      && r.rows[i][NoColumn] == t.rows[i][NoColumn]
      && r.rows[i][1..] == DataCells(rec)
  {
    SchemaShape();
    match FirstUrlMatch(t.rows, rec.url)
    case Some(i) =>
      var rows := t.rows[i := [t.rows[i][NoColumn]] + DataCells(rec)];
      assert UrlAt(rows[i]) == Some(rec.url);
      t.(rows := rows)
    case None =>
      var rows := t.rows + [RowFromDict(Schema, NewRowDict(rec))];
      assert UrlAt(rows[|t.rows|]) == Some(rec.url);
      t.(rows := rows)
  }

  /** Reading the workbook fails when it is missing or unreadable. */
  function ReadTable(file: StoreFile): (r: Result<Table, StoreError>)
    ensures r.Success? <==> file.Present?
    ensures r.Success? ==> r.value == file.table
  {
    if file.Present? then Success(file.table) else Failure(ReadFailed)
  }

  /** The end of the `try`: the updated table replaces the file only when
      every step succeeded, including the write. */
  function Commit(file: StoreFile, updated: Result<Table, StoreError>, writeOk: bool): (r: StoreFile)
    ensures updated.Success? && writeOk ==> r == Present(updated.value)
    ensures !(updated.Success? && writeOk) ==> r == file
  {
    if updated.Success? && writeOk then Present(updated.value) else file
  }

  /** `update_excel` as written. */
  function UpdateExcelAsWritten(file: StoreFile, rec: Record, writeOk: bool): (r: StoreFile)
    requires WellFormedFile(file)
    ensures WellFormedFile(r)
    ensures r == file || (file.Present? && writeOk && r == Present(Upsert(file.table, rec)))
    ensures file.Present? && HasUrl(file.table.rows, rec.url) ==> r == file
    ensures file.Present? && writeOk && !HasUrl(file.table.rows, rec.url) ==>
      r == Present(Upsert(file.table, rec))
  {
    var updated := (var t :- ReadTable(file); UpsertAsWritten(t, rec));
    Commit(file, updated, writeOk)
  }

  /** `update_excel` as intended. */
  function UpdateExcel(file: StoreFile, rec: Record, writeOk: bool): (r: StoreFile)
    requires WellFormedFile(file)
    ensures WellFormedFile(r)
    ensures !(file.Present? && writeOk) ==> r == file
    ensures file.Present? && writeOk ==> r == Present(Upsert(file.table, rec))
  {
    var updated := (var t :- ReadTable(file); Success(Upsert(t, rec)));
    Commit(file, updated, writeOk)
  }

  /** Writing two records for the same URL leaves the second: every data
      column is replaced, nothing of the first survives. */
  lemma UpsertLastWriteWins(t: Table, a: Record, b: Record)
    requires WellFormed(t)
    requires a.url == b.url
    ensures Upsert(Upsert(t, a), b) == Upsert(t, b)
  {
    var t1 := Upsert(t, a);
    var url := a.url;
    if HasUrl(t.rows, url) {
      var i := FirstUrlMatch(t.rows, url).value;
      assert FirstUrlMatch(t1.rows, url) == Some(i) by {
        assert UrlAt(t1.rows[i]) == Some(url);
        assert forall j :: 0 <= j < i ==> t1.rows[j] == t.rows[j];
        FirstMatchUnique(t1.rows, url, i);
      }
    } else {
      var n := |t.rows|;
      assert FirstUrlMatch(t1.rows, url) == Some(n) by {
        assert UrlAt(t1.rows[n]) == Some(url);
        assert forall j :: 0 <= j < n ==> t1.rows[j] == t.rows[j];
        FirstMatchUnique(t1.rows, url, n);
      }
      assert Upsert(t1, b).rows[n] == RowFromDict(Schema, NewRowDict(b));
    }
  }

  /** Upserting the same record twice is upserting it once. */
  lemma UpsertIdempotent(t: Table, rec: Record)
    requires WellFormed(t)
    ensures Upsert(Upsert(t, rec), rec) == Upsert(t, rec)
  {
    UpsertLastWriteWins(t, rec, rec);
  }

  /** The first matching row is the one the contract of `FirstUrlMatch`
      describes. */
  lemma FirstMatchUnique(rows: seq<seq<Cell>>, url: string, i: nat)
    requires i < |rows| && UrlAt(rows[i]) == Some(url)
    requires forall j :: 0 <= j < i ==> UrlAt(rows[j]) != Some(url)
    ensures FirstUrlMatch(rows, url) == Some(i)
  {
    var r := FirstUrlMatch(rows, url);
    assert HasUrl(rows, url);
  }

  /** A workbook already holding a row for `https://x/1` (numbered 7, price
      `$5`) receives a new price `$6` for that URL: the update as written
      leaves the stale row in place, the intended one replaces its data and
      keeps its number. */
  lemma AsWrittenKeepsStaleRow()
    ensures
      var url := "https://x/1";
      var stale := [Some("7"), Some(url), Some("Widget"), Some("$5")] + seq(12, _ => None);
      var t := Table(Schema, [stale]);
      var x := Extraction.Product(Some("Widget"), Some("$6"), None, None, [], [],
                                     None, None, None, None, None, None, None);
      var rec := Record(url, x, "New");
      && UpdateExcelAsWritten(Present(t), rec, true) == Present(t)
      && UpdateExcel(Present(t), rec, true) == Present(Table(Schema, [[Some("7")] + DataCells(rec)]))
      && DataCells(rec)[2] == Some("$6")
  {
    var url := "https://x/1";
    var stale := [Some("7"), Some(url), Some("Widget"), Some("$5")] + seq(12, _ => None);
    var t := Table(Schema, [stale]);
    assert UrlAt(stale) == Some(url);
    FirstMatchUnique(t.rows, url, 0);
  }
}
