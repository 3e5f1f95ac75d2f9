/**
 * The spreadsheet importer: from the sheet's rows of cells (the first row
 * holds the headers) to new project tasks. Each of five fields takes the first
 * column whose header is one of its synonyms; an optional texture column is
 * folded into the description; rows with nothing in their four task fields
 * are dropped.
 */
module SheetImport {
  import opened Base
  import opened Types
  import opened Text
  import opened Seqs

  /**
   * A cell as the sheet reader delivers it. Number cells hold integers: fractional
   * numbers, dates, magnitudes from 10^21 up (which JavaScript prints in exponent
   * form) and the rounding of integers beyond 2^53 to doubles are not modelled.
   */
  datatype Cell = Blank | TextCell(text: string) | NumberCell(number: int) | BoolCell(flag: bool)

  /** JavaScript truthiness of a cell value. */
  predicate IsTruthy(c: Cell)
  {
    match c
    case Blank => false
    case TextCell(s) => s != ""
    case NumberCell(n) => n != 0
    case BoolCell(b) => b
  }

  /** The number a string of decimal digits denotes, most significant digit first. */
  function DigitsValue(s: string): nat
    requires forall i :: 0 <= i < |s| ==> '0' <= s[i] <= '9'
  {
    if s == [] then 0 else 10 * DigitsValue(s[..|s| - 1]) + (s[|s| - 1] as int - '0' as int)
  }

  /** Decimal digits of a natural number, most significant first, without leading zeros. */
  function DecimalDigits(n: nat): (s: string)
    ensures |s| >= 1
    ensures forall i :: 0 <= i < |s| ==> '0' <= s[i] <= '9'
    ensures DigitsValue(s) == n
    ensures s[0] != '0' || s == "0"
  {
    var d := ('0' as int + n % 10) as char;
    if n < 10 then [d]
    else
      var high := DecimalDigits(n / 10);
      var s := high + [d];
      assert s[..|s| - 1] == high;
      s
  }

  /** `String(x || "")`: the text of a cell, "" for a missing or falsy one; a number prints in plain decimal. */
  function CellText(c: Cell): (s: string)
    ensures s != "" <==> IsTruthy(c)
  {
    match c
    case Blank => ""
    case TextCell(s) => s
    case NumberCell(n) => if n == 0 then "" else if n < 0 then "-" + DecimalDigits(-n) else DecimalDigits(n)
    case BoolCell(b) => if b then "true" else ""
  }

  /** `row[i]`: a position past the end of a short row reads as a missing cell. */
  function CellAt(row: seq<Cell>, i: int): Cell
  {
    if 0 <= i < |row| then row[i] else Blank
  }

  const ReferenceHeaders: seq<string> := ["référence", "reference", "ref", "réf"]
  const NameHeaders: seq<string> := ["désignation", "designation", "nom", "produit", "name"]
  const LocationHeaders: seq<string> := ["lieu", "localisation", "location", "emplacement"]
  const DescriptionHeaders: seq<string> := ["description", "détails", "details", "quantité", "qté"]
  const TextureHeaders: seq<string> := ["texture", "visuel", "image"]

  /** A header cell as it is compared with the synonyms: trimmed, then lower-cased. */
  function HeaderKey(c: Cell): string
  {
    ToLower(Trim(CellText(c)))
  }

  function HeaderKeys(headerRow: seq<Cell>): (keys: seq<string>)
    ensures |keys| == |headerRow|
  {
    seq(|headerRow|, i requires 0 <= i < |headerRow| => HeaderKey(headerRow[i]))
  }

  /** `findIdx`: the first header that is one of the synonyms, or -1. */
  function FindIdx(headers: seq<string>, targets: seq<string>): (k: int)
    ensures -1 <= k < |headers|
    ensures k >= 0 ==> headers[k] in targets
    ensures forall j :: 0 <= j < |headers| && (k < 0 || j < k) ==> headers[j] !in targets
  {
    if headers == [] then -1
    else if headers[0] in targets then 0
    else
      var k := FindIdx(headers[1..], targets);
      if k < 0 then -1 else k + 1
  }

  /** The resolved column of each field, -1 when the sheet has none. */
  datatype Columns = Columns(reference: int, name: int, location: int, description: int, texture: int)

  /** `k` is the first column whose normalised header is one of `targets`, or -1 when there is none. */
  ghost predicate FirstSynonymColumn(headerRow: seq<Cell>, k: int, targets: seq<string>)
  {
    && -1 <= k < |headerRow|
    && (k >= 0 ==> HeaderKey(headerRow[k]) in targets)
    && forall j :: 0 <= j < |headerRow| && (k < 0 || j < k) ==> HeaderKey(headerRow[j]) !in targets
  }

  /** Each field takes the first column headed by one of its own synonyms. */
  function ResolveColumns(headerRow: seq<Cell>): (cols: Columns)
    ensures FirstSynonymColumn(headerRow, cols.reference, ReferenceHeaders)
    ensures FirstSynonymColumn(headerRow, cols.name, NameHeaders)
    ensures FirstSynonymColumn(headerRow, cols.location, LocationHeaders)
    ensures FirstSynonymColumn(headerRow, cols.description, DescriptionHeaders)
    ensures FirstSynonymColumn(headerRow, cols.texture, TextureHeaders)
  {
    var headers := HeaderKeys(headerRow);
    FindIdxIsFirstSynonymColumn(headerRow, ReferenceHeaders);
    FindIdxIsFirstSynonymColumn(headerRow, NameHeaders);
    FindIdxIsFirstSynonymColumn(headerRow, LocationHeaders);
    FindIdxIsFirstSynonymColumn(headerRow, DescriptionHeaders);
    FindIdxIsFirstSynonymColumn(headerRow, TextureHeaders);
    Columns(
      FindIdx(headers, ReferenceHeaders),
      FindIdx(headers, NameHeaders),
      FindIdx(headers, LocationHeaders),
      FindIdx(headers, DescriptionHeaders),
      FindIdx(headers, TextureHeaders))
  }

  lemma FindIdxIsFirstSynonymColumn(headerRow: seq<Cell>, targets: seq<string>)
    ensures FirstSynonymColumn(headerRow, FindIdx(HeaderKeys(headerRow), targets), targets)
  {
    var headers := HeaderKeys(headerRow);
    assert forall j :: 0 <= j < |headerRow| ==> headers[j] == HeaderKey(headerRow[j]);
  }

  /** The trimmed text of a resolved column; "" for an unresolved one. */
  function FieldText(row: seq<Cell>, idx: int): (s: string)
    ensures idx == -1 ==> s == ""
    ensures idx != -1 ==> s == Trim(CellText(CellAt(row, idx)))
    ensures IsTrimmed(s)
  {
    if idx != -1 then
      TrimShape(CellText(CellAt(row, idx)));
      Trim(CellText(CellAt(row, idx)))
    else
      ""
  }

  /** In a resolved column, the field is empty exactly when the cell is missing or falsy, or its text is all white space. */
  lemma FieldTextEmpty(row: seq<Cell>, idx: int)
    requires idx != -1
    ensures FieldText(row, idx) == "" <==>
      !IsTruthy(CellAt(row, idx)) || forall i :: 0 <= i < |CellText(CellAt(row, idx))| ==> IsSpace(CellText(CellAt(row, idx))[i])
  {
    TrimEmptyIffAllSpace(CellText(CellAt(row, idx)));
  }

  /** The description after the texture step: a non-empty texture cell is appended as "Texture: <value>". */
  function WithTexture(desc: string, row: seq<Cell>, texture: int): (r: string)
    ensures desc <= r
    ensures r == desc <==> texture == -1 || !IsTruthy(CellAt(row, texture))
  {
    if texture != -1 && IsTruthy(CellAt(row, texture)) then
      desc + (if desc != "" then " | " else "") + "Texture: " + CellText(CellAt(row, texture))
    else
      desc
  }

  /** The task built from one data row. */
  function RowToTask(row: seq<Cell>, cols: Columns, id: string): (t: ProjectTask)
    ensures t.id == id
    ensures t.reference == FieldText(row, cols.reference)
    ensures t.name == FieldText(row, cols.name)
    ensures t.location == FieldText(row, cols.location)
    ensures t.description == WithTexture(FieldText(row, cols.description), row, cols.texture)
    ensures IsTrimmed(t.reference) && IsTrimmed(t.name) && IsTrimmed(t.location)
  {
    ProjectTask(
      id,
      FieldText(row, cols.reference),
      FieldText(row, cols.name),
      FieldText(row, cols.location),
      WithTexture(FieldText(row, cols.description), row, cols.texture))
  }

  /** A task is kept when one of its four fields is non-empty. */
  predicate HasContent(t: ProjectTask)
  {
    t.reference != "" || t.name != "" || t.location != "" || t.description != ""
  }

  predicate IsBlank(t: ProjectTask)
  {
    !HasContent(t)
  }

  /** Every data row mapped to a task, with the id generated for it. */
  function RowTasks(rows: seq<seq<Cell>>, cols: Columns, ids: nat -> string): (ts: seq<ProjectTask>)
    ensures |ts| == |rows|
  {
    seq(|rows|, i requires 0 <= i < |rows| => RowToTask(rows[i], cols, ids(i)))
  }

  /** The tasks an import adds: the row tasks that have content, in row order. */
  function ImportedTasks(rows: seq<seq<Cell>>, cols: Columns, ids: nat -> string): (ts: seq<ProjectTask>)
    ensures |ts| <= |rows|
    ensures forall k :: 0 <= k < |ts| ==> HasContent(ts[k])
  {
    Filter(RowTasks(rows, cols, ids), HasContent)
  }

  datatype SheetError =
    | EmptyFile        // "Le fichier est vide."
    | NoMatchingRows   // no row survived: the headers were probably not recognised

  /**
   * The importer's decision for a sheet: the tasks to append, or the reason
   * nothing is appended. `ids(i)` is the id generated for data row `i`.
   */
  function ParseSheet(data: seq<seq<Cell>>, ids: nat -> string): (r: Result<seq<ProjectTask>, SheetError>)
    ensures r == Err(EmptyFile) <==> data == []
    ensures data != [] ==>
      (r == Err(NoMatchingRows) <==> forall k :: 0 <= k < |data| - 1 ==> IsBlank(RowToTask(data[k + 1], ResolveColumns(data[0]), ids(k))))
    ensures r.Ok? ==> r.value == ImportedTasks(data[1..], ResolveColumns(data[0]), ids)
    ensures r.Ok? ==> 0 < |r.value| <= |data| - 1
    ensures r.Ok? ==> forall k :: 0 <= k < |r.value| ==> HasContent(r.value[k])
  {
    if |data| < 1 then Err(EmptyFile)
    else
      var tasks := ImportedTasks(data[1..], ResolveColumns(data[0]), ids);
      NothingImportedIffAllBlank(data[1..], ResolveColumns(data[0]), ids);
      if |tasks| > 0 then Ok(tasks) else Err(NoMatchingRows)
  }

  /** Nothing is imported exactly when every data row is blank. */
  lemma NothingImportedIffAllBlank(rows: seq<seq<Cell>>, cols: Columns, ids: nat -> string)
    ensures ImportedTasks(rows, cols, ids) == [] <==> forall k :: 0 <= k < |rows| ==> IsBlank(RowToTask(rows[k], cols, ids(k)))
  {
    var ts := RowTasks(rows, cols, ids);
    FilterEmpty(ts, HasContent);
    assert forall k :: 0 <= k < |rows| ==> ts[k] == RowToTask(rows[k], cols, ids(k));
  }


  /** With a texture cell, the description becomes "Texture: v", or "desc | Texture: v" after a non-empty one; the value is not trimmed. */
  lemma TextureFoldedIntoDescription(desc: string, row: seq<Cell>, texture: int)
    requires texture != -1 && IsTruthy(CellAt(row, texture))
    ensures var v := CellText(CellAt(row, texture));
      WithTexture(desc, row, texture) == if desc == "" then "Texture: " + v else desc + " | Texture: " + v
  {
    var v := CellText(CellAt(row, texture));
    if desc != "" {
      SeparatorJoin(desc, v);
    } else {
      assert desc + "" + "Texture: " + v == "Texture: " + v;
    }
  }

  lemma SeparatorJoin(d: string, v: string)
    ensures d + " | " + "Texture: " + v == d + " | Texture: " + v
  {
    assert " | " + "Texture: " == " | Texture: ";
  }

  /** A row with only a texture value is kept, with description "Texture: <value>". */
  lemma TextureOnlyRowKept(row: seq<Cell>, cols: Columns, id: string)
    requires FieldText(row, cols.reference) == "" && FieldText(row, cols.name) == ""
    requires FieldText(row, cols.location) == "" && FieldText(row, cols.description) == ""
    requires cols.texture != -1 && IsTruthy(CellAt(row, cols.texture))
    ensures HasContent(RowToTask(row, cols, id))
    ensures RowToTask(row, cols, id).description == "Texture: " + CellText(CellAt(row, cols.texture))
  {
    TextureFoldedIntoDescription("", row, cols.texture);
  }

  /** A row's task is imported exactly when it has content. */
  lemma ImportKeepsExactlyRowsWithContent(rows: seq<seq<Cell>>, cols: Columns, ids: nat -> string, i: nat)
    requires i < |rows|
    ensures RowToTask(rows[i], cols, ids(i)) in ImportedTasks(rows, cols, ids)
            <==> HasContent(RowToTask(rows[i], cols, ids(i)))
  {
    var ts := RowTasks(rows, cols, ids);
    assert ts[i] == RowToTask(rows[i], cols, ids(i));
    FilterMembership(ts, HasContent, ts[i]);
  }

  /** Every imported task comes from a data row, and the import keeps row order. */
  lemma ImportPreservesRowOrder(rows: seq<seq<Cell>>, cols: Columns, ids: nat -> string)
    ensures IsSubsequence(ImportedTasks(rows, cols, ids), RowTasks(rows, cols, ids))
    ensures forall t :: t in ImportedTasks(rows, cols, ids) ==> t in RowTasks(rows, cols, ids)
  {
    FilterIsSubsequence(RowTasks(rows, cols, ids), HasContent);
  }

  /** Of N data rows of which M are blank, exactly N - M tasks are imported. */
  lemma ImportCount(rows: seq<seq<Cell>>, cols: Columns, ids: nat -> string)
    ensures |ImportedTasks(rows, cols, ids)| == |rows| - Count(RowTasks(rows, cols, ids), IsBlank)
  {
    FilterLength(RowTasks(rows, cols, ids), HasContent);
    CountPartition(RowTasks(rows, cols, ids), HasContent, IsBlank);
  }

  /** The header row never becomes a task: every imported task is built from a later row. */
  lemma HeaderRowNeverImported(data: seq<seq<Cell>>, ids: nat -> string)
    ensures var r := ParseSheet(data, ids);
      r.Ok? ==> forall t :: t in r.value ==>
        exists i :: 1 <= i < |data| && t == RowToTask(data[i], ResolveColumns(data[0]), ids(i - 1))
  {
    var r := ParseSheet(data, ids);
    if r.Ok? {
      var cols := ResolveColumns(data[0]);
      assert r.value == ImportedTasks(data[1..], cols, ids);
      ImportPreservesRowOrder(data[1..], cols, ids);
      forall t | t in r.value
        ensures exists i :: 1 <= i < |data| && t == RowToTask(data[i], cols, ids(i - 1))
      {
        DataRowOrigin(data, cols, ids, t);
      }
    }
  }

  lemma DataRowOrigin(data: seq<seq<Cell>>, cols: Columns, ids: nat -> string, t: ProjectTask)
    requires 1 <= |data|
    requires t in RowTasks(data[1..], cols, ids)
    ensures exists i :: 1 <= i < |data| && t == RowToTask(data[i], cols, ids(i - 1))
  {
    var ts := RowTasks(data[1..], cols, ids);
    var j :| 0 <= j < |ts| && ts[j] == t;
    assert data[1..][j] == data[j + 1];
    assert t == RowToTask(data[j + 1], cols, ids(j));
  }
}

