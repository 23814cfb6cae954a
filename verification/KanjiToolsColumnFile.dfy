/**
 * The older column-file reader. Columns are declared as a list that must be
 * non-empty and free of repeated names (a usage error, not a data error);
 * reaching the end of the data simply answers false, as often as asked.
 *
 * The file is given as its lines; `next` is the index of the next line the
 * reader would return.
 */
module KanjiToolsColumnFile {
  import opened Wrappers
  import opened Strings
  import opened Columns
  import opened ColumnLayout

  /** The two exception kinds the constructor can raise. */
  datatype Failure =
    | IllegalArgument(message: string)  // a mistake in the declared columns
    | Domain(message: string)           // a problem with the file's contents

  /** The names of a list of columns, in order. */
  function NameList(columns: seq<Column>): (names: seq<string>)
    ensures |names| == |columns|
    ensures forall i :: 0 <= i < |columns| ==> names[i] == columns[i].name
  {
    seq(|columns|, i requires 0 <= i < |columns| => columns[i].name)
  }

  /**
   * The column check at the start of the constructor: refuses an empty list,
   * then walks the list and refuses the first column whose name was already
   * seen; otherwise gives the columns by name.
   */
  method CheckColumns(columns: seq<Column>) returns (r: Result<map<string, Column>, Failure>)
    ensures columns == [] ==> r == Err(IllegalArgument("must specify at least one column"))
    ensures r.Ok? <==> columns != [] && Distinct(NameList(columns))
    ensures r.Ok? ==> r.value.Keys == Elems(NameList(columns))
    ensures r.Ok? ==> forall i :: 0 <= i < |columns| ==> r.value[columns[i].name] == columns[i]
    ensures columns != [] && r.Err? ==> exists j ::
      && 0 <= j < |columns|
      && Distinct(NameList(columns)[..j])
      && columns[j].name in NameList(columns)[..j]
      && r == Err(IllegalArgument("duplicate column '" + columns[j].name + "'"))
  {
    if columns == [] {
      return Err(IllegalArgument("must specify at least one column"));
    }
    ghost var names := NameList(columns);
    var colNames: map<string, Column> := map[];
    var i := 0;
    while i < |columns|
      invariant 0 <= i <= |columns|
      invariant Distinct(names[..i])
      invariant colNames.Keys == Elems(names[..i])
      invariant forall k :: 0 <= k < i ==> colNames[columns[k].name] == columns[k]
    {
      var c := columns[i];
      if c.name in colNames {
        assert c.name in names[..i];
        return Err(IllegalArgument("duplicate column '" + c.name + "'"));
      }
      colNames := colNames[c.name := c];
      assert names[..i + 1] == names[..i] + [c.name];
      i := i + 1;
    }
    assert names[..i] == names;
    return Ok(colNames);
  }

  class ColumnFile {
    const fileName: string
    const delimiter: string
    /** the file's lines, header first (the source reads them one at a time) */
    const lines: seq<string>
    /** values of the current row, in header order */
    const rowValues: array<string>
    /** column number -> position in the header, -1 when not in this file */
    const columnToPosition: array<int>
    /** the declared columns by name */
    ghost const declared: map<string, Column>
    /** the table's contents, fixed once the header has been read */
    ghost const positions: seq<int>
    /** index of the next line to read */
    var next: nat
    var currentRow: nat

    /** The header tokens. */
    ghost function Header(): seq<string>
      requires delimiter != [] && |lines| >= 1
    {
      SplitDroppingTrailing(lines[0], delimiter)
    }

    /**
     * The header named every declared column once, and the table sends each
     * declared column to its header position and every other number to -1.
     */
    ghost predicate HeaderPlaced() {
      && delimiter != [] && |lines| >= 1
      && NameTable(declared, |positions|)
      && Distinct(Header()) && Elems(Header()) == declared.Keys
      && Positioned(positions, Header(), declared)
      && (forall id :: 0 <= id < |positions| ==> -1 <= positions[id] < |declared|)
    }

    ghost predicate Valid()
      reads this, rowValues, columnToPosition
    {
      && HeaderPlaced()
      && columnToPosition[..] == positions
      && next == currentRow + 1 <= |lines|
      && rowValues.Length == |declared|
    }

    /** The fields of a file whose header has been checked and whose table is filled. */
    constructor (fileName: string, delimiter: string, lines: seq<string>, declared: map<string, Column>,
                 rowValues: array<string>, columnToPosition: array<int>)
      requires delimiter != [] && |lines| >= 1
      requires rowValues.Length == |declared|
      requires NameTable(declared, columnToPosition.Length)
      requires HeaderProblem(SplitDroppingTrailing(lines[0], delimiter), declared.Keys) == None
      requires Positioned(columnToPosition[..], SplitDroppingTrailing(lines[0], delimiter), declared)
      ensures Valid()
      ensures this.fileName == fileName && this.delimiter == delimiter && this.lines == lines
      ensures this.declared == declared && this.rowValues == rowValues && this.columnToPosition == columnToPosition
      ensures next == 1 && currentRow == 0
    {
      this.fileName := fileName;
      this.delimiter := delimiter;
      this.lines := lines;
      this.declared := declared;
      this.rowValues := rowValues;
      this.columnToPosition := columnToPosition;
      this.positions := columnToPosition[..];
      next := 1;
      currentRow := 0;
      new;
      HeaderAccepted(SplitDroppingTrailing(lines[0], delimiter), declared.Keys);
      AcceptedPositions(positions, SplitDroppingTrailing(lines[0], delimiter), declared);
    }

    /**
     * Opens a file: the declared list is checked first (usage errors), then
     * the file must have a header line naming every declared column exactly
     * once and nothing else (data errors).
     */
    static method Open(reg: Registry, fileName: string, lines: seq<string>, columns: seq<Column>, delimiter: string)
      returns (r: Result<ColumnFile, Failure>)
      requires reg.Valid() && forall i :: 0 <= i < |columns| ==> reg.Registered(columns[i])
      requires delimiter != []
      ensures columns == [] ==> r == Err(IllegalArgument("must specify at least one column"))
      ensures columns != [] && !Distinct(NameList(columns)) ==> exists j ::
        && 0 <= j < |columns|
        && Distinct(NameList(columns)[..j])
        && columns[j].name in NameList(columns)[..j]
        && r == Err(IllegalArgument("duplicate column '" + columns[j].name + "'"))
      ensures columns != [] && Distinct(NameList(columns)) && lines == [] ==>
        r == Err(Domain(Located("missing header row", fileName, 0)))
      ensures columns != [] && Distinct(NameList(columns)) && lines != [] ==>
        var problem := HeaderProblem(SplitDroppingTrailing(lines[0], delimiter), Elems(NameList(columns)));
        && (problem.Some? ==> r == Err(Domain(Located(problem.value, fileName, 0))))
        && (problem.None? ==> r.Ok?)
      ensures r.Ok? ==>
        && fresh(r.value) && fresh(r.value.rowValues) && fresh(r.value.columnToPosition)
        && r.value.Valid()
        && r.value.fileName == fileName && r.value.lines == lines && r.value.delimiter == delimiter
        && r.value.currentRow == 0
        && r.value.declared.Keys == Elems(NameList(columns))
        && (forall i :: 0 <= i < |columns| ==> r.value.declared[columns[i].name] == columns[i])
        && r.value.NumColumns() == |columns|
        && r.value.columnToPosition.Length == reg.Size()
    {
      var checked := CheckColumns(columns);
      if checked.Err? {
        return Err(checked.error);
      }
      var colNames := checked.value;
      DistinctCardinality(NameList(columns));
      assert |colNames| == |colNames.Keys| == |columns|;
      if lines == [] {
        return Err(Domain(Located("missing header row", fileName, 0)));
      }
      r := OpenHeader(fileName, lines, colNames, reg.Size(), delimiter);
    }

    /**
     * The header stage of opening: the row buffer holds one value per
     * declared column, the table one entry per registered number, and the
     * header line fills the table or is refused.
     */
    static method OpenHeader(fileName: string, lines: seq<string>, cols: map<string, Column>, size: nat,
                             delimiter: string)
      returns (r: Result<ColumnFile, Failure>)
      requires delimiter != [] && lines != [] && NameTable(cols, size)
      ensures
        var problem := HeaderProblem(SplitDroppingTrailing(lines[0], delimiter), cols.Keys);
        && (problem.Some? ==> r == Err(Domain(Located(problem.value, fileName, 0))))
        && (problem.None? ==> r.Ok?)
      ensures r.Ok? ==>
        && fresh(r.value) && fresh(r.value.rowValues) && fresh(r.value.columnToPosition)
        && r.value.Valid()
        && r.value.fileName == fileName && r.value.lines == lines && r.value.delimiter == delimiter
        && r.value.currentRow == 0
        && r.value.declared == cols && r.value.columnToPosition.Length == size
    {
      var rowValues := new string[|cols|](_ => "");
      var columnToPosition := new int[size](_ => -1);
      var problem := ProcessHeaderRow(lines[0], delimiter, cols, columnToPosition);
      if problem.Some? {
        return Err(Domain(Located(problem.value, fileName, 0)));
      }
      var f := new ColumnFile(fileName, delimiter, lines, cols, rowValues, columnToPosition);
      return Ok(f);
    }

    /** `numColumns`: the number of declared columns. */
    function NumColumns(): (n: nat)
      reads this, rowValues, columnToPosition
      requires Valid()
      ensures n == |declared|
    {
      rowValues.Length
    }

    /** `error`: the message located in this file and, once a row has been read, at the current row. */
    function ErrorMsg(msg: string): string
      reads this
    {
      Located(msg, fileName, currentRow)
    }

    /**
     * `nextRow`: at the end of the data answers false and changes nothing;
     * otherwise reads the next line as a row, counting it, and copies its
     * fields (empty ones at the end included) into the row buffer. A row of
     * the wrong width is reported after the fields that fit have been copied.
     */
    method NextRow() returns (r: Result<bool, string>)
      requires Valid()
      modifies this, rowValues
      ensures Valid()
      ensures old(next) == |lines| ==> r == Ok(false) && unchanged(this, rowValues)
      ensures old(next) < |lines| ==>
        var fields := Split(lines[old(next)], delimiter);
        && currentRow == old(currentRow) + 1 && next == old(next) + 1
        && rowValues[..] == Overlay(old(rowValues[..]), fields)
        && r == (match RowProblem(|fields|, rowValues.Length)
                 case None => Ok(true)
                 case Some(problem) => Err(ErrorMsg(problem)))
      ensures r == Ok(true) ==> rowValues[..] == Split(lines[currentRow], delimiter)
    {
      if next == |lines| {
        return Ok(false);
      }
      var row := lines[next];
      next := next + 1;
      currentRow := currentRow + 1;
      var problem := FillRow(Split(row, delimiter), rowValues);
      if problem.Some? {
        return Err(ErrorMsg(problem.value));
      }
      return Ok(true);
    }

    /**
     * `get`: the value of `column` in the current row. A declared column
     * gives the field under the header token that names it; any other
     * column is refused, as is any column before the first row.
     */
    function Get(column: Column): (r: Result<string, string>)
      reads this, rowValues, columnToPosition
      requires Valid()
      ensures currentRow == 0 ==> r == Err(ErrorMsg("'nextRow' must be called before calling 'get'"))
      ensures currentRow > 0 && column.name in declared && declared[column.name] == column ==>
        r == Ok(rowValues[IndexOf(Header(), column.name)])
      ensures currentRow > 0 && column.number >= columnToPosition.Length ==>
        r == Err(ErrorMsg("unrecognized column '" + column.name + "'"))
      ensures currentRow > 0 && column.number < columnToPosition.Length
              && (forall n :: n in declared ==> declared[n].number != column.number) ==>
        r == Err(ErrorMsg("invalid column '" + column.name + "'"))
    {
      LookupPlaced(fileName, currentRow, positions, Header(), declared, rowValues[..], column);
      Lookup(fileName, currentRow, columnToPosition[..], rowValues[..], column)
    }
  }

  /** Once the data has run out, asking again still answers false and changes nothing. */
  method ExhaustedStaysExhausted(f: ColumnFile) returns (first: Result<bool, string>, second: Result<bool, string>)
    requires f.Valid() && f.next == |f.lines|
    modifies f, f.rowValues
    ensures first == Ok(false) && second == Ok(false)
    ensures f.currentRow == old(f.currentRow) && f.rowValues[..] == old(f.rowValues[..])
  {
    first := f.NextRow();
    second := f.NextRow();
  }
}
