/**
 * The newer column-file reader: a delimiter-separated text file whose first
 * line names the columns. Columns are declared as a set; the reader closes
 * itself when the data runs out and refuses to read after that, and it
 * converts values to unsigned ints and booleans.
 *
 * The file is given as its lines; `next` is the index of the next line the
 * reader would return.
 */
module KtColumnFile {
  import opened Wrappers
  import opened Strings
  import opened Columns
  import opened ColumnLayout

  /** Passed as `max` to `GetUnsignedInt` to ask for no upper bound. */
  const NO_MAX_VALUE: int := -1

  const TWO_TO_31: int := 0x8000_0000
  const TWO_TO_32: int := 0x1_0000_0000

  /**
   * `Integer.parseUnsignedInt`: an optional '+' then decimal digits, worth
   * less than 2^32; the 32 bits are returned as a Java `int`, so values of
   * 2^31 and above come back negative.
   */
  function ParseUnsignedInt(s: string): (r: Option<int>)
    ensures r.Some? ==> -TWO_TO_31 <= r.value < TWO_TO_31
    ensures r.Some? ==> |s| > 0 && IsDigit(s[|s| - 1])
    ensures |s| > 0 && s[0] == '-' ==> r.None?
  {
    var digits := if |s| > 0 && s[0] == '+' then s[1..] else s;
    match ParseUnsigned(digits)
    case None => None
    case Some(n) =>
      if n < TWO_TO_32 then Some(if n < TWO_TO_31 then n else n - TWO_TO_32) else None
  }

  /** Every non-negative `int`, printed in decimal, parses back to itself. */
  lemma ParseUnsignedIntPrinted(n: nat)
    requires n < TWO_TO_31
    ensures ParseUnsignedInt(NatToString(n)) == Some(n)
    ensures ParseUnsignedInt("+" + NatToString(n)) == Some(n)
  {
    var s := NatToString(n);
    ParseNatToString(n);
    assert IsDigit(s[0]);
    assert ("+" + s)[1..] == s;
  }

  /** Values from 2^31 to 2^32 - 1 wrap round to negative ints. */
  lemma ParseUnsignedIntWraps(n: nat)
    requires TWO_TO_31 <= n < TWO_TO_32
    ensures ParseUnsignedInt(NatToString(n)) == Some(n - TWO_TO_32)
    ensures ParseUnsignedInt(NatToString(n)).value < 0
  {
    var s := NatToString(n);
    ParseNatToString(n);
    assert IsDigit(s[0]);
  }

  /** `s` is `n` in decimal, after an optional '+' and `zeros` leading zeros. */
  predicate PaddedPrint(s: string, plus: bool, zeros: nat, n: nat) {
    s == (if plus then "+" else "") + (ZeroPad(zeros) + NatToString(n))
  }

  /** A run of digits, with or without a '+' in front, parses as the digits do. */
  lemma ParseUnsignedIntSigned(plus: bool, digits: string)
    requires digits != [] && AllDigits(digits)
    ensures ParseUnsignedInt((if plus then "+" else "") + digits) == ParseUnsignedInt(digits)
  {
    assert IsDigit(digits[0]);
    if plus {
      var s := "+" + digits;
      assert s[0] == '+' && s[1..] == digits;
    } else {
      assert "" + digits == digits;
    }
  }

  /** A run of digits worth less than 2^32 parses to its value's 32 bits as an `int`. */
  lemma ParseUnsignedIntDigits(digits: string)
    requires digits != [] && AllDigits(digits) && DigitsValue(digits) < TWO_TO_32
    ensures
      var n := DigitsValue(digits);
      ParseUnsignedInt(digits) == Some(if n < TWO_TO_31 then n else n - TWO_TO_32)
  {
    assert IsDigit(digits[0]);
  }

  /** A padded printing of a value below 2^32 parses to that value's 32 bits as an `int`. */
  lemma ParseUnsignedIntPadded(plus: bool, zeros: nat, n: nat)
    requires n < TWO_TO_32
    ensures ParseUnsignedInt((if plus then "+" else "") + (ZeroPad(zeros) + NatToString(n)))
            == Some(if n < TWO_TO_31 then n else n - TWO_TO_32)
  {
    var sign := if plus then "+" else "";
    var digits := ZeroPad(zeros) + NatToString(n);
    assert DigitsValue(digits) == n by {
      ParseNatToString(n);
      ZeroPadValue(zeros, NatToString(n));
    }
    ParseUnsignedIntSigned(plus, digits);
    ParseUnsignedIntDigits(digits);
  }

  /** What `parseUnsignedInt` accepts is a padded printing of a value below 2^32. */
  lemma AcceptedIsPadded(s: string)
    requires ParseUnsignedInt(s).Some?
    ensures exists plus: bool, zeros: nat, n: nat :: PaddedPrint(s, plus, zeros, n) && n < TWO_TO_32
  {
    var plus := |s| > 0 && s[0] == '+';
    var digits := if plus then s[1..] else s;
    assert ParseUnsigned(digits).Some? && ParseUnsigned(digits).value < TWO_TO_32;
    assert digits != [] && AllDigits(digits);
    PaddedDigits(digits);
    var zeros, n := LeadingZeros(digits), DigitsValue(digits);
    assert s == (if plus then "+" else "") + digits by {
      if plus {
        assert s == [s[0]] + s[1..];
      }
    }
    assert PaddedPrint(s, plus, zeros, n) && n < TWO_TO_32;
  }

  /**
   * `parseUnsignedInt` accepts exactly the values below 2^32, printed in
   * decimal with an optional '+' and any number of leading zeros.
   */
  lemma ParseUnsignedIntAccepts(s: string)
    ensures ParseUnsignedInt(s).Some? <==>
      exists plus: bool, zeros: nat, n: nat :: PaddedPrint(s, plus, zeros, n) && n < TWO_TO_32
  {
    if ParseUnsignedInt(s).Some? {
      AcceptedIsPadded(s);
    }
    if exists plus: bool, zeros: nat, n: nat :: PaddedPrint(s, plus, zeros, n) && n < TWO_TO_32 {
      var plus: bool, zeros: nat, n: nat :| PaddedPrint(s, plus, zeros, n) && n < TWO_TO_32;
      ParseUnsignedIntPadded(plus, zeros, n);
    }
  }

  /** The boolean spellings `getBoolean` accepts. */
  function BooleanValue(s: string): (r: Option<bool>)
    ensures r == Some(true) <==> s in {"Y", "T"}
    ensures r == Some(false) <==> s in {"N", "F", ""}
  {
    if s == "Y" || s == "T" then Some(true)
    else if s == "N" || s == "F" || s == "" then Some(false)
    else None
  }

  class ColumnFile {
    const fileName: string
    const delimiter: string
    /** the file's lines, header first (the source reads them one at a time) */
    const lines: seq<string>
    /** values of the current row, in header order */
    const rowValues: array<string>
    /** column number -> position in the header, -1 when not in this file */
    const columnToPosition: array<int>
    /** the declared columns by name */
    ghost const declared: map<string, Column>
    /** the table's contents, fixed once the header has been read */
    ghost const positions: seq<int>
    /** index of the next line to read */
    var next: nat
    var currentRow: nat
    var closed: bool
    /** how many times the underlying reader has been closed */
    ghost var closeCount: nat

    /** The header tokens. */
    ghost function Header(): seq<string>
      requires delimiter != [] && |lines| >= 1
    {
      SplitDroppingTrailing(lines[0], delimiter)
    }

    /**
     * The header named every declared column once, and the table sends each
     * declared column to its header position and every other number to -1.
     */
    ghost predicate HeaderPlaced() {
      && delimiter != [] && |lines| >= 1
      && NameTable(declared, |positions|)
      && Distinct(Header()) && Elems(Header()) == declared.Keys
      && Positioned(positions, Header(), declared)
      && (forall id :: 0 <= id < |positions| ==> -1 <= positions[id] < |declared|)
    }

    ghost predicate Valid()
      reads this, rowValues, columnToPosition
    {
      && HeaderPlaced()
      && columnToPosition[..] == positions
      && next == currentRow + 1 <= |lines|
      && (closed ==> next == |lines|)
      && closeCount == (if closed then 1 else 0)
      && rowValues.Length == |declared|
    }

    /** The fields of a file whose header has been checked and whose table is filled. */
    constructor (fileName: string, delimiter: string, lines: seq<string>, declared: map<string, Column>,
                 rowValues: array<string>, columnToPosition: array<int>)
      requires delimiter != [] && |lines| >= 1
      requires rowValues.Length == |declared|
      requires NameTable(declared, columnToPosition.Length)
      requires HeaderProblem(SplitDroppingTrailing(lines[0], delimiter), declared.Keys) == None
      requires Positioned(columnToPosition[..], SplitDroppingTrailing(lines[0], delimiter), declared)
      ensures Valid()
      ensures this.fileName == fileName && this.delimiter == delimiter && this.lines == lines
      ensures this.declared == declared && this.rowValues == rowValues && this.columnToPosition == columnToPosition
      ensures next == 1 && currentRow == 0 && !closed && closeCount == 0
    {
      this.fileName := fileName;
      this.delimiter := delimiter;
      this.lines := lines;
      this.declared := declared;
      this.rowValues := rowValues;
      this.columnToPosition := columnToPosition;
      this.positions := columnToPosition[..];
      next := 1;
      currentRow := 0;
      closed := false;
      closeCount := 0;
      new;
      HeaderAccepted(SplitDroppingTrailing(lines[0], delimiter), declared.Keys);
      AcceptedPositions(positions, SplitDroppingTrailing(lines[0], delimiter), declared);
    }

    /**
     * Opens a file: at least one column must be declared, the file must have
     * a header line, and the header must name every declared column exactly
     * once and nothing else. `columnToPosition` is as long as the registry
     * was when the file was opened.
     */
    static method Open(reg: Registry, fileName: string, lines: seq<string>, columns: set<Column>, delimiter: string)
      returns (r: Result<ColumnFile, string>)
      requires reg.Valid() && forall c :: c in columns ==> reg.Registered(c)
      requires delimiter != []
      ensures columns == {} ==> r == Err("must specify at least one column")
      ensures columns != {} && lines == [] ==> r == Err(Located("missing header row", fileName, 0))
      ensures columns != {} && lines != [] ==>
        var problem := HeaderProblem(SplitDroppingTrailing(lines[0], delimiter), NamesOf(columns));
        && (problem.Some? ==> r == Err(Located(problem.value, fileName, 0)))
        && (problem.None? ==> r.Ok?)
      ensures r.Ok? ==>
        && fresh(r.value) && fresh(r.value.rowValues) && fresh(r.value.columnToPosition)
        && r.value.Valid()
        && r.value.fileName == fileName && r.value.lines == lines && r.value.delimiter == delimiter
        && r.value.currentRow == 0 && !r.value.closed
        && r.value.declared.Keys == NamesOf(columns)
        && (forall c :: c in columns ==> r.value.declared[c.name] == c)
        && r.value.NumColumns() == |columns|
        && r.value.columnToPosition.Length == reg.Size()
    {
      if columns == {} {
        return Err("must specify at least one column");
      }
      RegisteredUnique(reg, columns);
      var cols := ByName(columns);
      if lines == [] {
        return Err(Located("missing header row", fileName, 0));
      }
      r := OpenHeader(fileName, lines, cols, reg.Size(), delimiter);
    }

    /**
     * The header stage of opening: the row buffer holds one value per
     * declared column, the table one entry per registered number, and the
     * header line fills the table or is refused.
     */
    static method OpenHeader(fileName: string, lines: seq<string>, cols: map<string, Column>, size: nat,
                             delimiter: string)
      returns (r: Result<ColumnFile, string>)
      requires delimiter != [] && lines != [] && NameTable(cols, size)
      ensures
        var problem := HeaderProblem(SplitDroppingTrailing(lines[0], delimiter), cols.Keys);
        && (problem.Some? ==> r == Err(Located(problem.value, fileName, 0)))
        && (problem.None? ==> r.Ok?)
      ensures r.Ok? ==>
        && fresh(r.value) && fresh(r.value.rowValues) && fresh(r.value.columnToPosition)
        && r.value.Valid()
        && r.value.fileName == fileName && r.value.lines == lines && r.value.delimiter == delimiter
        && r.value.currentRow == 0 && !r.value.closed
        && r.value.declared == cols && r.value.columnToPosition.Length == size
    {
      var rowValues := new string[|cols|](_ => "");
      var columnToPosition := new int[size](_ => -1);
      var problem := ProcessHeaderRow(lines[0], delimiter, cols, columnToPosition);
      if problem.Some? {
        return Err(Located(problem.value, fileName, 0));
      }
      var f := new ColumnFile(fileName, delimiter, lines, cols, rowValues, columnToPosition);
      return Ok(f);
    }

    /** `numColumns`: the number of declared columns. */
    function NumColumns(): (n: nat)
      reads this, rowValues, columnToPosition
      requires Valid()
      ensures n == |declared|
    {
      rowValues.Length
    }

    /** `errorMsg`: the message located in this file and, once a row has been read, at the current row. */
    function ErrorMsg(msg: string): string
      reads this
    {
      Located(msg, fileName, currentRow)
    }

    /**
     * `nextRow`: fails once the file is closed; at the end of the data closes
     * the file and answers false; otherwise reads the next line as a row,
     * counting it, and copies its fields (empty ones at the end included) into
     * the row buffer. A row of the wrong width is reported after the fields
     * that fit have been copied.
     */
    method NextRow() returns (r: Result<bool, string>)
      requires Valid()
      modifies this, rowValues
      ensures Valid()
      ensures old(closed) ==>
        r == Err("file: " + fileName + "' has been closed") && unchanged(this, rowValues)
      ensures !old(closed) && old(next) == |lines| ==>
        && r == Ok(false) && closed
        && currentRow == old(currentRow) && next == old(next) && unchanged(rowValues)
      ensures !old(closed) && old(next) < |lines| ==>
        var fields := Split(lines[old(next)], delimiter);
        && !closed && currentRow == old(currentRow) + 1 && next == old(next) + 1
        && rowValues[..] == Overlay(old(rowValues[..]), fields)
        && r == (match RowProblem(|fields|, rowValues.Length)
                 case None => Ok(true)
                 case Some(problem) => Err(ErrorMsg(problem)))
      ensures r == Ok(true) ==> rowValues[..] == Split(lines[currentRow], delimiter)
      ensures closeCount == old(closeCount) + (if !old(closed) && old(next) == |lines| then 1 else 0)
    {
      if closed {
        return Err("file: " + fileName + "' has been closed");
      }
      r := ProcessNextRow();
      if r != Ok(false) {
        return;
      }
      closeCount := closeCount + 1;
      closed := true;
    }

    /**
     * `processNextRow`: answers false, changing nothing, when there is no
     * line left; otherwise counts the row and copies its fields (empty ones
     * at the end included) into the row buffer, reporting a row of the wrong
     * width after the fields that fit have been copied.
     */
    method ProcessNextRow() returns (r: Result<bool, string>)
      requires Valid() && !closed
      modifies this, rowValues
      ensures Valid() && !closed && closeCount == old(closeCount)
      ensures old(next) == |lines| ==> r == Ok(false) && unchanged(this, rowValues)
      ensures old(next) < |lines| ==>
        var fields := Split(lines[old(next)], delimiter);
        && currentRow == old(currentRow) + 1 && next == old(next) + 1
        && rowValues[..] == Overlay(old(rowValues[..]), fields)
        && r == (match RowProblem(|fields|, rowValues.Length)
                 case None => Ok(true)
                 case Some(problem) => Err(ErrorMsg(problem)))
      ensures r == Ok(true) ==> rowValues[..] == Split(lines[currentRow], delimiter)
    {
      if next == |lines| {
        return Ok(false);
      }
      var row := lines[next];
      next := next + 1;
      currentRow := currentRow + 1;
      var problem := FillRow(Split(row, delimiter), rowValues);
      if problem.Some? {
        return Err(ErrorMsg(problem.value));
      }
      return Ok(true);
    }

    /**
     * `get`: the value of `column` in the current row. A declared column
     * gives the field under the header token that names it; any other
     * column is refused, as is any column before the first row.
     */
    function Get(column: Column): (r: Result<string, string>)
      reads this, rowValues, columnToPosition
      requires Valid()
      ensures currentRow == 0 ==> r == Err(ErrorMsg("'nextRow' must be called before calling 'get'"))
      ensures currentRow > 0 && column.name in declared && declared[column.name] == column ==>
        r == Ok(rowValues[IndexOf(Header(), column.name)])
      ensures currentRow > 0 && column.number >= columnToPosition.Length ==>
        r == Err(ErrorMsg("unrecognized column '" + column.name + "'"))
      ensures currentRow > 0 && column.number < columnToPosition.Length
              && (forall n :: n in declared ==> declared[n].number != column.number) ==>
        r == Err(ErrorMsg("invalid column '" + column.name + "'"))
    {
      LookupPlaced(fileName, currentRow, positions, Header(), declared, rowValues[..], column);
      Lookup(fileName, currentRow, columnToPosition[..], rowValues[..], column)
    }

    /**
     * `processUnsignedInt`: `s` as an unsigned int, refused when it does not
     * parse or when a non-negative `max` is below it.
     */
    function ProcessUnsignedInt(s: string, column: Column, max: int): (r: Result<int, string>)
      reads this
      ensures ParseUnsignedInt(s).None? ==>
        r == Err(FieldLocated("convert to unsigned int failed", fileName, currentRow, column, s))
      ensures ParseUnsignedInt(s).Some? && max >= 0 && max < ParseUnsignedInt(s).value ==>
        r == Err(FieldLocated("exceeded max value of " + NatToString(max), fileName, currentRow, column, s))
      ensures r.Ok? <==> ParseUnsignedInt(s).Some? && (max < 0 || ParseUnsignedInt(s).value <= max)
      ensures r.Ok? ==> Some(r.value) == ParseUnsignedInt(s)
    {
      match ParseUnsignedInt(s)
      case None => Err(FieldLocated("convert to unsigned int failed", fileName, currentRow, column, s))
      case Some(result) =>
        if max >= 0 && max < result then
          Err(FieldLocated("exceeded max value of " + NatToString(max), fileName, currentRow, column, s))
        else Ok(result)
    }

    /**
     * `getUnsignedInt`: the value of `column` as an unsigned int, at most
     * `max` unless `max` is negative (`NO_MAX_VALUE`).
     */
    function GetUnsignedInt(column: Column, max: int): (r: Result<int, string>)
      reads this, rowValues, columnToPosition
      requires Valid()
      ensures Get(column).Err? ==> r == Err(Get(column).error)
      ensures Get(column).Ok? ==> r == ProcessUnsignedInt(Get(column).value, column, max)
      ensures r.Ok? ==> Get(column).Ok? && ParseUnsignedInt(Get(column).value) == Some(r.value)
      ensures r.Ok? && max >= 0 ==> r.value <= max
    {
      match Get(column)
      case Err(e) => Err(e)
      case Ok(s) => ProcessUnsignedInt(s, column, max)
    }

    /** `getBoolean`: "Y" and "T" read as true, "N", "F" and "" as false, anything else is refused. */
    function GetBoolean(column: Column): (r: Result<bool, string>)
      reads this, rowValues, columnToPosition
      requires Valid()
      ensures Get(column).Err? ==> r == Err(Get(column).error)
      ensures Get(column).Ok? ==>
        var s := Get(column).value;
        && (r == Ok(true) <==> s in {"Y", "T"})
        && (r == Ok(false) <==> s in {"N", "F", ""})
        && (BooleanValue(s).None? ==> r == Err(FieldLocated("convert to boolean failed", fileName, currentRow, column, s)))
    {
      match Get(column)
      case Err(e) => Err(e)
      case Ok(s) =>
        match BooleanValue(s)
        case Some(b) => Ok(b)
        case None => Err(FieldLocated("convert to boolean failed", fileName, currentRow, column, s))
    }
  }

  /**
   * Reading a full-width row and then asking for a declared column gives
   * the row's field under that column's header token.
   */
  lemma RowValueUnderHeader(f: ColumnFile, column: Column)
    requires f.Valid() && f.currentRow > 0
    requires f.rowValues[..] == Split(f.lines[f.currentRow], f.delimiter)
    requires column.name in f.declared && f.declared[column.name] == column
    ensures f.Get(column) == Ok(Split(f.lines[f.currentRow], f.delimiter)[IndexOf(f.Header(), column.name)])
  {
    AcceptedPositions(f.positions, f.Header(), f.declared);
  }

  /**
   * The bound only looks at the `int` the text parsed to: a value of 2^31 or
   * more parses to a negative `int` and so passes any non-negative `max`.
   */
  lemma MaxPassesWrappedValues(f: ColumnFile, column: Column, max: int)
    requires f.Valid() && f.Get(column).Ok? && max >= 0
    requires f.Get(column).value == NatToString(TWO_TO_31)
    ensures f.GetUnsignedInt(column, max) == Ok(-TWO_TO_31)
  {
    ParseUnsignedIntWraps(TWO_TO_31);
  }

  /** With `NO_MAX_VALUE` no value is refused for its size. */
  lemma NoMaxValueNoLimit(f: ColumnFile, column: Column)
    requires f.Valid() && f.Get(column).Ok?
    ensures f.GetUnsignedInt(column, NO_MAX_VALUE).Ok? <==> ParseUnsignedInt(f.Get(column).value).Some?
  {
  }
}
