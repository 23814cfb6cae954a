/**
 * What both revisions of the column-file reader share: the shape of their
 * error messages, the validation of the header row against the declared
 * columns (which fills the column-number -> position table in place), the
 * copying of a data row's fields into the row buffer and the lookup of a
 * column's value in the current row.
 */
module ColumnLayout {
  import opened Wrappers
  import opened Strings
  import opened Columns

  // ---------------------------------------------------------------------------
  // Error messages

  /** `errorMsg(msg)`: "<msg> - file: <name>", plus ", row: <n>" once a row has been read. */
  function Located(msg: string, fileName: string, row: nat): string {
    msg + " - file: " + fileName + (if row > 0 then ", row: " + NatToString(row) else "")
  }

  /** `error(msg, column, s)`: a located message naming the column and its raw value. */
  function FieldLocated(msg: string, fileName: string, row: nat, column: Column, value: string): string {
    Located(msg, fileName, row) + ", column: '" + column.name + "', value: '" + value + "'"
  }

  /**
   * A located message starts with the problem and the file; it carries a row
   * segment exactly when a row has been read, and that segment gives the row
   * number back.
   */
  lemma LocatedReadable(msg: string, fileName: string, row: nat)
    ensures msg + " - file: " + fileName <= Located(msg, fileName, row)
    ensures row == 0 ==> Located(msg, fileName, row) == msg + " - file: " + fileName
    ensures row > 0 ==> exists digits ::
      && Located(msg, fileName, row) == msg + " - file: " + fileName + ", row: " + digits
      && ParseUnsigned(digits) == Some(row)
  {
    if row > 0 {
      ParseNatToString(row);
      assert Located(msg, fileName, row) == msg + " - file: " + fileName + ", row: " + NatToString(row);
    }
  }

  // ---------------------------------------------------------------------------
  // Header problems, as a specification

  function DuplicateHeader(token: string): string {
    "duplicate header '" + token + "'"
  }

  function UnrecognizedHeader(token: string): string {
    "unrecognized header '" + token + "'"
  }

  /** The first token, from index `k` on, that repeats an earlier one or names no declared column. */
  function TokenProblem(tokens: seq<string>, names: set<string>, k: nat): Option<string>
    requires k <= |tokens|
    decreases |tokens| - k
  {
    if k == |tokens| then None
    else if tokens[k] in tokens[..k] then Some(DuplicateHeader(tokens[k]))
    else if tokens[k] !in names then Some(UnrecognizedHeader(tokens[k]))
    else TokenProblem(tokens, names, k + 1)
  }

  /** The complaint about declared columns the header never named. */
  function MissingProblem(missing: set<string>): Option<string> {
    var sorted := SortedSeq(missing);
    if |missing| == 0 then None
    else if |missing| == 1 then Some("column '" + sorted[0] + "' not found")
    else Some(NatToString(|missing|) + " columns not found: '" + Join(sorted, "', '") + "'")
  }

  /** The outcome of checking the header tokens against the declared names (None: accepted). */
  function HeaderProblem(tokens: seq<string>, names: set<string>): Option<string> {
    var bad := TokenProblem(tokens, names, 0);
    if bad.Some? then bad else MissingProblem(names - Elems(tokens))
  }

  /** From index `k` on, no token is the problem exactly when each is declared and new. */
  lemma {:induction false} TokenProblemNone(tokens: seq<string>, names: set<string>, k: nat)
    requires k <= |tokens|
    ensures TokenProblem(tokens, names, k).None? <==>
      forall i :: k <= i < |tokens| ==> tokens[i] in names && tokens[i] !in tokens[..i]
    decreases |tokens| - k
  {
    if k < |tokens| {
      TokenProblemNone(tokens, names, k + 1);
    }
  }

  /** Scanning from 0 reaches index `k` unchanged when every earlier token is declared and new. */
  lemma {:induction false} TokenProblemSkips(tokens: seq<string>, names: set<string>, i: nat, k: nat)
    requires i <= k <= |tokens|
    requires forall j :: i <= j < k ==> tokens[j] in names && tokens[j] !in tokens[..j]
    ensures TokenProblem(tokens, names, i) == TokenProblem(tokens, names, k)
    decreases k - i
  {
    if i < k {
      TokenProblemSkips(tokens, names, i + 1, k);
    }
  }

  /** A token never repeats an earlier one exactly when the tokens are distinct. */
  lemma DistinctByPrefix(tokens: seq<string>)
    ensures Distinct(tokens) <==> forall i :: 0 <= i < |tokens| ==> tokens[i] !in tokens[..i]
  {
    if !Distinct(tokens) {
      var i, j :| 0 <= i < j < |tokens| && tokens[i] == tokens[j];
      assert tokens[j] in tokens[..j] by {
        assert tokens[..j][i] == tokens[i];
      }
    }
  }

  /** The header is accepted exactly when it names every declared column once and nothing else. */
  lemma HeaderAccepted(tokens: seq<string>, names: set<string>)
    ensures HeaderProblem(tokens, names).None? <==> Distinct(tokens) && Elems(tokens) == names
  {
    TokenProblemNone(tokens, names, 0);
    DistinctByPrefix(tokens);
    var missing := names - Elems(tokens);
    assert |missing| == 0 <==> missing == {};
  }

  /**
   * An accepted header maps the declared names one-to-one onto the positions
   * 0 .. |names| - 1: each position holds a declared name, each declared name
   * sits at exactly one position.
   */
  lemma AcceptedHeaderIsBijection(tokens: seq<string>, names: set<string>)
    requires HeaderProblem(tokens, names).None?
    ensures |tokens| == |names|
    ensures forall k :: 0 <= k < |tokens| ==> tokens[k] in names && IndexOf(tokens, tokens[k]) == k
    ensures forall n :: n in names ==> n in tokens && IndexOf(tokens, n) < |names|
  {
    HeaderAccepted(tokens, names);
    DistinctPositions(tokens, names);
  }

  /** Distinct tokens: each is found at its own index, and there are as many as names. */
  lemma DistinctPositions(tokens: seq<string>, names: set<string>)
    requires Distinct(tokens) && Elems(tokens) == names
    ensures |tokens| == |names|
    ensures forall k :: 0 <= k < |tokens| ==> tokens[k] in names && IndexOf(tokens, tokens[k]) == k
    ensures forall n :: n in names ==> n in tokens && IndexOf(tokens, n) < |names|
  {
    DistinctCardinality(tokens);
    forall k | 0 <= k < |tokens| ensures IndexOf(tokens, tokens[k]) == k {
      var i := IndexOf(tokens, tokens[k]);
      assert tokens[i] == tokens[k];
    }
  }

  /**
   * Tokens are checked in header order and a repeat is caught before the
   * recognition check: the first offending token is the one reported.
   */
  lemma FirstProblemReported(tokens: seq<string>, names: set<string>, k: nat)
    requires k < |tokens|
    requires forall i :: 0 <= i < k ==> tokens[i] in names && tokens[i] !in tokens[..i]
    requires tokens[k] in tokens[..k] || tokens[k] !in names
    ensures HeaderProblem(tokens, names) ==
      Some(if tokens[k] in tokens[..k] then DuplicateHeader(tokens[k]) else UnrecognizedHeader(tokens[k]))
  {
    TokenProblemSkips(tokens, names, 0, k);
  }

  /**
   * A header of distinct, declared tokens fails only for the declared columns
   * it leaves out: one is named alone, two or more are counted and listed in
   * ascending order (any ascending listing of them gives the same message).
   */
  lemma MissingReported(tokens: seq<string>, names: set<string>, listing: seq<string>)
    requires Distinct(tokens) && Elems(tokens) <= names
    requires Ascending(listing) && Elems(listing) == names - Elems(tokens)
    ensures Elems(tokens) == names ==> HeaderProblem(tokens, names) == None
    ensures |listing| == 1 ==>
      HeaderProblem(tokens, names) == Some("column '" + listing[0] + "' not found")
    ensures |listing| >= 2 ==>
      (HeaderProblem(tokens, names) ==
       Some(NatToString(|listing|) + " columns not found: '" + Join(listing, "', '") + "'"))
  {
    OnlyMissing(tokens, names);
    var missing := names - Elems(tokens);
    AscendingUnique(listing, SortedSeq(missing));
    assert listing == SortedSeq(missing);
    DistinctCardinality(listing);
  }

  /** A header of distinct, declared tokens can only fail for the columns it leaves out. */
  lemma OnlyMissing(tokens: seq<string>, names: set<string>)
    requires Distinct(tokens) && Elems(tokens) <= names
    ensures HeaderProblem(tokens, names) == MissingProblem(names - Elems(tokens))
  {
    TokenProblemNone(tokens, names, 0);
    DistinctByPrefix(tokens);
  }

  /** Reordering the header never changes whether it is accepted. */
  lemma HeaderOrderIrrelevant(tokens: seq<string>, reordered: seq<string>, names: set<string>)
    requires multiset(tokens) == multiset(reordered)
    ensures HeaderProblem(tokens, names).None? <==> HeaderProblem(reordered, names).None?
  {
    HeaderAccepted(tokens, names);
    HeaderAccepted(reordered, names);
    DistinctMultiset(tokens);
    DistinctMultiset(reordered);
    assert Elems(tokens) == Elems(reordered) by {
      forall x ensures x in tokens <==> x in reordered {
        assert x in tokens <==> x in multiset(tokens);
        assert x in reordered <==> x in multiset(reordered);
      }
    }
  }

  // ---------------------------------------------------------------------------
  // The in-place header check

  /**
   * Each header token's column number maps to the token's position; every
   * number that belongs to no declared column still maps to -1 (not found).
   */
  ghost predicate Positioned(columnToPosition: seq<int>, tokens: seq<string>, cols: map<string, Column>) {
    && (forall k :: 0 <= k < |tokens| ==>
          tokens[k] in cols && cols[tokens[k]].number < |columnToPosition|
          && columnToPosition[cols[tokens[k]].number] == k)
    && (forall id :: 0 <= id < |columnToPosition| && id !in NumbersOf(cols) ==> columnToPosition[id] == -1)
  }

  /** Numbers of the columns in a name table. */
  ghost function NumbersOf(cols: map<string, Column>): set<nat> {
    set n | n in cols :: cols[n].number
  }

  /**
   * `processHeaderRow`: splits the header (dropping trailing empty tokens)
   * and checks it with `CheckHeader`.
   */
  method ProcessHeaderRow(row: string, delimiter: string, cols: map<string, Column>, columnToPosition: array<int>)
    returns (problem: Option<string>)
    requires delimiter != []
    requires NameTable(cols, columnToPosition.Length)
    requires forall id :: 0 <= id < columnToPosition.Length ==> columnToPosition[id] == -1
    modifies columnToPosition
    ensures problem == HeaderProblem(SplitDroppingTrailing(row, delimiter), cols.Keys)
    ensures problem.None? ==> Positioned(columnToPosition[..], SplitDroppingTrailing(row, delimiter), cols)
  {
    problem := CheckHeader(SplitDroppingTrailing(row, delimiter), cols, columnToPosition);
  }

  /**
   * The table after the first `pos` header tokens: each was declared and new
   * and its column maps to its position, every other column still maps to -1.
   */
  ghost predicate Scanned(tokens: seq<string>, cols: map<string, Column>, pos: nat, columnToPosition: seq<int>)
    requires pos <= |tokens|
  {
    && (forall k :: 0 <= k < pos ==> tokens[k] in cols && tokens[k] !in tokens[..k])
    && (forall k :: 0 <= k < pos ==>
          cols[tokens[k]].number < |columnToPosition| && columnToPosition[cols[tokens[k]].number] == k)
    && (forall n :: n in cols && n !in tokens[..pos] ==>
          cols[n].number < |columnToPosition| && columnToPosition[cols[n].number] == -1)
    && (forall id :: 0 <= id < |columnToPosition| && id !in NumbersOf(cols) ==> columnToPosition[id] == -1)
  }

  /** Placing one more declared, new token keeps the table scanned. */
  lemma ScanStep(tokens: seq<string>, cols: map<string, Column>, pos: nat, columnToPosition: seq<int>)
    requires NameTable(cols, |columnToPosition|)
    requires pos < |tokens| && Scanned(tokens, cols, pos, columnToPosition)
    requires tokens[pos] in cols && tokens[pos] !in tokens[..pos]
    ensures Scanned(tokens, cols, pos + 1, columnToPosition[cols[tokens[pos]].number := pos])
  {
    var c := cols[tokens[pos]];
    assert c.number in NumbersOf(cols);
    assert tokens[..pos + 1] == tokens[..pos] + [tokens[pos]];
  }

  /**
   * The state of the header loop after `pos` tokens: `found` holds them,
   * `remaining` the declared columns not yet named, none of them was a
   * problem, and the table is scanned that far.
   */
  ghost predicate HeaderLoop(tokens: seq<string>, cols: map<string, Column>, pos: nat, found: set<string>,
                             remaining: map<string, Column>, columnToPosition: seq<int>)
  {
    && pos <= |tokens|
    && NameTable(cols, |columnToPosition|)
    && found == Elems(tokens[..pos])
    && remaining == cols - found
    && TokenProblem(tokens, cols.Keys, 0) == TokenProblem(tokens, cols.Keys, pos)
    && Scanned(tokens, cols, pos, columnToPosition)
  }

  /** One more token that is new and still expected keeps the loop state. */
  lemma HeaderLoopStep(tokens: seq<string>, cols: map<string, Column>, pos: nat, found: set<string>,
                       remaining: map<string, Column>, columnToPosition: seq<int>)
    requires HeaderLoop(tokens, cols, pos, found, remaining, columnToPosition) && pos < |tokens|
    requires tokens[pos] !in found && tokens[pos] in remaining
    ensures cols[tokens[pos]].number < |columnToPosition|
    ensures HeaderLoop(tokens, cols, pos + 1, found + {tokens[pos]}, remaining - {tokens[pos]},
                       columnToPosition[cols[tokens[pos]].number := pos])
  {
    ScanStep(tokens, cols, pos, columnToPosition);
    ElemsOfLonger(tokens, pos);
  }

  /** The token at `pos` ends the loop with the first problem if it repeats or is not expected. */
  lemma HeaderLoopStops(tokens: seq<string>, cols: map<string, Column>, pos: nat, found: set<string>,
                        remaining: map<string, Column>, columnToPosition: seq<int>)
    requires HeaderLoop(tokens, cols, pos, found, remaining, columnToPosition) && pos < |tokens|
    ensures tokens[pos] in found ==> HeaderProblem(tokens, cols.Keys) == Some(DuplicateHeader(tokens[pos]))
    ensures tokens[pos] !in found && tokens[pos] !in remaining ==>
      HeaderProblem(tokens, cols.Keys) == Some(UnrecognizedHeader(tokens[pos]))
  {
  }

  /** After the last token only the declared columns left over can be the problem. */
  lemma HeaderLoopDone(tokens: seq<string>, cols: map<string, Column>, found: set<string>,
                       remaining: map<string, Column>, columnToPosition: seq<int>)
    requires HeaderLoop(tokens, cols, |tokens|, found, remaining, columnToPosition)
    ensures HeaderProblem(tokens, cols.Keys) == MissingProblem(remaining.Keys)
    ensures Positioned(columnToPosition, tokens, cols)
  {
    assert tokens[..|tokens|] == tokens;
    assert remaining.Keys == cols.Keys - Elems(tokens);
    ScanComplete(tokens, cols, columnToPosition);
  }

  /** With no token left to scan, a scanned table positions the whole header. */
  lemma ScanComplete(tokens: seq<string>, cols: map<string, Column>, columnToPosition: seq<int>)
    requires Scanned(tokens, cols, |tokens|, columnToPosition)
    ensures Positioned(columnToPosition, tokens, cols)
  {
  }

  /**
   * After an accepted header, the table sends each declared column to the
   * position of its name in the header, and every entry is a valid position
   * in a row of `|cols|` values or -1.
   */
  lemma AcceptedPositions(columnToPosition: seq<int>, tokens: seq<string>, cols: map<string, Column>)
    requires Positioned(columnToPosition, tokens, cols)
    requires Distinct(tokens) && Elems(tokens) == cols.Keys
    ensures forall n :: n in cols ==>
      n in tokens && cols[n].number < |columnToPosition| && columnToPosition[cols[n].number] == IndexOf(tokens, n)
    ensures forall id :: 0 <= id < |columnToPosition| ==> -1 <= columnToPosition[id] < |cols|
  {
    DistinctPositions(tokens, cols.Keys);
    assert |cols.Keys| == |cols|;
    forall n | n in cols
      ensures n in tokens && cols[n].number < |columnToPosition| && columnToPosition[cols[n].number] == IndexOf(tokens, n)
    {
      var k := IndexOf(tokens, n);
      assert tokens[k] == n;
    }
    forall id | 0 <= id < |columnToPosition| ensures -1 <= columnToPosition[id] < |cols| {
      if id in NumbersOf(cols) {
        var n :| n in cols && cols[n].number == id;
        assert tokens[IndexOf(tokens, n)] == n;
      }
    }
  }

  /**
   * The loop of `processHeaderRow`: checks every token in order, records each
   * column's position in `columnToPosition`, then reports any declared column
   * left unmatched.
   */
  method CheckHeader(tokens: seq<string>, cols: map<string, Column>, columnToPosition: array<int>)
    returns (problem: Option<string>)
    requires NameTable(cols, columnToPosition.Length)
    requires forall id :: 0 <= id < columnToPosition.Length ==> columnToPosition[id] == -1
    modifies columnToPosition
    ensures problem == HeaderProblem(tokens, cols.Keys)
    ensures problem.None? ==> Positioned(columnToPosition[..], tokens, cols)
  {
    var found: set<string> := {};
    var remaining := cols;
    var pos := 0;
    while pos < |tokens|
      invariant HeaderLoop(tokens, cols, pos, found, remaining, columnToPosition[..])
    {
      var header := tokens[pos];
      HeaderLoopStops(tokens, cols, pos, found, remaining, columnToPosition[..]);
      if header in found {
        return Some(DuplicateHeader(header));
      }
      ghost var foundBefore := found;
      found := found + {header};
      if header !in remaining {
        return Some(UnrecognizedHeader(header));
      }
      var c := remaining[header];
      HeaderLoopStep(tokens, cols, pos, foundBefore, remaining, columnToPosition[..]);
      remaining := remaining - {header};
      columnToPosition[c.number] := pos;
      pos := pos + 1;
    }
    HeaderLoopDone(tokens, cols, found, remaining, columnToPosition[..]);
    problem := ReportMissing(remaining);
  }

  /**
   * The tail of `processHeaderRow`: the declared columns the header left
   * unmatched, one named alone, several counted and listed in sorted order.
   */
  method ReportMissing(remaining: map<string, Column>) returns (problem: Option<string>)
    ensures problem == MissingProblem(remaining.Keys)
    ensures problem.None? <==> remaining == map[]
  {
    if |remaining| == 1 {
      var name :| name in remaining;
      assert |remaining.Keys - {name}| == |remaining.Keys| - 1 == 0;
      assert remaining.Keys == {name};
      assert SortedSeq(remaining.Keys)[0] in Elems(SortedSeq(remaining.Keys));
      return Some("column '" + name + "' not found");
    }
    if |remaining| > 1 {
      return Some(NatToString(|remaining|) + " columns not found: '" + Join(SortedSeq(remaining.Keys), "', '") + "'");
    }
    assert |remaining.Keys| == 0;
    return None;
  }

  // ---------------------------------------------------------------------------
  // Data rows

  /** `values` with its first cells replaced by `fields` (as many as fit). */
  function Overlay(values: seq<string>, fields: seq<string>): (r: seq<string>)
    ensures |r| == |values|
    ensures forall i :: 0 <= i < |r| ==> r[i] == (if i < |fields| then fields[i] else values[i])
  {
    if |fields| >= |values| then fields[..|values|] else fields + values[|fields|..]
  }

  /** Copying one more field changes only its own slot. */
  lemma OverlayStep(values: seq<string>, fields: seq<string>, pos: nat)
    requires pos < |fields| && pos < |values|
    ensures Overlay(values, fields[..pos + 1]) == Overlay(values, fields[..pos])[pos := fields[pos]]
  {
    var a, b := Overlay(values, fields[..pos + 1]), Overlay(values, fields[..pos])[pos := fields[pos]];
    assert |a| == |b|;
    forall i | 0 <= i < |a| ensures a[i] == b[i] {
    }
  }

  /** Once every slot holds a field, further fields change nothing. */
  lemma OverlayCovered(values: seq<string>, fields: seq<string>, pos: nat)
    requires pos == |values| <= |fields|
    ensures Overlay(values, fields[..pos]) == Overlay(values, fields)
  {
    var a, b := Overlay(values, fields[..pos]), Overlay(values, fields);
    assert |a| == |b|;
    forall i | 0 <= i < |a| ensures a[i] == b[i] {
    }
  }

  /** The complaint about a row of `count` fields in a file of `width` columns. */
  function RowProblem(count: nat, width: nat): (problem: Option<string>)
    ensures problem.None? <==> count == width
  {
    if count > width then Some("too many columns")
    else if count < width then Some("not enough columns")
    else None
  }

  /**
   * The field loop of `nextRow`: copies the fields in order into the row
   * buffer, stopping at the first field that does not fit, then complains if
   * the row was too short. Fields copied before the complaint stay written.
   */
  method FillRow(fields: seq<string>, rowValues: array<string>) returns (problem: Option<string>)
    modifies rowValues
    ensures problem == RowProblem(|fields|, rowValues.Length)
    ensures rowValues[..] == Overlay(old(rowValues[..]), fields)
    ensures problem.None? ==> rowValues[..] == fields
  {
    var pos := 0;
    while pos < |fields|
      invariant 0 <= pos <= |fields| && pos <= rowValues.Length
      invariant rowValues[..] == Overlay(old(rowValues[..]), fields[..pos])
    {
      if pos == rowValues.Length {
        OverlayCovered(old(rowValues[..]), fields, pos);
        return Some("too many columns");
      }
      OverlayStep(old(rowValues[..]), fields, pos);
      rowValues[pos] := fields[pos];
      pos := pos + 1;
    }
    assert fields[..pos] == fields;
    if pos < rowValues.Length {
      return Some("not enough columns");
    }
    return None;
  }

  // ---------------------------------------------------------------------------
  // Looking up a value

  /**
   * `get`: the value of `column` in the current row. Fails before the first
   * row, for a number the registry had not given out when the file was
   * opened, and for a column the file does not have.
   */
  function Lookup(fileName: string, currentRow: nat, columnToPosition: seq<int>, rowValues: seq<string>,
                  column: Column): (r: Result<string, string>)
    requires forall id :: 0 <= id < |columnToPosition| ==> -1 <= columnToPosition[id] < |rowValues|
    ensures currentRow == 0 ==>
      r == Err(Located("'nextRow' must be called before calling 'get'", fileName, currentRow))
    ensures currentRow > 0 && column.number >= |columnToPosition| ==>
      r == Err(Located("unrecognized column '" + column.name + "'", fileName, currentRow))
    ensures currentRow > 0 && column.number < |columnToPosition| && columnToPosition[column.number] == -1 ==>
      r == Err(Located("invalid column '" + column.name + "'", fileName, currentRow))
    ensures r.Ok? <==>
      currentRow > 0 && column.number < |columnToPosition| && columnToPosition[column.number] != -1
    ensures r.Ok? ==> r.value == rowValues[columnToPosition[column.number]]
  {
    if currentRow == 0 then
      Err(Located("'nextRow' must be called before calling 'get'", fileName, currentRow))
    else if column.number >= |columnToPosition| then
      Err(Located("unrecognized column '" + column.name + "'", fileName, currentRow))
    else if columnToPosition[column.number] == -1 then
      Err(Located("invalid column '" + column.name + "'", fileName, currentRow))
    else
      Ok(rowValues[columnToPosition[column.number]])
  }

  /**
   * Looking up in a table filled from an accepted header: a declared column
   * gives the field under the header token naming it, and a column whose
   * number no declared column has is refused as invalid.
   */
  lemma LookupPlaced(fileName: string, currentRow: nat, columnToPosition: seq<int>, tokens: seq<string>,
                     cols: map<string, Column>, rowValues: seq<string>, column: Column)
    requires Positioned(columnToPosition, tokens, cols)
    requires Distinct(tokens) && Elems(tokens) == cols.Keys
    requires |rowValues| == |cols|
    ensures forall id :: 0 <= id < |columnToPosition| ==> -1 <= columnToPosition[id] < |rowValues|
    ensures column.name in cols ==> column.name in tokens && IndexOf(tokens, column.name) < |rowValues|
    ensures currentRow > 0 && column.name in cols && cols[column.name] == column ==>
      Lookup(fileName, currentRow, columnToPosition, rowValues, column) == Ok(rowValues[IndexOf(tokens, column.name)])
    ensures currentRow > 0 && column.number < |columnToPosition|
            && (forall n :: n in cols ==> cols[n].number != column.number) ==>
      Lookup(fileName, currentRow, columnToPosition, rowValues, column)
        == Err(Located("invalid column '" + column.name + "'", fileName, currentRow))
  {
    AcceptedPositions(columnToPosition, tokens, cols);
    if column.number < |columnToPosition| && (forall n :: n in cols ==> cols[n].number != column.number) {
      assert column.number !in NumbersOf(cols);
    }
  }
}
