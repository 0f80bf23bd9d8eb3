/**
 * The row and column walk of `parse_timetable_from_xls`, over a sheet that
 * has already been loaded. Row 1 names the weekday columns; every later row
 * whose first cell names a big period contributes the records of its
 * non-empty cells under known weekdays, each tagged with that weekday and
 * the period numbers. The walk is shared by both parsers: a `Parser` holds
 * the cell decoder and the two lookup tables each one uses.
 */
module Grid {
  import opened Text
  import opened Wrappers
  import opened Records

  /** A sheet: rows of cells, `None` where the cell is empty. */
  type Sheet = seq<seq<Option<string>>>

  /** Every row has one cell per column, as in a data frame. */
  predicate Rectangular(cells: Sheet, width: nat) {
    forall r :: 0 <= r < |cells| ==> |cells[r]| == width
  }

  /** The cell decoder and the two lookup tables one parser uses. */
  datatype Parser = Parser(decode: string -> seq<CourseInfo>, slots: string -> seq<int>, weekday: string -> int)

  /** What the walk gives: the tagged records, or the index error the sheet's shape provokes. */
  datatype Walk = Walked(entries: seq<Entry>) | IndexError

  /** A header cell that names a weekday: present and containing `星期`. */
  predicate IsWeekdayHeader(cell: Option<string>) {
    cell.Some? && Contains(cell.value, "星期")
  }

  /**
   * The weekday columns among columns `1 .. n - 1` of the header row, in
   * order, each with the name in its header cell.
   */
  function WeekdayColumns(header: seq<Option<string>>, n: nat): (r: seq<(nat, string)>)
    requires n <= |header|
    ensures forall k :: 0 <= k < |r| ==> 1 <= r[k].0 < n && header[r[k].0] == Some(r[k].1) && IsWeekdayHeader(header[r[k].0])
    ensures forall k, l :: 0 <= k < l < |r| ==> r[k].0 < r[l].0
    ensures forall c :: 1 <= c < n && IsWeekdayHeader(header[c]) ==> (c, header[c].value) in r
  {
    if n <= 1 then []
    else
      var r := WeekdayColumns(header, n - 1);
      if IsWeekdayHeader(header[n - 1]) then r + [(n - 1, header[n - 1].value)] else r
  }

  /** The period numbers of a row label: none unless the label is present, contains `第` and is a known big period. */
  function RowSlots(p: Parser, slot: Option<string>): seq<int> {
    match slot
    case None => []
    case Some(t) => if Contains(t, "第") then p.slots(t) else []
  }

  /** A decoded record tagged with its weekday and period numbers. */
  function Tagged(info: CourseInfo, weekday: int, indexes: seq<int>): Entry {
    Entry(info.name, info.teacher, info.classroom, weekday, info.weeks, indexes)
  }

  /** Every record of a cell, tagged, in order. */
  function Tag(infos: seq<CourseInfo>, weekday: int, indexes: seq<int>): (r: seq<Entry>)
    ensures |r| == |infos|
    ensures forall k :: 0 <= k < |r| ==> r[k] == Tagged(infos[k], weekday, indexes)
  {
    seq(|infos|, k requires 0 <= k < |infos| => Tagged(infos[k], weekday, indexes))
  }

  /** The records a cell under the weekday column `name` contributes: none when the cell is empty or the weekday unknown. */
  function CellEntries(p: Parser, cell: Option<string>, name: string, indexes: seq<int>): seq<Entry> {
    match cell
    case None => []
    case Some(text) => if p.weekday(name) == 0 then [] else Tag(p.decode(text), p.weekday(name), indexes)
  }

  /** The records of a row's cells under the first `n` weekday columns, in column order. */
  function RowEntries(p: Parser, row: seq<Option<string>>, headers: seq<(nat, string)>, indexes: seq<int>, n: nat): seq<Entry>
    requires n <= |headers|
  {
    if n == 0 then []
    else
      RowEntries(p, row, headers, indexes, n - 1) + ColumnEntries(p, row, headers[n - 1], indexes)
  }

  /** The records of one row: none unless its label gives period numbers. */
  function RowOf(p: Parser, row: seq<Option<string>>, headers: seq<(nat, string)>): seq<Entry>
    requires row != []
  {
    var indexes := RowSlots(p, row[0]);
    if indexes == [] then [] else RowEntries(p, row, headers, indexes, |headers|)
  }

  /** Rows `2 .. n - 1` all have a first cell. */
  predicate RowsPresent(cells: Sheet, n: nat)
    requires n <= |cells|
  {
    n <= 2 || (cells[n - 1] != [] && RowsPresent(cells, n - 1))
  }

  /** Each of the rows `2 .. n - 1` of a sheet whose rows are present has a first cell. */
  lemma {:induction false} RowsPresentAt(cells: Sheet, n: nat, k: nat)
    requires n <= |cells| && RowsPresent(cells, n) && 2 <= k < n
    ensures cells[k] != []
  {
    if k < n - 1 {
      RowsPresentAt(cells, n - 1, k);
    }
  }

  /** In a sheet with at least one column every row has a first cell. */
  lemma {:induction false} RowsPresentOf(cells: Sheet, width: nat, n: nat)
    requires Rectangular(cells, width) && width >= 1 && n <= |cells|
    ensures RowsPresent(cells, n)
  {
    if n > 2 {
      assert |cells[n - 1]| == width;
      RowsPresentOf(cells, width, n - 1);
    }
  }

  /** The records of rows `2 .. n - 1`, in row order. */
  function WalkRows(p: Parser, cells: Sheet, headers: seq<(nat, string)>, n: nat): seq<Entry>
    requires n <= |cells|
    requires RowsPresent(cells, n)
  {
    if n <= 2 then [] else WalkRows(p, cells, headers, n - 1) + RowOf(p, cells[n - 1], headers)
  }

  /**
   * The walk of a sheet `width` columns wide. Reading the header row needs a
   * second row once there is a column past the first; reading a row label
   * needs a first column once there is a third row.
   */
  function Timetable(p: Parser, cells: Sheet, width: nat): (r: Walk)
    requires Rectangular(cells, width)
    ensures r == IndexError <==> (width >= 2 && |cells| < 2) || (width == 0 && |cells| > 2)
  {
    if width >= 2 && |cells| < 2 then IndexError
    else if width == 0 && |cells| > 2 then IndexError
    else
      var headers := if width >= 2 then WeekdayColumns(cells[1], width) else [];
      assert RowsPresent(cells, |cells|) by { if width >= 1 { RowsPresentOf(cells, width, |cells|); } }
      Walked(WalkRows(p, cells, headers, |cells|))
  }

  /** The header columns the walk uses. */
  function Headers(cells: Sheet, width: nat): seq<(nat, string)>
    requires Rectangular(cells, width) && (width >= 2 ==> |cells| >= 2)
  {
    if width >= 2 then WeekdayColumns(cells[1], width) else []
  }

  /** The record `e` comes out of the cell in row `r` under the `h`-th weekday column. */
  predicate FromCell(p: Parser, cells: Sheet, headers: seq<(nat, string)>, r: nat, h: nat, e: Entry) {
    r < |cells| && cells[r] != [] && h < |headers| && RowSlots(p, cells[r][0]) != []
    && e in ColumnEntries(p, cells[r], headers[h], RowSlots(p, cells[r][0]))
  }

  /** A cell contributes exactly its decoded records, tagged, when it is present and its weekday known. */
  lemma CellMembers(p: Parser, cell: Option<string>, name: string, indexes: seq<int>, e: Entry)
    ensures e in CellEntries(p, cell, name, indexes) <==>
      (cell.Some? && p.weekday(name) != 0 && exists info :: info in p.decode(cell.value) && e == Tagged(info, p.weekday(name), indexes))
  {
    if cell.Some? && p.weekday(name) != 0 {
      var infos := p.decode(cell.value);
      var t := Tag(infos, p.weekday(name), indexes);
      if e in t {
        var k :| 0 <= k < |t| && t[k] == e;
        assert infos[k] in infos;
      }
      if exists info :: info in infos && e == Tagged(info, p.weekday(name), indexes) {
        var info :| info in infos && e == Tagged(info, p.weekday(name), indexes);
        var k :| 0 <= k < |infos| && infos[k] == info;
        assert t[k] == e;
      }
    }
  }

  /** The record of the `n`-th weekday column of a row, after those of the columns before it. */
  lemma RowStep(p: Parser, row: seq<Option<string>>, headers: seq<(nat, string)>, indexes: seq<int>, n: nat)
    requires 0 < n <= |headers|
    ensures RowEntries(p, row, headers, indexes, n) == RowEntries(p, row, headers, indexes, n - 1) + ColumnEntries(p, row, headers[n - 1], indexes)
  {
  }

  /** What the cell of a row under one weekday column contributes. */
  function ColumnEntries(p: Parser, row: seq<Option<string>>, header: (nat, string), indexes: seq<int>): seq<Entry> {
    if header.0 < |row| then CellEntries(p, row[header.0], header.1, indexes) else []
  }

  /** A row contributes exactly what the cells under its weekday columns contribute. */
  lemma RowMembers(p: Parser, row: seq<Option<string>>, headers: seq<(nat, string)>, indexes: seq<int>, n: nat, e: Entry)
    requires n <= |headers|
    ensures e in RowEntries(p, row, headers, indexes, n) <==> exists h :: 0 <= h < n && e in ColumnEntries(p, row, headers[h], indexes)
  {
    if e in RowEntries(p, row, headers, indexes, n) {
      var h := RowOrigin(p, row, headers, indexes, n, e);
    }
    if exists h :: 0 <= h < n && e in ColumnEntries(p, row, headers[h], indexes) {
      var h :| 0 <= h < n && e in ColumnEntries(p, row, headers[h], indexes);
      RowHas(p, row, headers, indexes, n, h, e);
    }
  }

  /** The weekday column a record of a row comes from. */
  lemma {:induction false} RowOrigin(p: Parser, row: seq<Option<string>>, headers: seq<(nat, string)>, indexes: seq<int>, n: nat, e: Entry) returns (h: nat)
    requires n <= |headers| && e in RowEntries(p, row, headers, indexes, n)
    ensures h < n && e in ColumnEntries(p, row, headers[h], indexes)
  {
    RowStep(p, row, headers, indexes, n);
    if e in ColumnEntries(p, row, headers[n - 1], indexes) {
      h := n - 1;
    } else {
      h := RowOrigin(p, row, headers, indexes, n - 1, e);
    }
  }

  /** Every record of a weekday column's cell is among the row's records. */
  lemma {:induction false} RowHas(p: Parser, row: seq<Option<string>>, headers: seq<(nat, string)>, indexes: seq<int>, n: nat, h: nat, e: Entry)
    requires h < n <= |headers| && e in ColumnEntries(p, row, headers[h], indexes)
    ensures e in RowEntries(p, row, headers, indexes, n)
  {
    var before, col := RowEntries(p, row, headers, indexes, n - 1), ColumnEntries(p, row, headers[n - 1], indexes);
    assert RowEntries(p, row, headers, indexes, n) == before + col by { RowStep(p, row, headers, indexes, n); }
    if h < n - 1 {
      RowHas(p, row, headers, indexes, n - 1, h, e);
      InPrefix(before, col, e);
    } else {
      InSuffix(before, col, e);
    }
  }

  /** An element of the first part is an element of the concatenation. */
  lemma InPrefix<T>(a: seq<T>, b: seq<T>, e: T)
    requires e in a
    ensures e in a + b
  {
  }

  /** An element of the second part is an element of the concatenation. */
  lemma InSuffix<T>(a: seq<T>, b: seq<T>, e: T)
    requires e in b
    ensures e in a + b
  {
  }

  /** The records of row `n - 1`, after those of the rows before it. */
  lemma WalkStep(p: Parser, cells: Sheet, headers: seq<(nat, string)>, n: nat)
    requires 2 < n <= |cells| && RowsPresent(cells, n)
    ensures WalkRows(p, cells, headers, n) == WalkRows(p, cells, headers, n - 1) + RowOf(p, cells[n - 1], headers)
  {
  }

  /** A row contributes nothing unless its label gives period numbers, and then what its weekday columns contribute. */
  lemma RowOfMembers(p: Parser, row: seq<Option<string>>, headers: seq<(nat, string)>, e: Entry)
    requires row != []
    ensures e in RowOf(p, row, headers) <==>
      RowSlots(p, row[0]) != [] && exists h :: 0 <= h < |headers| && e in ColumnEntries(p, row, headers[h], RowSlots(p, row[0]))
  {
    if RowSlots(p, row[0]) != [] {
      RowMembers(p, row, headers, RowSlots(p, row[0]), |headers|, e);
    }
  }

  /** Every record of the walk over rows `2 .. n - 1` comes out of one of their cells. */
  lemma {:induction false} WalkOrigin(p: Parser, cells: Sheet, headers: seq<(nat, string)>, n: nat, e: Entry)
    requires n <= |cells| && RowsPresent(cells, n)
    requires e in WalkRows(p, cells, headers, n)
    ensures exists r: nat, h: nat :: 2 <= r < n && FromCell(p, cells, headers, r, h, e)
  {
    var before, last := WalkRows(p, cells, headers, n - 1), RowOf(p, cells[n - 1], headers);
    assert WalkRows(p, cells, headers, n) == before + last by { WalkStep(p, cells, headers, n); }
    RowOfMembers(p, cells[n - 1], headers, e);
    if e in before {
      WalkOrigin(p, cells, headers, n - 1, e);
      var r: nat, h: nat :| 2 <= r < n - 1 && FromCell(p, cells, headers, r, h, e);
      assert 2 <= r < n && FromCell(p, cells, headers, r, h, e);
    } else {
      var h :| 0 <= h < |headers| && e in ColumnEntries(p, cells[n - 1], headers[h], RowSlots(p, cells[n - 1][0]));
      assert FromCell(p, cells, headers, n - 1, h, e);
    }
  }

  /** A record that comes out of a cell is among the records of the cell's row. */
  lemma FromCellInRow(p: Parser, cells: Sheet, headers: seq<(nat, string)>, r: nat, h: nat, e: Entry)
    requires FromCell(p, cells, headers, r, h, e)
    ensures e in RowOf(p, cells[r], headers)
  {
    RowOfMembers(p, cells[r], headers, e);
  }

  /** Every record of one of the rows `2 .. n - 1` is in the walk. */
  lemma {:induction false} WalkComplete(p: Parser, cells: Sheet, headers: seq<(nat, string)>, n: nat, r: nat, e: Entry)
    requires n <= |cells| && RowsPresent(cells, n)
    requires 2 <= r < n && cells[r] != [] && e in RowOf(p, cells[r], headers)
    ensures e in WalkRows(p, cells, headers, n)
  {
    var before, last := WalkRows(p, cells, headers, n - 1), RowOf(p, cells[n - 1], headers);
    assert WalkRows(p, cells, headers, n) == before + last by { WalkStep(p, cells, headers, n); }
    if r < n - 1 {
      WalkComplete(p, cells, headers, n - 1, r, e);
      InPrefix(before, last, e);
    } else {
      InSuffix(before, last, e);
    }
  }

  /**
   * The cell in row `r`, column `c` of the sheet yields the record `e`: the
   * row is past the header, its label is present, contains `第` and names a
   * big period, the column is a weekday column whose day is known, the cell
   * is present, and `e` is one of its decoded records tagged with that day
   * and those periods.
   */
  ghost predicate Produces(p: Parser, cells: Sheet, width: nat, r: nat, c: nat, e: Entry)
    requires Rectangular(cells, width)
  {
    2 <= r < |cells| && 1 <= c < width && IsWeekdayHeader(cells[1][c])
    && RowSlots(p, cells[r][0]) != [] && cells[r][c].Some? && p.weekday(cells[1][c].value) != 0
    && (exists info :: info in p.decode(cells[r][c].value)
          && e == Tagged(info, p.weekday(cells[1][c].value), RowSlots(p, cells[r][0])))
  }

  /** What one weekday column of a row contributes is what its cell produces. */
  lemma ColumnProduces(p: Parser, cells: Sheet, width: nat, r: nat, h: nat, e: Entry)
    requires Rectangular(cells, width) && 2 <= width && 2 <= r < |cells|
    requires h < |Headers(cells, width)| && RowSlots(p, cells[r][0]) != []
    ensures var c := Headers(cells, width)[h].0;
      e in ColumnEntries(p, cells[r], Headers(cells, width)[h], RowSlots(p, cells[r][0])) <==> Produces(p, cells, width, r, c, e)
  {
    var header := Headers(cells, width)[h];
    CellMembers(p, cells[r][header.0], header.1, RowSlots(p, cells[r][0]), e);
  }

  /** A walk that gets past the header reads the rows after it under the header's weekday columns. */
  lemma WalkedRows(p: Parser, cells: Sheet, width: nat)
    requires Rectangular(cells, width) && Timetable(p, cells, width).Walked?
    ensures (width >= 2 ==> |cells| >= 2) && (|cells| > 2 ==> width >= 1)
    ensures RowsPresent(cells, |cells|)
    ensures Timetable(p, cells, width).entries == WalkRows(p, cells, Headers(cells, width), |cells|)
  {
    if width >= 1 {
      RowsPresentOf(cells, width, |cells|);
    }
  }

  /** Every record of the walk is produced by one of the sheet's cells. */
  lemma TimetableOrigin(p: Parser, cells: Sheet, width: nat, e: Entry)
    requires Rectangular(cells, width) && Timetable(p, cells, width).Walked?
    requires e in Timetable(p, cells, width).entries
    ensures exists r: nat, c: nat :: Produces(p, cells, width, r, c, e)
  {
    var headers := Headers(cells, width);
    WalkedRows(p, cells, width);
    WalkOrigin(p, cells, headers, |cells|, e);
    var r: nat, h: nat :| 2 <= r < |cells| && FromCell(p, cells, headers, r, h, e);
    ColumnProduces(p, cells, width, r, h, e);
    assert Produces(p, cells, width, r, headers[h].0, e);
  }

  /** The label, day name, cell text and decoded record a record of the walk comes from. */
  lemma EntrySource(p: Parser, cells: Sheet, width: nat, e: Entry) returns (period: string, name: string, text: string, info: CourseInfo)
    requires Rectangular(cells, width) && Timetable(p, cells, width).Walked?
    requires e in Timetable(p, cells, width).entries
    ensures p.slots(period) != [] && p.weekday(name) != 0 && info in p.decode(text)
    ensures e == Tagged(info, p.weekday(name), p.slots(period))
  {
    TimetableOrigin(p, cells, width, e);
    var r: nat, c: nat :| Produces(p, cells, width, r, c, e);
    period, name, text := cells[r][0].value, cells[1][c].value, cells[r][c].value;
    info :| info in p.decode(text) && e == Tagged(info, p.weekday(name), RowSlots(p, cells[r][0]));
  }

  /** Every record a cell of the sheet produces is in the walk. */
  lemma TimetableComplete(p: Parser, cells: Sheet, width: nat, r: nat, c: nat, e: Entry)
    requires Rectangular(cells, width) && Produces(p, cells, width, r, c, e)
    ensures Timetable(p, cells, width).Walked? && e in Timetable(p, cells, width).entries
  {
    var headers := Headers(cells, width);
    assert (c, cells[1][c].value) in headers;
    var h :| 0 <= h < |headers| && headers[h] == (c, cells[1][c].value);
    ColumnProduces(p, cells, width, r, h, e);
    RowOfMembers(p, cells[r], headers, e);
    WalkedRows(p, cells, width);
    WalkComplete(p, cells, headers, |cells|, r, e);
  }

  /** `for col in range(1, width)` over the header row, collecting the weekday columns. */
  method FindWeekdayColumns(header: seq<Option<string>>, width: nat) returns (weekdays: seq<(nat, string)>)
    requires 1 <= width <= |header|
    ensures weekdays == WeekdayColumns(header, width)
  {
    weekdays := [];
    for col := 1 to width
      invariant weekdays == WeekdayColumns(header, col)
    {
      if header[col].Some? && Contains(header[col].value, "星期") {
        weekdays := weekdays + [(col, header[col].value)];
      }
    }
  }

  /** The innermost loop: append each decoded record with its weekday and period numbers. */
  method TagRecords(infos: seq<CourseInfo>, weekday: int, indexes: seq<int>) returns (out: seq<Entry>)
    ensures out == Tag(infos, weekday, indexes)
  {
    out := [];
    for k := 0 to |infos|
      invariant out == Tag(infos[..k], weekday, indexes)
    {
      out := out + [Tagged(infos[k], weekday, indexes)];
    }
    assert infos[..|infos|] == infos;
  }

  /** One pass of the loop over the weekday columns: decode the row's cell under that column and tag its records. */
  method WalkCell(p: Parser, row: seq<Option<string>>, headers: seq<(nat, string)>, indexes: seq<int>, h: nat, out: seq<Entry>)
    returns (next: seq<Entry>)
    requires h < |headers| && out == RowEntries(p, row, headers, indexes, h)
    ensures next == RowEntries(p, row, headers, indexes, h + 1)
  {
    var (col, name) := headers[h];
    var cell := [];
    if col < |row| {
      match row[col]
      case None =>
      case Some(text) =>
        var weekday := p.weekday(name);
        if weekday != 0 {
          cell := TagRecords(p.decode(text), weekday, indexes);
        }
    }
    next := out + cell;
  }

  /** The loop over the weekday columns of one row. */
  method WalkRow(p: Parser, row: seq<Option<string>>, headers: seq<(nat, string)>, indexes: seq<int>) returns (out: seq<Entry>)
    ensures out == RowEntries(p, row, headers, indexes, |headers|)
  {
    out := [];
    for h := 0 to |headers|
      invariant out == RowEntries(p, row, headers, indexes, h)
    {
      out := WalkCell(p, row, headers, indexes, h, out);
    }
  }

  /** The whole walk: the header row first, then rows 2 onwards. */
  method WalkTimetable(p: Parser, cells: Sheet, width: nat) returns (result: Walk)
    requires Rectangular(cells, width)
    ensures result == Timetable(p, cells, width)
  {
    var weekdays := [];
    if width >= 2 {
      if |cells| < 2 {
        return IndexError;
      }
      weekdays := FindWeekdayColumns(cells[1], width);
    }
    if width == 0 && |cells| > 2 {
      return IndexError;
    }
    var courses := [];
    if |cells| > 2 {
      for r := 2 to |cells|
        invariant RowsPresent(cells, r)
        invariant courses == WalkRows(p, cells, weekdays, r)
      {
        var indexes := RowSlots(p, cells[r][0]);
        if indexes != [] {
          var entries := WalkRow(p, cells[r], weekdays, indexes);
          courses := courses + entries;
        }
      }
    }
    result := Walked(courses);
  }
}
