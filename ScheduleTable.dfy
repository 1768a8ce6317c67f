/**
 * The schedule table: which headers of the sheet become columns, how a column
 * named after a weekday is headed by the matching date of the week on show,
 * the labels of the other columns, the cells of each row, and the flag that
 * highlights a store manager's row.
 */
module ScheduleTable {
  import opened Wrappers
  import Seqs
  import opened Text
  import opened Rows
  import opened Calendar
  import opened DateUtils
  import ScheduleData

  /** The head of one column: a weekday with its date, or a text label. */
  datatype HeaderCell = DayColumn(header: DayHeader) | LabelColumn(text: string)

  /** One rendered row: whether it is highlighted, and its cell texts in column order. */
  datatype BodyRow = BodyRow(storeManager: bool, cells: seq<string>)

  /** What the component shows: the empty-sheet notice, or the grid. */
  datatype Table =
    | NoScheduleData
    | Grid(columns: seq<string>, head: seq<HeaderCell>, body: seq<BodyRow>)

  /** A header that is not the hidden reserved column. */
  predicate IsShownColumn(h: string) {
    !ScheduleData.IsWeekStartColumn(h)
  }

  /** The headers that become columns: the first row's keys, in order, without the reserved column. */
  function Columns(firstRow: Row): (cols: seq<string>)
    ensures forall i :: 0 <= i < |cols| ==> IsShownColumn(cols[i])
  {
    Seqs.Filter(firstRow.keys, IsShownColumn)
  }

  /** A key becomes a column exactly when it is not the reserved column, and the columns keep the key order. */
  lemma ColumnsProjection(firstRow: Row, h: string)
    ensures h in Columns(firstRow) <==> h in firstRow.keys && IsShownColumn(h)
    ensures Seqs.IsSubsequence(Columns(firstRow), firstRow.keys)
  {
    Seqs.FilterMembership(firstRow.keys, IsShownColumn, h);
    Seqs.FilterIsSubsequence(firstRow.keys, IsShownColumn);
  }

  /** `weekDays.map(getDayOfWeekIdentifier)`. */
  function DayIdentifiersOf(weekDays: seq<int>): (ids: seq<string>)
    ensures |ids| == |weekDays|
    ensures forall i :: 0 <= i < |ids| ==> ids[i] == DayIdentifiers[Weekday(weekDays[i])]
  {
    seq(|weekDays|, i requires 0 <= i < |weekDays| => GetDayOfWeekIdentifier(weekDays[i]))
  }

  /**
   * The head of the column `header`: the day header of the first week day
   * whose identifier is the lower-cased header, otherwise the header with every
   * `_` shown as a space.
   */
  function HeaderCellOf(header: string, weekDays: seq<int>): HeaderCell {
    var dayIndex := Seqs.IndexOf(DayIdentifiersOf(weekDays), ToLower(header));
    if dayIndex != -1 then DayColumn(FormatDayHeader(weekDays[dayIndex]))
    else LabelColumn(ReplaceChar(header, '_', ' '))
  }

  /** The text a cell shows: the row's value under the header, nothing when the row lacks it. */
  function CellText(row: Row, header: string): string {
    match Lookup(row, header)
    case Some(v) => v
    case None => ""
  }

  const StoreManagerWords: string := "store manager"

  /** `row['DESIGNATION']?.toLowerCase().includes('store manager')`. */
  predicate IsStoreManager(row: Row) {
    match Lookup(row, DesignationColumn)
    case Some(v) => Contains(ToLower(v), StoreManagerWords)
    case None => false
  }

  /** One row of the body: one cell per column, in column order. */
  function BodyRowOf(row: Row, columns: seq<string>): (b: BodyRow)
    ensures b.storeManager == IsStoreManager(row)
    ensures |b.cells| == |columns|
    ensures forall j :: 0 <= j < |columns| ==>
      (b.cells[j] == if columns[j] in row.cells then row.cells[columns[j]] else "")
  {
    BodyRow(IsStoreManager(row), seq(|columns|, j requires 0 <= j < |columns| => CellText(row, columns[j])))
  }

  /** The component: the notice for an empty sheet, otherwise the head and one body row per data row. */
  function RenderTable(weekDays: seq<int>, scheduleData: seq<Row>): (t: Table)
    ensures t.NoScheduleData? <==> |scheduleData| == 0
    ensures t.Grid? ==>
      t.columns == Columns(scheduleData[0])
      && |t.head| == |t.columns|
      && (forall j :: 0 <= j < |t.head| ==> t.head[j] == HeaderCellOf(t.columns[j], weekDays))
      && |t.body| == |scheduleData|
      && (forall i :: 0 <= i < |t.body| ==> t.body[i] == BodyRowOf(scheduleData[i], t.columns))
  {
    if |scheduleData| == 0 then NoScheduleData
    else
      var columns := Columns(scheduleData[0]);
      Grid(columns,
        seq(|columns|, j requires 0 <= j < |columns| => HeaderCellOf(columns[j], weekDays)),
        seq(|scheduleData|, i requires 0 <= i < |scheduleData| => BodyRowOf(scheduleData[i], columns)))
  }

  /** The reserved column never appears in the grid. */
  lemma ReservedColumnHidden(weekDays: seq<int>, scheduleData: seq<Row>, h: string)
    requires RenderTable(weekDays, scheduleData).Grid?
    requires ScheduleData.IsWeekStartColumn(h)
    ensures h !in RenderTable(weekDays, scheduleData).columns
  {
  }

  /** Seven consecutive days fall on seven different weekdays. */
  lemma SevenDaysDistinctIdentifiers(weekDays: seq<int>, i: nat, j: nat)
    requires |weekDays| == 7 && forall k :: 0 <= k < 7 ==> weekDays[k] == weekDays[0] + k
    requires i < j < 7
    ensures DayIdentifiersOf(weekDays)[i] != DayIdentifiersOf(weekDays)[j]
  {
    DayIdentifierIff(weekDays[i], weekDays[j]);
    if Weekday(weekDays[i]) == Weekday(weekDays[j]) {
      SameWeekdayClose(weekDays[i], weekDays[j]);
    }
  }

  /**
   * Over a week of seven consecutive days, a header whose lower-case form is
   * the identifier of day `k` is headed by day `k`'s short name and date.
   */
  lemma DayColumnAlignment(weekDays: seq<int>, header: string, k: nat)
    requires |weekDays| == 7 && forall i :: 0 <= i < 7 ==> weekDays[i] == weekDays[0] + i
    requires k < 7 && ToLower(header) == GetDayOfWeekIdentifier(weekDays[k])
    ensures HeaderCellOf(header, weekDays) == DayColumn(FormatDayHeader(weekDays[k]))
  {
    var ids := DayIdentifiersOf(weekDays);
    var d := Seqs.IndexOf(ids, ToLower(header));
    assert ids[k] == ToLower(header);
    assert d == k by {
      if 0 <= d < k {
        SevenDaysDistinctIdentifiers(weekDays, d, k);
      }
    }
  }

  /**
   * Over a week of seven consecutive days, a column is a day column exactly
   * when its lower-cased header is a weekday identifier; every other column is
   * labelled by its header with the underscores shown as spaces.
   */
  lemma DayColumnIff(weekDays: seq<int>, header: string)
    requires |weekDays| == 7 && forall i :: 0 <= i < 7 ==> weekDays[i] == weekDays[0] + i
    ensures HeaderCellOf(header, weekDays).DayColumn? <==> ToLower(header) in DayIdentifiers
    ensures HeaderCellOf(header, weekDays).LabelColumn? ==>
      HeaderCellOf(header, weekDays).text == ReplaceChar(header, '_', ' ')
  {
    if ToLower(header) in DayIdentifiers {
      var w :| 0 <= w < 7 && DayIdentifiers[w] == ToLower(header);
      IdentifierInWeek(weekDays, w);
    }
  }

  /** Every weekday's identifier is among those of seven consecutive days. */
  lemma IdentifierInWeek(weekDays: seq<int>, w: int)
    requires |weekDays| == 7 && forall i :: 0 <= i < 7 ==> weekDays[i] == weekDays[0] + i
    requires 0 <= w < 7
    ensures DayIdentifiers[w] in DayIdentifiersOf(weekDays)
  {
    var k := (w - Weekday(weekDays[0]) + 7) % 7;
    WeekdayAhead(weekDays[0], w);
    assert weekDays[k] == weekDays[0] + k;
    assert DayIdentifiersOf(weekDays)[k] == DayIdentifiers[w];
  }

  /** A label shows no underscore and keeps every other character in place. */
  lemma LabelHasNoUnderscore(header: string, weekDays: seq<int>)
    requires HeaderCellOf(header, weekDays).LabelColumn?
    ensures '_' !in HeaderCellOf(header, weekDays).text
    ensures |HeaderCellOf(header, weekDays).text| == |header|
    ensures forall i :: 0 <= i < |header| && header[i] != '_' ==> HeaderCellOf(header, weekDays).text[i] == header[i]
  {
  }

  /** A row is highlighted when its designation mentions a store manager, in any letter case. */
  lemma StoreManagerWhenMentioned(row: Row, columns: seq<string>, i: int)
    requires DesignationColumn in row.cells
    requires OccursAt(ToLower(row.cells[DesignationColumn]), StoreManagerWords, i)
    ensures IsStoreManager(row)
    ensures BodyRowOf(row, columns).storeManager
  {
    ContainsIff(ToLower(row.cells[DesignationColumn]), StoreManagerWords);
  }

  /** A row without a designation, or whose designation does not mention a store manager, is not highlighted. */
  lemma NotStoreManagerOtherwise(row: Row, columns: seq<string>)
    requires DesignationColumn in row.cells ==>
      forall i :: 0 <= i ==> !OccursAt(ToLower(row.cells[DesignationColumn]), StoreManagerWords, i)
    ensures !IsStoreManager(row)
    ensures !BodyRowOf(row, columns).storeManager
  {
  }
}
