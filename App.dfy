/**
 * The viewer's page state and the logic under its markup: the option lists of
 * the four filters, the row filter, the link form, week navigation and the
 * choice of what the main panel shows.
 */
module App {
  import opened Wrappers
  import opened Rows
  import Seqs
  import StringOrder
  import Calendar
  import DateUtils

  const SampleSheetUrl: string :=
    "https://docs.google.com/spreadsheets/d/1oK3_Hkfx7SMDrCfNUn3VhAPbca6PL2lIEBQhUydS6oM/edit?gid=0"

  /** The non-empty values `column` takes in `rows`. */
  function ColumnValues(rows: seq<Row>, column: string): set<string>
  {
    if rows == [] then {}
    else
      var last := rows[|rows| - 1];
      ColumnValues(rows[..|rows| - 1], column)
      + (match Lookup(last, column) case Some(v) => if v != "" then {v} else {} case None => {})
  }

  /** A value is listed exactly when it is non-empty and some row holds it in the column. */
  lemma {:induction false} ColumnValuesIff(rows: seq<Row>, column: string, v: string)
    ensures v in ColumnValues(rows, column) <==>
      v != "" && exists i :: 0 <= i < |rows| && Lookup(rows[i], column) == Some(v)
  {
    if rows != [] {
      var init := rows[..|rows| - 1];
      ColumnValuesIff(init, column, v);
      if v != "" && (exists i :: 0 <= i < |init| && Lookup(init[i], column) == Some(v)) {
        var i :| 0 <= i < |init| && Lookup(init[i], column) == Some(v);
        assert rows[i] == init[i];
      }
      if v != "" && (exists i :: 0 <= i < |rows| && Lookup(rows[i], column) == Some(v)) {
        var i :| 0 <= i < |rows| && Lookup(rows[i], column) == Some(v);
        if i < |init| {
          assert init[i] == rows[i];
        }
      }
    }
  }

  /** `if (row[column]) set.add(row[column])`, the set kept in insertion order. */
  function AddCell(acc: seq<string>, row: Row, column: string): seq<string> {
    match Lookup(row, column)
    case Some(v) => if v != "" && v !in acc then acc + [v] else acc
    case None => acc
  }

  /** `acc` holds the column's values for `rows`, each once. */
  ghost predicate Collects(acc: seq<string>, rows: seq<Row>, column: string) {
    StringOrder.NoRepeats(acc) && forall v :: v in acc <==> v in ColumnValues(rows, column)
  }

  /** The option list of a filter: the column's values for `rows`, each once, in ascending order. */
  ghost predicate ListsColumn(out: seq<string>, rows: seq<Row>, column: string) {
    StringOrder.StrictlySorted(out) && forall v :: v in out <==> v in ColumnValues(rows, column)
  }

  lemma CollectStep(acc: seq<string>, rows: seq<Row>, i: nat, column: string)
    requires i < |rows| && Collects(acc, rows[..i], column)
    ensures Collects(AddCell(acc, rows[i], column), rows[..i + 1], column)
  {
    assert rows[..i + 1][..i] == rows[..i];
    var acc' := AddCell(acc, rows[i], column);
    if acc' != acc {
      var v := acc'[|acc|];
      assert acc' == acc + [v] && v !in acc;
      assert multiset(acc') == multiset(acc) + multiset{v};
    }
  }

  /**
   * The four option lists (the `useMemo` over `data`): collect each column's
   * non-empty values in one pass, then sort each list.
   */
  method DistinctValues(data: Option<seq<Row>>)
    returns (designations: seq<string>, nationalities: seq<string>, storeNames: seq<string>, employeeNames: seq<string>)
    ensures data.None? ==> designations == [] && nationalities == [] && storeNames == [] && employeeNames == []
    ensures data.Some? ==>
      ListsColumn(designations, data.value, DesignationColumn)
      && ListsColumn(nationalities, data.value, NationalityColumn)
      && ListsColumn(storeNames, data.value, StoreNameColumn)
      && ListsColumn(employeeNames, data.value, EmployeeNameColumn)
  {
    if data.None? {
      return [], [], [], [];
    }
    var rows := data.value;
    var d, n, s, e := [], [], [], [];
    for i := 0 to |rows|
      invariant Collects(d, rows[..i], DesignationColumn)
      invariant Collects(n, rows[..i], NationalityColumn)
      invariant Collects(s, rows[..i], StoreNameColumn)
      invariant Collects(e, rows[..i], EmployeeNameColumn)
    {
      CollectStep(d, rows, i, DesignationColumn);
      CollectStep(n, rows, i, NationalityColumn);
      CollectStep(s, rows, i, StoreNameColumn);
      CollectStep(e, rows, i, EmployeeNameColumn);
      var row := rows[i];
      d := AddCell(d, row, DesignationColumn);
      n := AddCell(n, row, NationalityColumn);
      s := AddCell(s, row, StoreNameColumn);
      e := AddCell(e, row, EmployeeNameColumn);
    }
    assert rows[..|rows|] == rows;
    StringOrder.SortStrict(d);
    StringOrder.SortStrict(n);
    StringOrder.SortStrict(s);
    StringOrder.SortStrict(e);
    designations := StringOrder.Sort(d);
    nationalities := StringOrder.Sort(n);
    storeNames := StringOrder.Sort(s);
    employeeNames := StringOrder.Sort(e);
  }

  /** The option list of a column is determined by the rows: there is only one list that fits. */
  lemma ListsColumnUnique(a: seq<string>, b: seq<string>, rows: seq<Row>, column: string)
    requires ListsColumn(a, rows, column) && ListsColumn(b, rows, column)
    ensures a == b
  {
    StringOrder.StrictlySortedUnique(a, b);
  }

  /** The four filter selections. */
  datatype Selections = Selections(
    designations: seq<string>, nationalities: seq<string>, storeNames: seq<string>, employeeNames: seq<string>)

  predicate NoFilters(sel: Selections) {
    |sel.designations| == 0 && |sel.nationalities| == 0 && |sel.storeNames| == 0 && |sel.employeeNames| == 0
  }

  /** One category passes: nothing selected, or the row's value in the column is selected. */
  predicate Matches(selected: seq<string>, row: Row, column: string) {
    |selected| == 0 || (column in row.cells && row.cells[column] in selected)
  }

  /** All four categories pass (AND across categories, OR within one). */
  predicate Keep(sel: Selections, row: Row) {
    Matches(sel.designations, row, DesignationColumn)
    && Matches(sel.nationalities, row, NationalityColumn)
    && Matches(sel.storeNames, row, StoreNameColumn)
    && Matches(sel.employeeNames, row, EmployeeNameColumn)
  }

  /** `filteredData`. */
  function FilteredData(data: Option<seq<Row>>, sel: Selections): (r: Option<seq<Row>>)
    ensures r.None? <==> data.None?
    ensures NoFilters(sel) ==> r == data
  {
    if data.None? then None
    else if NoFilters(sel) then data
    else Some(Seqs.Filter(data.value, row => Keep(sel, row)))
  }

  /** A row is kept exactly when it is in the data and passes every category. */
  lemma FilteredDataMembership(data: seq<Row>, sel: Selections, row: Row)
    ensures row in FilteredData(Some(data), sel).value <==> row in data && Keep(sel, row)
  {
    if NoFilters(sel) {
      assert Keep(sel, row);
    } else {
      Seqs.FilterMembership(data, row => Keep(sel, row), row);
    }
  }

  /** The kept rows are in their original order. */
  lemma FilteredDataInOrder(data: seq<Row>, sel: Selections)
    ensures Seqs.IsSubsequence(FilteredData(Some(data), sel).value, data)
  {
    if NoFilters(sel) {
      Seqs.FilterKeepsAll(data, row => Keep(sel, row));
    }
    Seqs.FilterIsSubsequence(data, row => Keep(sel, row));
  }

  /** With no filter set, the short cut and the filter agree: every row is kept. */
  lemma NoFiltersKeepsAll(data: seq<Row>, sel: Selections)
    requires NoFilters(sel)
    ensures FilteredData(Some(data), sel) == Some(data)
    ensures Seqs.Filter(data, row => Keep(sel, row)) == data
  {
    Seqs.FilterKeepsAll(data, row => Keep(sel, row));
  }

  /** `addWeeks`: a copy of the date moved by `weeks` weeks through `setDate`. */
  method AddWeeks(date: int, weeks: int) returns (r: int)
    ensures r == date + 7 * weeks
    ensures Calendar.Weekday(r) == Calendar.Weekday(date)
    ensures DateUtils.WeekStart(r) == DateUtils.WeekStart(date) + 7 * weeks
  {
    var newDate := new Calendar.JsDate(date);
    newDate.SetDate(newDate.GetDate() + weeks * 7);
    r := newDate.time;
    DateUtils.WeeksLater(date, weeks, r);
  }

  /** What the main panel shows. */
  datatype View = Spinner | ErrorView(message: string) | Table(rows: seq<Row>) | NoMatchingResults | InfoPanel

  /** `renderContent`. */
  function RenderContent(loading: bool, error: Option<string>, data: Option<seq<Row>>,
                         filtered: Option<seq<Row>>, sel: Selections): View
  {
    if loading then Spinner
    else if error.Some? && error.value != "" then ErrorView(error.value)
    else if data.Some? then
      if filtered.Some? && |filtered.value| > 0 then Table(filtered.value)
      else if |data.value| > 0 && !NoFilters(sel) then NoMatchingResults
      else Table(data.value)
    else InfoPanel
  }

  /** The main area: the information panel until a link has been submitted. */
  function MainContent(submittedUrl: string, loading: bool, error: Option<string>, data: Option<seq<Row>>,
                       sel: Selections): View
  {
    if submittedUrl == "" then InfoPanel
    else RenderContent(loading, error, data, FilteredData(data, sel), sel)
  }

  /**
   * Precedence of the main panel: loading over error, error over data, and the
   * information panel without data.
   */
  lemma RenderPrecedence(loading: bool, error: Option<string>, data: Option<seq<Row>>, sel: Selections)
    ensures var v := RenderContent(loading, error, data, FilteredData(data, sel), sel);
      (loading ==> v == Spinner)
      && (!loading && error.Some? && error.value != "" ==> v == ErrorView(error.value))
      && (!loading && (error.None? || error.value == "") && data.None? ==> v == InfoPanel)
  {
  }

  /**
   * "No Matching Results" appears exactly when there are rows, a filter is set,
   * no row passes, and nothing with higher precedence is on show.
   */
  lemma NoMatchingResultsIff(loading: bool, error: Option<string>, data: Option<seq<Row>>, sel: Selections)
    ensures RenderContent(loading, error, data, FilteredData(data, sel), sel) == NoMatchingResults <==>
      !loading && (error.None? || error.value == "") && data.Some? && |data.value| > 0
      && !NoFilters(sel) && |FilteredData(data, sel).value| == 0
  {
  }

  /** Whenever the table is shown, it shows exactly the filtered rows. */
  lemma TableShowsFilteredRows(loading: bool, error: Option<string>, data: Option<seq<Row>>, sel: Selections)
    requires RenderContent(loading, error, data, FilteredData(data, sel), sel).Table?
    ensures RenderContent(loading, error, data, FilteredData(data, sel), sel).rows == FilteredData(data, sel).value
  {
    var rows := data.value;
    if |rows| == 0 && !NoFilters(sel) {
      assert |FilteredData(data, sel).value| <= 0;
    }
  }

  /** The page state. */
  class AppState {
    var sheetUrl: string
    var submittedUrl: string
    var currentDate: int
    var selectedDesignations: seq<string>
    var selectedNationalities: seq<string>
    var selectedStoreNames: seq<string>
    var selectedEmployeeNames: seq<string>

    /** The sample sheet, loaded, and the week of 9 December 2024. */
    constructor ()
      ensures sheetUrl == SampleSheetUrl && submittedUrl == SampleSheetUrl
      ensures currentDate == Calendar.DayNumber(Calendar.CivilDate(2024, 12, 9))
      ensures NoFilters(Selected())
    {
      sheetUrl := SampleSheetUrl;
      submittedUrl := SampleSheetUrl;
      currentDate := Calendar.DayNumber(Calendar.CivilDate(2024, 12, 9));
      selectedDesignations := [];
      selectedNationalities := [];
      selectedStoreNames := [];
      selectedEmployeeNames := [];
    }

    function Selected(): Selections
      reads this
    {
      Selections(selectedDesignations, selectedNationalities, selectedStoreNames, selectedEmployeeNames)
    }

    /** Typing in the link field. */
    method SetSheetUrl(url: string)
      modifies this
      ensures sheetUrl == url
      ensures submittedUrl == old(submittedUrl) && currentDate == old(currentDate) && Selected() == old(Selected())
    {
      sheetUrl := url;
    }

    /** `handleUrlSubmit`: clear every filter and load the typed link. */
    method HandleUrlSubmit()
      modifies this
      ensures NoFilters(Selected())
      ensures submittedUrl == sheetUrl && sheetUrl == old(sheetUrl) && currentDate == old(currentDate)
    {
      selectedDesignations := [];
      selectedNationalities := [];
      selectedStoreNames := [];
      selectedEmployeeNames := [];
      submittedUrl := sheetUrl;
    }

    /** The effect on `sheetDate`: a dated sheet moves the view to its date. */
    method ApplySheetDate(sheetDate: Option<int>)
      modifies this
      ensures currentDate == if sheetDate.Some? then sheetDate.value else old(currentDate)
      ensures sheetUrl == old(sheetUrl) && submittedUrl == old(submittedUrl) && Selected() == old(Selected())
    {
      if sheetDate.Some? {
        currentDate := sheetDate.value;
      }
    }

    /** `goToPreviousWeek`. */
    method GoToPreviousWeek()
      modifies this
      ensures currentDate == old(currentDate) - 7
      ensures DateUtils.WeekStart(currentDate) == DateUtils.WeekStart(old(currentDate)) - 7
      ensures sheetUrl == old(sheetUrl) && submittedUrl == old(submittedUrl) && Selected() == old(Selected())
    {
      currentDate := AddWeeks(currentDate, -1);
    }

    /** `goToNextWeek`: undoes `goToPreviousWeek`. */
    method GoToNextWeek()
      modifies this
      ensures currentDate == old(currentDate) + 7
      ensures DateUtils.WeekStart(currentDate) == DateUtils.WeekStart(old(currentDate)) + 7
      ensures sheetUrl == old(sheetUrl) && submittedUrl == old(submittedUrl) && Selected() == old(Selected())
    {
      currentDate := AddWeeks(currentDate, 1);
    }

    /** `goToToday`, the clock's reading passed in. */
    method GoToToday(today: int)
      modifies this
      ensures currentDate == today
      ensures sheetUrl == old(sheetUrl) && submittedUrl == old(submittedUrl) && Selected() == old(Selected())
    {
      currentDate := today;
    }

    /**
     * The displayed week (`weekStart` and `weekDays`): Monday to Sunday of the
     * week holding the current date.
     */
    method Week() returns (weekStart: int, weekDays: seq<int>)
      ensures weekStart == DateUtils.WeekStart(currentDate)
      ensures |weekDays| == 7 && forall i :: 0 <= i < 7 ==> weekDays[i] == weekStart + i
      ensures Calendar.Weekday(weekDays[0]) == 1 && currentDate in weekDays
    {
      weekStart := DateUtils.GetWeekStartDate(currentDate);
      weekDays := DateUtils.GetWeekDays(weekStart);
      assert weekDays[currentDate - weekStart] == currentDate;
    }
  }
}
