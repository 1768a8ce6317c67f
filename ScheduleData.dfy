/**
 * The data hook: five pieces of state (`data`, `sheetDate`, `loading`, `error`,
 * `lastUpdated`) and the fetch that updates them. The network request itself is
 * not modelled: its outcome is handed to the fetch as a value, and so are the
 * current time and the host's own date parser.
 */
module ScheduleData {
  import opened Wrappers
  import opened Text
  import opened Rows
  import Csv
  import SheetUrl
  import DateUtils

  /** What `fetch` produced: a response with its status and body text, or a thrown `TypeError`. */
  datatype FetchOutcome = Response(status: int, body: string) | NetworkError

  /** `response.ok`: a status in the range 200 to 299. */
  predicate IsOk(outcome: FetchOutcome) {
    outcome.Response? && 200 <= outcome.status <= 299
  }

  const AccessDeniedMessage: string :=
    "Access Denied (Error 403). "
    + "Please make sure your Google Sheet's sharing setting is 'Anyone with the link can view', "
    + "or use the 'File > Share > Publish to web' option for the most reliable results."
  const StatusPrefix: string := "The server responded with status "
  const StatusSuffix: string := ". Please ensure the URL is correct and the sheet is publicly accessible."
  const NetworkMessage: string :=
    "Could not fetch data "
    + "due to a network or CORS error. "
    + "This can happen if the link is incorrect or blocked. "
    + "For Google Sheets, the most reliable method is to use the 'File > Share > Publish to web' feature "
    + "and provide the generated CSV link."

  /** The message of the error thrown for a non-ok status. */
  function StatusMessage(status: int): string {
    StatusPrefix + IntToString(status) + StatusSuffix
  }

  /**
   * The friendly message the catch block settles on for a failed fetch. Every
   * message is non-empty, so the "unknown error" default never applies.
   */
  function FailureMessage(outcome: FetchOutcome): (m: string)
    requires !IsOk(outcome)
    ensures m != ""
  {
    match outcome
    case NetworkError => NetworkMessage
    case Response(status, _) => if status == 403 then AccessDeniedMessage else StatusMessage(status)
  }

  /** The first letter of each message: `C`ould not, `A`ccess, `T`he server. */
  lemma FailureMessageHead(o: FetchOutcome)
    requires !IsOk(o)
    ensures FailureMessage(o)[0] == if o.NetworkError? then 'C' else if o.status == 403 then 'A' else 'T'
  {
    if o.Response? && o.status != 403 {
      var m := StatusMessage(o.status);
      assert m == StatusPrefix + (IntToString(o.status) + StatusSuffix);
      assert m[0] == StatusPrefix[0] == 'T';
      assert FailureMessage(o) == m;
    } else if o.Response? {
      assert FailureMessage(o) == AccessDeniedMessage;
      assert AccessDeniedMessage[0] == 'A';
    } else {
      assert NetworkMessage[0] == 'C';
    }
  }

  /** Two failures a user cannot tell apart from the message: the same cause, and the same status. */
  predicate SameFailure(a: FetchOutcome, b: FetchOutcome) {
    (a.NetworkError? && b.NetworkError?) || (a.Response? && b.Response? && a.status == b.status)
  }

  /** The status numeral is recovered from a status message. */
  lemma StatusMessageInjective(a: nat, b: nat)
    requires StatusMessage(a) == StatusMessage(b)
    ensures a == b
  {
    var sa, sb := NatToString(a), NatToString(b);
    var p := |StatusPrefix|;
    assert |sa| == |sb|;
    assert sa == StatusMessage(a)[p..p + |sa|];
    assert sb == StatusMessage(b)[p..p + |sb|];
  }

  /**
   * The error message tells the failure causes apart: two failed fetches (with
   * non-negative statuses) show the same message exactly when they failed the
   * same way.
   */
  lemma FailureMessageDistinguishes(a: FetchOutcome, b: FetchOutcome)
    requires !IsOk(a) && !IsOk(b)
    requires a.Response? ==> a.status >= 0
    requires b.Response? ==> b.status >= 0
    ensures FailureMessage(a) == FailureMessage(b) <==> SameFailure(a, b)
  {
    FailureMessageHead(a);
    FailureMessageHead(b);
    if FailureMessage(a) == FailureMessage(b) && a.Response? && b.Response? && a.status != 403 {
      StatusMessageInjective(a.status, b.status);
    }
  }

  /** The reserved column that dates the sheet. */
  const ReservedColumn: string := "WEEK_START_DATE"

  /** `h.toUpperCase().trim() === 'WEEK_START_DATE'`. */
  predicate IsWeekStartColumn(h: string) {
    Trim(ToUpper(h)) == ReservedColumn
  }

  /** `headers.find(...)` from position `k` on: the index of the first header naming the reserved column. */
  function FindWeekStartColumn(headers: seq<string>, k: nat): (r: Option<nat>)
    ensures r.Some? ==> k <= r.value < |headers| && IsWeekStartColumn(headers[r.value])
    ensures forall j :: k <= j < |headers| && (r.None? || j < r.value) ==> !IsWeekStartColumn(headers[j])
    decreases |headers| - k
  {
    if k >= |headers| then None
    else if IsWeekStartColumn(headers[k]) then Some(k)
    else FindWeekStartColumn(headers, k + 1)
  }

  /**
   * The date the sheet announces: the first row's cell in the first reserved
   * column, read by the flexible parser; none without rows, without such a
   * column, with an empty cell or with a cell the parser rejects.
   */
  function SheetDateOf(rows: seq<Row>, native: string -> Option<int>): Option<int> {
    if |rows| == 0 then None
    else match FindWeekStartColumn(rows[0].keys, 0)
      case None => None
      case Some(i) =>
        match Lookup(rows[0], rows[0].keys[i])
        case Some(v) => if v != "" then DateUtils.ParseFlexibleDate(v, native) else None
        case None => None
  }

  /** A sheet with a non-empty reserved cell in its first row is dated by that cell. */
  lemma SheetDateFromReservedCell(rows: seq<Row>, i: nat, native: string -> Option<int>)
    requires |rows| > 0 && i < |rows[0].keys| && WellFormed(rows[0])
    requires IsWeekStartColumn(rows[0].keys[i])
    requires forall j :: 0 <= j < i ==> !IsWeekStartColumn(rows[0].keys[j])
    requires rows[0].cells[rows[0].keys[i]] != ""
    ensures SheetDateOf(rows, native) == DateUtils.ParseFlexibleDate(rows[0].cells[rows[0].keys[i]], native)
  {
    var r := FindWeekStartColumn(rows[0].keys, 0);
    assert r == Some(i);
  }

  /** Without a reserved column there is no sheet date. */
  lemma NoReservedColumnNoDate(rows: seq<Row>, native: string -> Option<int>)
    requires |rows| > 0
    requires forall j :: 0 <= j < |rows[0].keys| ==> !IsWeekStartColumn(rows[0].keys[j])
    ensures SheetDateOf(rows, native) == None
  {
  }

  class ScheduleState {
    /** The sheet link the hook was given. */
    const url: string
    var data: Option<seq<Row>>
    var sheetDate: Option<int>
    var loading: bool
    var error: Option<string>
    var lastUpdated: Option<int>

    /** An error is only on show when no rows are, and never while loading. */
    predicate Valid()
      reads this
    {
      error.Some? ==> data.None? && !loading
    }

    /** The initial state of the hook. */
    constructor (url: string)
      ensures this.url == url
      ensures data == None && sheetDate == None && !loading && error == None && lastUpdated == None
      ensures Valid()
    {
      this.url := url;
      data := None;
      sheetDate := None;
      loading := false;
      error := None;
      lastUpdated := None;
    }

    /** Before the request: the spinner for a foreground fetch, and any old error cleared (even in the background). */
    method BeginFetch(isBackground: bool)
      modifies this
      ensures loading == (if isBackground then old(loading) else true)
      ensures error == None
      ensures data == old(data) && sheetDate == old(sheetDate) && lastUpdated == old(lastUpdated)
    {
      if !isBackground {
        loading := true;
      }
      error := None;
    }

    /** The `try`/`catch`/`finally` after the request, given its outcome and the time it completed. */
    method CompleteFetch(isBackground: bool, outcome: FetchOutcome, now: int, native: string -> Option<int>)
      requires error == None
      modifies this
      ensures Valid()
      ensures IsOk(outcome) ==>
        var rows := Csv.ParseCsv(outcome.body);
        data == Some(rows) && sheetDate == SheetDateOf(rows, native) && lastUpdated == Some(now)
        && error == None && loading == (if isBackground then old(loading) else false)
      ensures !IsOk(outcome) && !isBackground ==>
        error == Some(FailureMessage(outcome)) && data == None && !loading
        && sheetDate == old(sheetDate) && lastUpdated == old(lastUpdated)
      ensures !IsOk(outcome) && isBackground ==>
        error == None && data == old(data) && loading == old(loading)
        && sheetDate == old(sheetDate) && lastUpdated == old(lastUpdated)
    {
      if IsOk(outcome) {
        var rows := Csv.ParseCsv(outcome.body);
        var parsedSheetDate := SheetDateOf(rows, native);
        data := Some(rows);
        sheetDate := parsedSheetDate;
        lastUpdated := Some(now);
      } else {
        var friendlyError := FailureMessage(outcome);
        if !isBackground {
          error := Some(friendlyError);
          data := None;
        }
      }
      if !isBackground {
        loading := false;
      }
    }

    /**
     * `fetchData(isBackground)`. Returns the address requested, or nothing when
     * there is no link and so no request.
     */
    method FetchData(isBackground: bool, outcome: FetchOutcome, now: int, native: string -> Option<int>)
      returns (request: Option<string>)
      requires Valid()
      modifies this
      ensures Valid()
      ensures url == "" ==>
        request == None && data == None && error == None && sheetDate == None
        && loading == old(loading) && lastUpdated == old(lastUpdated)
      ensures url != "" ==> request == Some(SheetUrl.ConvertGoogleSheetUrl(url))
      ensures url != "" && IsOk(outcome) ==>
        var rows := Csv.ParseCsv(outcome.body);
        data == Some(rows) && sheetDate == SheetDateOf(rows, native) && lastUpdated == Some(now)
        && error == None && loading == (if isBackground then old(loading) else false)
      ensures url != "" && !IsOk(outcome) && !isBackground ==>
        error == Some(FailureMessage(outcome)) && data == None && !loading
        && sheetDate == old(sheetDate) && lastUpdated == old(lastUpdated)
      ensures url != "" && !IsOk(outcome) && isBackground ==>
        error == None && data == old(data) && loading == old(loading)
        && sheetDate == old(sheetDate) && lastUpdated == old(lastUpdated)
    {
      if url == "" {
        data := None;
        error := None;
        sheetDate := None;
        return None;
      }
      BeginFetch(isBackground);
      request := Some(SheetUrl.ConvertGoogleSheetUrl(url));
      CompleteFetch(isBackground, outcome, now, native);
    }

    /** `refetch`: a foreground fetch. */
    method Refetch(outcome: FetchOutcome, now: int, native: string -> Option<int>) returns (request: Option<string>)
      requires Valid()
      modifies this
      ensures Valid()
      ensures url == "" ==>
        request == None && data == None && error == None && sheetDate == None
        && loading == old(loading) && lastUpdated == old(lastUpdated)
      ensures url != "" ==> !loading && request == Some(SheetUrl.ConvertGoogleSheetUrl(url))
      ensures url != "" && IsOk(outcome) ==>
        var rows := Csv.ParseCsv(outcome.body);
        data == Some(rows) && sheetDate == SheetDateOf(rows, native) && lastUpdated == Some(now)
        && error == None
      ensures url != "" && !IsOk(outcome) ==>
        error == Some(FailureMessage(outcome)) && data == None
        && sheetDate == old(sheetDate) && lastUpdated == old(lastUpdated)
    {
      request := FetchData(false, outcome, now, native);
    }
  }
}
