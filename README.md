# Weekly schedule viewer: a Dafny model of its logic

The viewer reads a staff schedule from a Google Sheet. It turns the sheet's
share link into a CSV export address and fetches the CSV, polling it again in
the background. It decodes the CSV into rows and dates the schedule from a
reserved `WEEK_START_DATE` column. It then shows one week of the schedule as a
table, filtered by four multi-select dropdowns (designation, nationality, store
name, employee name).

This project models the logic under the markup and proves what it promises:

- `Calendar`: the Gregorian calendar behind JavaScript's `Date`. A date is a day
  number (0 is 1970-01-01). `JsDate` is a mutable date moved with `setDate`, and
  `MakeDate` is the `new Date(y, m, d)` constructor with its rollover.
- `DateUtils`: the Monday that starts a week, the seven days of a week, the
  week-range caption, weekday identifiers and day headers, and the flexible
  date parser (`D.M.YYYY`, then `M/D/YYYY`, then the host's parser).
- `Text`, `Seqs`, `StringOrder`: the JavaScript string and array operations the
  code relies on. These are `trim`, `split`, `includes`, ASCII case mapping,
  `replace` of one character, `indexOf`, `filter`, `splice`, and the default
  `sort` order.
- `Rows`, `Csv`: the naive CSV decoder, as written. It does not understand quoting.
- `SheetUrl`: the rewrite of a Google Sheets link into its CSV export address.
- `ScheduleData`: the data hook's five state cells and the fetch that updates
  them. The fetch outcome, the clock and the host date parser are inputs.
- `App`: the filters' option lists, the row filter, the link form, week
  navigation and the choice of what the main panel shows.
- `MultiSelectFilter`: toggling options, the option search, Clear, and the
  open/search-term state of one dropdown.
- `ScheduleTable`: which headers become columns, day-column headers, labels,
  cells and the store-manager highlight.

## Model

| member | source | states |
|---|---|---|
| Text.Trim | hooks/useScheduleData.ts:6 | `trim` leaves no ECMAScript white space or line terminator at either end and never lengthens the string |
| Text.TrimPadded | hooks/useScheduleData.ts:6 | what `trim` returns is a contiguous piece of its input with only white space before and after it, so only end white space is removed |
| Text.TrimKeepsTrimmed | hooks/useScheduleData.ts:9 | trimming a string without white space at its ends leaves it unchanged |
| Text.Split | hooks/useScheduleData.ts:6 | `split` on one character gives at least one piece, no piece holds the separator, and joining the pieces with it gives the input back |
| Text.SplitJoin | hooks/useScheduleData.ts:6 | splitting a join of separator-free pieces gives the pieces back |
| Text.IndexOfSubstring | components/MultiSelectFilter.tsx:49 | `indexOf` finds an occurrence of the needle, and the first one; -1 means there is none |
| Text.ContainsIff | components/MultiSelectFilter.tsx:49 | `includes` holds exactly when the needle occurs at some position |
| Text.ContainsEmpty | components/MultiSelectFilter.tsx:49 | every string includes the empty string |
| Text.ToLower | components/MultiSelectFilter.tsx:49 | `toLowerCase` keeps the length and lower-cases every ASCII letter in place |
| Text.ToUpper | hooks/useScheduleData.ts:82 | `toUpperCase` keeps the length and upper-cases every ASCII letter in place |
| Text.RemoveChar | hooks/useScheduleData.ts:9 | `replace(/"/g, '')` leaves no quote, keeps every other character as often as it occurs, and keeps their order (the result is a subsequence of the input) |
| Text.RemoveCharAppend | hooks/useScheduleData.ts:12 | removing a character from a concatenation removes it from each part |
| Text.ReplaceChar | components/ScheduleTable.tsx:49 | `replace(/_/g, ' ')` keeps the length and changes exactly the underscores |
| Text.DigitsValue | utils/dateUtils.ts:55 | `parseInt` of one, two or four digits is below 10, 100 or 10000 |
| Text.NatToString | utils/dateUtils.ts:29 | the numeral of a number is all digits and reads back as that number |
| Seqs.IndexOf | components/MultiSelectFilter.tsx:36 | `indexOf` gives the first index holding the value, or -1 exactly when the value is absent |
| Seqs.RemoveAt | components/MultiSelectFilter.tsx:42 | `splice(i, 1)` drops element i and keeps the others in order |
| Seqs.Filter | App.tsx:68 | `filter` keeps only elements that pass, as many as pass |
| Seqs.FilterMembership | App.tsx:68 | an element is kept exactly when it is in the input and passes |
| Seqs.FilterIsSubsequence | App.tsx:68 | `filter` keeps the input order |
| Seqs.FilterKeepsAll | App.tsx:59-66 | when every element passes, `filter` returns its input |
| Seqs.FilterAgrees | components/MultiSelectFilter.tsx:47-52 | two tests that agree on every element keep the same elements |
| Seqs.LastIndexOf | hooks/useScheduleData.ts:13-15 | the last index holding the value, or -1 exactly when it is absent |
| Seqs.IndexOfAppend | hooks/useScheduleData.ts:13-16 | appending does not move the first index of anything already present |
| StringOrder.LessIrreflexive | App.tsx:50 | no string sorts before itself |
| StringOrder.LessTransitive | App.tsx:50 | the default sort order is transitive |
| StringOrder.LessTotal | App.tsx:50 | any two different strings are ordered one way or the other |
| StringOrder.Insert | App.tsx:50 | inserting into a sorted list keeps it sorted and adds exactly the element |
| StringOrder.Sort | App.tsx:50-53 | `sort()` gives a sorted permutation of its input |
| StringOrder.SortStrict | App.tsx:50-53 | sorting a list without repeats gives a strictly increasing list of the same values |
| StringOrder.StrictlySortedUnique | App.tsx:50-53 | two strictly increasing lists with the same values are equal |
| Calendar.CivilOf | utils/dateUtils.ts:29 | `getFullYear`/`getMonth`/`getDate` give a valid calendar date whose day number is the date |
| Calendar.CivilOfDayNumber | utils/dateUtils.ts:55 | every valid calendar date is the view of its own day number |
| Calendar.DayNumberInjective | utils/dateUtils.ts:55 | two valid calendar dates with the same day number are the same date |
| Calendar.MakeDateOfCivil | utils/dateUtils.ts:55 | `new Date(y, m - 1, d)` of a valid date with a year outside 0..99 is that date |
| Calendar.Weekday | utils/dateUtils.ts:4 | `getDay` is between 0 (Sunday) and 6 |
| Calendar.JsDate.constructor | utils/dateUtils.ts:3 | `new Date(date)` copies the date |
| Calendar.JsDate.SetDate | utils/dateUtils.ts:14 | `setDate(n)` moves the date by n minus its old day of the month |
| Calendar.SetDateMoves | utils/dateUtils.ts:14 | day n of the year and month of a date, rolled over as the `Date` constructor does, is that same move: n minus the old day of the month |
| DateUtils.WeekStart | utils/dateUtils.ts:2-7 | the week start is a Monday on or before the date and at most six days earlier |
| DateUtils.WeekStartUnique | utils/dateUtils.ts:2-7 | the week start is the only such Monday |
| DateUtils.WeekStartOfSundayAndMonday | utils/dateUtils.ts:4-6 | a Sunday maps to the Monday six days earlier, a Monday to itself |
| DateUtils.WeekStartIdempotent | utils/dateUtils.ts:2-7 | the start of a week starts its own week |
| DateUtils.WeekStartShift | App.tsx:93-99 | moving a date by whole weeks moves its week start by the same amount |
| DateUtils.WeekdayShift | App.tsx:87-91 | moving a date by whole weeks keeps its weekday |
| DateUtils.WeeksLater | App.tsx:87-91 | a day whole weeks away has the same weekday and a week start moved by the same weeks |
| DateUtils.WeekStartOffset | utils/dateUtils.ts:4-5 | stepping back to `getDate() - day + 1`, or six days from a Sunday, is the week start |
| DateUtils.GetWeekStartDate | utils/dateUtils.ts:2-7 | the `setDate` computation on a copy lands on the week start |
| DateUtils.GetWeekDays | utils/dateUtils.ts:10-18 | exactly seven dates, the i-th being the start plus i days |
| DateUtils.MonthNameInjective | utils/dateUtils.ts:25-28 | two month names are equal exactly when the months are |
| DateUtils.FormatDateRange | utils/dateUtils.ts:21-33 | the caption, read from the start date object and its moved copy, is the range label of the start day and of six days later: one month name and the start's year within a month, both month names and the end's year across months |
| DateUtils.SixDaysOn | utils/dateUtils.ts:22-23 | the copy moved with `setDate(getDate() + 6)` is a new date object six days after the start, whatever the month |
| DateUtils.EndOfWeek | utils/dateUtils.ts:22-23 | six days after a date: same month if it fits, else day 1..6 of the next month, January of the next year after December |
| DateUtils.WeekRangeEnds | utils/dateUtils.ts:22-23 | the caption's end date is `EndOfWeek` of its start |
| DateUtils.GetDayOfWeekIdentifier | utils/dateUtils.ts:43-45 | the identifier is the lower-case English name of the date's weekday |
| DateUtils.DayIdentifierIff | utils/dateUtils.ts:43-45 | two dates share an identifier exactly when they share a weekday |
| DateUtils.FormatDayHeader | utils/dateUtils.ts:36-41 | the header is the weekday's three-letter name and the calendar day of the month of that date, in 1..31 |
| DateUtils.TryGroups | utils/dateUtils.ts:52 | a split it accepts has the pattern's shape and glues back to the input |
| DateUtils.MatchNumericDate | utils/dateUtils.ts:52 | a match of `^(\d{1,2})<sep>(\d{1,2})<sep>(\d{4})$` has that shape and its groups glue back to the input |
| DateUtils.MatchNumericDateComplete | utils/dateUtils.ts:52-59 | every string of the pattern's shape matches, capturing exactly its groups |
| DateUtils.ParseEmpty | utils/dateUtils.ts:49 | the empty string parses to null |
| DateUtils.ParseDayFirst | utils/dateUtils.ts:52-56 | `D.M.YYYY` is read day, month, year through `new Date(y, m - 1, d)` |
| DateUtils.ParseMonthFirst | utils/dateUtils.ts:58-63 | `M/D/YYYY` is read month, day, year; the dotted pattern never takes it |
| DateUtils.AbsentSeparatorNoMatch | utils/dateUtils.ts:52 | a string without the separator never matches the pattern for it |
| DateUtils.SlashedNotDotted | utils/dateUtils.ts:52-59 | a date written with slashes is never taken by the dotted pattern |
| DateUtils.ParseFallback | utils/dateUtils.ts:65-71 | the host parser decides exactly the non-empty strings that fit neither pattern; the others parse without it |
| DateUtils.ParseRoundTrip | utils/dateUtils.ts:48-63 | writing a valid date with a four-digit year as `D.M.YYYY` or `M/D/YYYY` and parsing it gives the date back |
| DateUtils.ParseExampleDotted | utils/dateUtils.ts:52-56 | `24.06.2024` is June 24, 2024 |
| DateUtils.ParseExampleSlashed | utils/dateUtils.ts:59-63 | `06/24/2024` is June 24, 2024 |
| DateUtils.ParseExampleCenturyQuirk | utils/dateUtils.ts:55 | `01.01.0099` is January 1, 1999 |
| Rows.Put | hooks/useScheduleData.ts:14 | `obj[key] = value` sets the cell; a new key goes last and an existing key keeps its place |
| Csv.CleanField | hooks/useScheduleData.ts:12 | a cleaned field holds no double quote, and is the trimmed field with exactly its quotes dropped, the other characters kept in order and number |
| Csv.CleanFields | hooks/useScheduleData.ts:9 | one field per comma-separated piece, field `i` being piece `i` cleaned, none holding a quote |
| Csv.BuildRow | hooks/useScheduleData.ts:13-16 | the row's keys are distinct and are exactly the header names |
| Csv.BuildRowLastWins | hooks/useScheduleData.ts:13-15 | a repeated header takes the cell of its last column; a missing or empty cell reads as "" |
| Csv.BuildRowKeyOrder | hooks/useScheduleData.ts:13-16 | the keys come in the order each header name first appears |
| Csv.BuildRowKeysIgnoreValues | hooks/useScheduleData.ts:13-16 | the keys depend on the headers only |
| Csv.DataRows | hooks/useScheduleData.ts:10-17 | one row per data line |
| Csv.DataRowsAt | hooks/useScheduleData.ts:10-17 | row i is built from data line i with the shared header fields |
| Csv.DecodeLines | hooks/useScheduleData.ts:7-18 | no rows for fewer than two lines, otherwise one row per line after the header line |
| Csv.DecodeLinesAt | hooks/useScheduleData.ts:9-17 | row i is built from the header line and line i + 1 |
| Csv.ParseCsv | hooks/useScheduleData.ts:5-19 | no rows when the trimmed text has fewer than two lines, otherwise one row per line after the header |
| Csv.ParseCsvRow | hooks/useScheduleData.ts:10-17 | row i comes from line i + 1: its keys are the headers (the same for every row), and each key's cell is the cleaned field of its last column or "" |
| Csv.BuildRowCells | hooks/useScheduleData.ts:13-15 | every cell is the value of the last column of its header, and quote-free fields give a quote-free row |
| Csv.QuotedPaddingKept | hooks/useScheduleData.ts:12 | trimming comes before quote stripping, so a quoted field without inner quotes reads as its inner text verbatim, padding included |
| Csv.CleanFieldUnquoted | hooks/useScheduleData.ts:12 | a field without quotes is only trimmed |
| Csv.ParseCsvSingleLine | hooks/useScheduleData.ts:7 | a text with no line feed after trimming gives no rows |
| Csv.ParseCsvExample | hooks/useScheduleData.ts:5-19 | `A,B\n1,2\n3,4` decodes to the two rows {A: 1, B: 2} and {A: 3, B: 4} |
| SheetUrl.RunEnd | hooks/useScheduleData.ts:29 | the greedy `+` run ends at the first character outside the class |
| SheetUrl.FirstSheetAt | hooks/useScheduleData.ts:29 | the leftmost match of the sheet-id pattern |
| SheetUrl.FirstGidAt | hooks/useScheduleData.ts:35 | the leftmost match of the grid-id pattern |
| SheetUrl.SheetId | hooks/useScheduleData.ts:29-32 | a sheet id exists exactly when the pattern occurs, is a non-empty run of id characters, and is the whole run of id characters after the leftmost match |
| SheetUrl.Gid | hooks/useScheduleData.ts:35-36 | the grid id is non-empty digits: the whole run of digits after the leftmost match, and "0" when the pattern does not occur |
| SheetUrl.ConvertGoogleSheetUrl | hooks/useScheduleData.ts:22-44 | export and published links are kept, links without a sheet id are kept, others become the export address of their sheet and grid |
| SheetUrl.ExportUrlLayout | hooks/useScheduleData.ts:39 | where the host, sheet path, id, tail and grid id sit in an export address |
| SheetUrl.ExportUrlIsExport | hooks/useScheduleData.ts:24-39 | an export address contains `/export?format=csv`, so converting it keeps it |
| SheetUrl.SheetIdOfExportUrl | hooks/useScheduleData.ts:29-39 | the sheet id read from an export address is the one it was built from |
| SheetUrl.GidOfExportUrl | hooks/useScheduleData.ts:35-39 | the grid id read from an export address is the one it was built from |
| SheetUrl.ConvertIdempotent | hooks/useScheduleData.ts:22-44 | converting twice is converting once |
| SheetUrl.ConvertKeepsSheetAndGrid | hooks/useScheduleData.ts:29-39 | conversion keeps the sheet id and the grid id of a link that has a sheet id |
| ScheduleData.FailureMessage | hooks/useScheduleData.ts:70-103 | every failure has a non-empty message, so the unknown-error default never shows |
| ScheduleData.FailureMessageHead | hooks/useScheduleData.ts:70-103 | a network error, a 403 and any other status get the three different messages |
| ScheduleData.StatusMessageInjective | hooks/useScheduleData.ts:74 | the status message names its status: different statuses give different messages |
| ScheduleData.FailureMessageDistinguishes | hooks/useScheduleData.ts:70-103 | two failures show the same message exactly when both are network errors or both have the same status |
| ScheduleData.FindWeekStartColumn | hooks/useScheduleData.ts:82 | `find` gives the first header whose upper-cased trimmed form is `WEEK_START_DATE` |
| ScheduleData.SheetDateFromReservedCell | hooks/useScheduleData.ts:79-93 | a non-empty first-row cell in the first reserved column dates the sheet through the flexible parser |
| ScheduleData.NoReservedColumnNoDate | hooks/useScheduleData.ts:82-84 | without a reserved column the sheet has no date |
| ScheduleData.ScheduleState.constructor | hooks/useScheduleData.ts:48-52 | every cell starts null and `loading` false |
| ScheduleData.ScheduleState.BeginFetch | hooks/useScheduleData.ts:62-65 | a foreground fetch sets `loading`; the error is cleared even in the background |
| ScheduleData.ScheduleState.CompleteFetch | hooks/useScheduleData.ts:66-114 | success sets data, sheet date and time; a foreground failure sets the message and clears the data; a background failure changes nothing |
| ScheduleData.ScheduleState.FetchData | hooks/useScheduleData.ts:54-115 | no link: data, error and sheet date cleared, no request; otherwise the converted address is requested with the outcomes above; an error never shows beside data or a spinner |
| ScheduleData.ScheduleState.Refetch | hooks/useScheduleData.ts:129-131 | a manual refresh is a foreground fetch: without a link nothing is requested and data, error and sheet date are cleared; with one it ends not loading, and on success holds the parsed rows, their sheet date and the completion time with no error, while on failure it holds the failure message and no data, keeping the old sheet date and update time |
| App.ColumnValuesIff | App.tsx:42-47 | a value is collected exactly when it is non-empty and some row holds it in the column |
| App.CollectStep | App.tsx:42-47 | one loop step adds the row's non-empty value once |
| App.DistinctValues | App.tsx:32-55 | no data gives four empty lists; otherwise each list holds the column's non-empty values, each once, in ascending order |
| App.ListsColumnUnique | App.tsx:49-54 | only one list fits that description |
| App.FilteredData | App.tsx:57-76 | null exactly without data; the data itself without filters |
| App.FilteredDataMembership | App.tsx:68-75 | a row is kept exactly when each category's selection is empty or holds the row's value |
| App.FilteredDataInOrder | App.tsx:68 | the kept rows keep the data order |
| App.NoFiltersKeepsAll | App.tsx:59-66 | without filters the short cut and the filter agree |
| App.AddWeeks | App.tsx:87-91 | the date moves by exactly 7·n days, keeping its weekday and moving its week start by 7·n |
| App.RenderPrecedence | App.tsx:105-134 | loading beats error, error beats data, and without data the information panel shows |
| App.NoMatchingResultsIff | App.tsx:112-128 | "No Matching Results" shows exactly when there are rows, a filter is set and none passes |
| App.TableShowsFilteredRows | App.tsx:113-130 | whenever the table shows, it shows the filtered rows |
| App.AppState.constructor | App.tsx:13-20 | the sample link, loaded; 9 December 2024; no filters |
| App.AppState.SetSheetUrl | App.tsx:151 | typing changes only the link field |
| App.AppState.HandleUrlSubmit | App.tsx:78-85 | submitting empties the four selections and loads the typed link |
| App.AppState.ApplySheetDate | App.tsx:22-26 | a sheet date moves the view to it; none leaves the view |
| App.AppState.GoToPreviousWeek | App.tsx:93-95 | the view moves seven days back, and so does its week |
| App.AppState.GoToNextWeek | App.tsx:97-99 | the view moves seven days on, undoing the previous-week step |
| App.AppState.GoToToday | App.tsx:101-103 | the view moves to the clock's date |
| App.AppState.Week | App.tsx:29-30 | the week on show starts on the Monday of the view date and holds it among its seven days |
| MultiSelectFilter.HandleCheckboxChange | components/MultiSelectFilter.tsx:35-45 | the new selection is the toggled copy of the old one |
| MultiSelectFilter.ToggleAbsentAppends | components/MultiSelectFilter.tsx:36-40 | an unselected option is appended |
| MultiSelectFilter.TogglePresentRemovesFirst | components/MultiSelectFilter.tsx:36-43 | a selected option loses its first occurrence; the rest keep their order |
| MultiSelectFilter.ToggleTwiceRestores | components/MultiSelectFilter.tsx:35-44 | two clicks on an unselected option give the selection back |
| MultiSelectFilter.ToggleFlipsCheck | components/MultiSelectFilter.tsx:35-45 | on a selection without repeats a click flips only the clicked checkbox and keeps the selection free of repeats |
| MultiSelectFilter.FilteredOptions | components/MultiSelectFilter.tsx:47-52 | every listed option matches the search |
| MultiSelectFilter.FilteredOptionsMembership | components/MultiSelectFilter.tsx:47-52 | an option is listed exactly when its lower-case form contains the lower-case term |
| MultiSelectFilter.FilteredOptionsInOrder | components/MultiSelectFilter.tsx:48 | the listed options keep the option order |
| MultiSelectFilter.EmptySearchListsAll | components/MultiSelectFilter.tsx:47-52 | an empty search lists every option |
| MultiSelectFilter.SearchIgnoresCase | components/MultiSelectFilter.tsx:49 | an upper-cased term lists the same options |
| MultiSelectFilter.SummaryLabelIff | components/MultiSelectFilter.tsx:65 | the summary is "All" exactly for an empty selection and otherwise starts with the selection's size |
| MultiSelectFilter.EmptyListMessage | components/MultiSelectFilter.tsx:107-111 | a message shows exactly when no option is listed |
| MultiSelectFilter.EmptyListMessageCases | components/MultiSelectFilter.tsx:107-111 | "No options available" without options, "No results found" otherwise, never for an empty search over options |
| MultiSelectFilter.FilterState.constructor | components/MultiSelectFilter.tsx:11-12 | closed with no search text |
| MultiSelectFilter.FilterState.ResetOnClose | components/MultiSelectFilter.tsx:29-33 | a closed dropdown's search text is emptied |
| MultiSelectFilter.FilterState.ToggleOpen | components/MultiSelectFilter.tsx:57 | the button flips the dropdown, and it is left with no search text |
| MultiSelectFilter.FilterState.Close | components/MultiSelectFilter.tsx:19 | a click outside closes the dropdown and empties its search text |
| MultiSelectFilter.FilterState.SetSearchTerm | components/MultiSelectFilter.tsx:88 | typing sets the search text of the open dropdown |
| MultiSelectFilter.FilterState.Clear | components/MultiSelectFilter.tsx:77-80 | Clear emits an empty selection and empties the search text, leaving the dropdown open |
| MultiSelectFilter.ReopenListsAll | components/MultiSelectFilter.tsx:29-52 | closing and reopening the dropdown lists every option again |
| ScheduleTable.Columns | components/ScheduleTable.tsx:21-23 | no column is the reserved one |
| ScheduleTable.ColumnsProjection | components/ScheduleTable.tsx:21-23 | a key becomes a column exactly when it is not the reserved one, in key order |
| ScheduleTable.DayIdentifiersOf | components/ScheduleTable.tsx:24 | one identifier per week day, that day's weekday name |
| ScheduleTable.BodyRowOf | components/ScheduleTable.tsx:63-67 | one cell per column in column order, showing the row's value or nothing, and the highlight flag is the store-manager test |
| ScheduleTable.RenderTable | components/ScheduleTable.tsx:12-70 | the notice exactly for no rows; otherwise one head per column and one body row per data row |
| ScheduleTable.ReservedColumnHidden | components/ScheduleTable.tsx:21-23 | the reserved column never shows |
| ScheduleTable.SevenDaysDistinctIdentifiers | components/ScheduleTable.tsx:24 | seven consecutive days have seven different identifiers |
| ScheduleTable.DayColumnAlignment | components/ScheduleTable.tsx:24-36 | a header naming day k's weekday is headed by day k's name and date |
| ScheduleTable.IdentifierInWeek | components/ScheduleTable.tsx:24 | every weekday's identifier is among those of seven consecutive days |
| ScheduleTable.DayColumnIff | components/ScheduleTable.tsx:32-50 | a column is a day column exactly when its lower-cased header is a weekday name; others are labelled with `_` shown as spaces |
| ScheduleTable.LabelHasNoUnderscore | components/ScheduleTable.tsx:49 | a label has no underscore and keeps every other character in place |
| ScheduleTable.StoreManagerWhenMentioned | components/ScheduleTable.tsx:57 | a designation containing "store manager" in any ASCII case highlights the row, whatever the columns shown |
| ScheduleTable.NotStoreManagerOtherwise | components/ScheduleTable.tsx:57 | without a designation, or one not containing it, the row is not highlighted, whatever the columns shown |

## Left out

- HTTP `fetch`, `response.text()` and `async`/`await`: the fetch outcome (a status with its body text, or a network `TypeError`) is an input of `FetchData`.
- The 30-second background polling, the interval's clean-up, and the race between an old response and a newer fetch: these are timers and concurrency. A background fetch is `FetchData(true, …)`, and mounting with a link is `Refetch`.
- The host's `new Date(string)` parser: it is a function parameter, so the date it yields for ISO or other strings is not modelled.
- Time zones and daylight saving. Dates are whole local days. In particular, the initial `new Date('2024-12-09')` is parsed as UTC midnight, and west of UTC that falls on 8 December; the model starts on 9 December.
- `TimeClip` and invalid dates: an out-of-range year from the dotted or slashed form is not turned into an invalid date, so the `isNaN` checks always pass in the model.
- Locale-dependent formatting: month names, short weekday names and the "Updated" time use the English tables in the model.
- The clock: "Today" and `lastUpdated` take the time as a parameter.
- The document `mousedown` listener and its registration: only the close it causes is modelled (`FilterState.Close`). `console.error` is not modelled either.
- The JSX markup and styling, the information panel, the spinner and the error box: `View` names what is shown.
- Quoted CSV fields as in RFC 4180, because the decoder does not implement them. A quoted comma splits the field.
- `Object.keys` ordering of integer-like keys, and a `__proto__` header: rows keep the insertion order of their keys.
- Case mapping beyond ASCII letters: `toLowerCase`/`toUpperCase` map only `A`–`Z`/`a`–`z`.
- `sort()` compares UTF-16 code units; the model compares characters, which agrees only below U+10000.
- Error kinds other than a non-ok status and a network `TypeError`: with only these two, the message is never empty, so the "An unknown error occurred." default is unreachable in the model.
- ScheduleData.FailureMessageDistinguishes: stated for non-negative statuses only, because the numeral of a negative status is not modelled as distinct from its sign.
- A change of the sheet link while the hook is mounted: `ScheduleState.url` is fixed at construction, so the state in which the previous link's rows stay on show until the new link's response arrives is not represented. A new link is a new `ScheduleState`.
- The refresh button is `ScheduleState.Refetch`. Its visibility and the "Updated" line are markup.
- `MainContent` (the information panel until a link is submitted): it is a two-way choice stated by its body only.
