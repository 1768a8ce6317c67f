/**
 * The multi-select dropdown of one category: toggling an option in or out of
 * the selection, the case-insensitive option search, the Clear button, and the
 * rule that closing the dropdown forgets the search term.
 */
module MultiSelectFilter {
  import opened Wrappers
  import Seqs
  import opened Text

  /** No option occurs twice in the list. */
  predicate Distinct(xs: seq<string>) {
    forall i, j :: 0 <= i < j < |xs| ==> xs[i] != xs[j]
  }

  /** The selection after one click on `option`: the option appended when absent, its first occurrence removed when present. */
  function Toggled(selected: seq<string>, option: string): seq<string> {
    var i := Seqs.IndexOf(selected, option);
    if i == -1 then selected + [option] else Seqs.RemoveAt(selected, i)
  }

  /**
   * `handleCheckboxChange`: a copy of the selection, then `push` or
   * `splice(currentIndex, 1)` on the copy; the given selection is a value and
   * is left as it was.
   */
  method HandleCheckboxChange(selectedOptions: seq<string>, option: string) returns (newSelected: seq<string>)
    ensures newSelected == Toggled(selectedOptions, option)
  {
    var currentIndex := Seqs.IndexOf(selectedOptions, option);
    newSelected := selectedOptions;
    if currentIndex == -1 {
      newSelected := newSelected + [option];
    } else {
      newSelected := newSelected[..currentIndex] + newSelected[currentIndex + 1..];
    }
  }

  /** An option that is not selected is added at the end. */
  lemma ToggleAbsentAppends(selected: seq<string>, option: string)
    requires option !in selected
    ensures Toggled(selected, option) == selected + [option]
    ensures option in Toggled(selected, option)
  {
  }

  /**
   * A selected option is removed where it first occurs; the other options keep
   * their order, and later copies of it stay.
   */
  lemma TogglePresentRemovesFirst(selected: seq<string>, option: string, i: nat)
    requires i < |selected| && selected[i] == option && option !in selected[..i]
    ensures Toggled(selected, option) == selected[..i] + selected[i + 1..]
    ensures multiset(Toggled(selected, option)) == multiset(selected) - multiset{option}
  {
    assert option in selected;
    assert selected == selected[..i] + [option] + selected[i + 1..];
  }

  /** Clicking an unselected option twice gives the selection back. */
  lemma ToggleTwiceRestores(selected: seq<string>, option: string)
    requires option !in selected
    ensures Toggled(Toggled(selected, option), option) == selected
  {
    Seqs.IndexOfAppend(selected, option, option);
    assert (selected + [option])[..|selected|] == selected;
  }

  /**
   * On a selection without repeats (every selection built by clicks is one) a
   * click flips the checkbox of the option clicked, keeps every other check,
   * and keeps the selection free of repeats.
   */
  lemma ToggleFlipsCheck(selected: seq<string>, option: string, other: string)
    requires Distinct(selected)
    ensures IsChecked(Toggled(selected, option), option) <==> !IsChecked(selected, option)
    ensures other != option ==> (IsChecked(Toggled(selected, option), other) <==> IsChecked(selected, other))
    ensures Distinct(Toggled(selected, option))
  {
    var r := Toggled(selected, option);
    var i := Seqs.IndexOf(selected, option);
    if i != -1 {
      assert selected == selected[..i] + [option] + selected[i + 1..];
      assert multiset(r) == multiset(selected) - multiset{option} by {
        TogglePresentRemovesFirst(selected, option, i);
      }
      assert option !in r by {
        assert r == selected[..i] + selected[i + 1..];
      }
      assert other != option ==> (other in r <==> other in multiset(r));
      assert other != option ==> (other in selected <==> other in multiset(selected));
    } else {
      forall a, b | 0 <= a < b < |r|
        ensures r[a] != r[b]
      {
        if b == |selected| {
          assert r[a] == selected[a];
        }
      }
    }
  }

  /** `selectedOptions.includes(option)`: the checkbox is ticked. */
  predicate IsChecked(selected: seq<string>, option: string) {
    option in selected
  }

  /** `option.toLowerCase().includes(searchTerm.toLowerCase())`. */
  predicate MatchesSearch(option: string, searchTerm: string) {
    Contains(ToLower(option), ToLower(searchTerm))
  }

  /** `filteredOptions`: the options matching the search term, in their original order. */
  function FilteredOptions(options: seq<string>, searchTerm: string): (r: seq<string>)
    ensures forall i :: 0 <= i < |r| ==> MatchesSearch(r[i], searchTerm)
  {
    Seqs.Filter(options, o => MatchesSearch(o, searchTerm))
  }

  /** An option is listed exactly when it is an option whose lower-case form contains the lower-case term. */
  lemma FilteredOptionsMembership(options: seq<string>, searchTerm: string, o: string)
    ensures o in FilteredOptions(options, searchTerm) <==> o in options && MatchesSearch(o, searchTerm)
  {
    Seqs.FilterMembership(options, o => MatchesSearch(o, searchTerm), o);
  }

  /** The listed options keep the order of the options. */
  lemma FilteredOptionsInOrder(options: seq<string>, searchTerm: string)
    ensures Seqs.IsSubsequence(FilteredOptions(options, searchTerm), options)
  {
    Seqs.FilterIsSubsequence(options, o => MatchesSearch(o, searchTerm));
  }

  /** An empty search term lists every option. */
  lemma EmptySearchListsAll(options: seq<string>)
    ensures FilteredOptions(options, "") == options
  {
    forall i | 0 <= i < |options|
      ensures MatchesSearch(options[i], "")
    {
      ContainsEmpty(ToLower(options[i]));
    }
    Seqs.FilterKeepsAll(options, o => MatchesSearch(o, ""));
  }

  /** The search ignores the case of ASCII letters in the term. */
  lemma SearchIgnoresCase(options: seq<string>, searchTerm: string)
    ensures FilteredOptions(options, ToUpper(searchTerm)) == FilteredOptions(options, searchTerm)
  {
    assert ToLower(ToUpper(searchTerm)) == ToLower(searchTerm);
    Seqs.FilterAgrees(options, o => MatchesSearch(o, ToUpper(searchTerm)), o => MatchesSearch(o, searchTerm));
  }

  const SelectedSuffix: string := " selected"
  const AllLabel: string := "All"

  /** The summary on the dropdown button: `N selected`, or `All` for an empty selection. */
  function SummaryLabel(selected: seq<string>): string {
    if |selected| > 0 then NatToString(|selected|) + SelectedSuffix else AllLabel
  }

  /** The summary reads `All` exactly when nothing is selected, and otherwise starts with the count. */
  lemma SummaryLabelIff(selected: seq<string>)
    ensures SummaryLabel(selected) == AllLabel <==> |selected| == 0
    ensures |selected| > 0 ==>
      var n := NatToString(|selected|);
      SummaryLabel(selected)[..|n|] == n && DigitsValue(n) == |selected|
  {
    if |selected| > 0 {
      var n := NatToString(|selected|);
      assert |SummaryLabel(selected)| == |n| + 9;
      assert SummaryLabel(selected)[..|n|] == n;
    }
  }

  const NoResultsMessage: string := "No results found"
  const NoOptionsMessage: string := "No options available"

  /** The line shown under an empty option list, none while some option is listed. */
  function EmptyListMessage(options: seq<string>, searchTerm: string): (m: Option<string>)
    ensures m.Some? <==> |FilteredOptions(options, searchTerm)| == 0
  {
    if |FilteredOptions(options, searchTerm)| == 0 then
      Some(if |options| > 0 then NoResultsMessage else NoOptionsMessage)
    else None
  }

  /** Without options the message says there are none; the empty search never hides an option. */
  lemma EmptyListMessageCases(options: seq<string>, searchTerm: string)
    ensures |options| == 0 ==> EmptyListMessage(options, searchTerm) == Some(NoOptionsMessage)
    ensures |options| > 0 && searchTerm == "" ==> EmptyListMessage(options, searchTerm) == None
    ensures |options| > 0 && EmptyListMessage(options, searchTerm).Some? ==>
      EmptyListMessage(options, searchTerm) == Some(NoResultsMessage)
  {
    EmptySearchListsAll(options);
  }

  /** The dropdown's own state: whether it is open and the search text. */
  class FilterState {
    var isOpen: bool
    var searchTerm: string

    /** Once the reset effect has run, a closed dropdown holds no search text. */
    predicate Valid()
      reads this
    {
      !isOpen ==> searchTerm == ""
    }

    constructor ()
      ensures !isOpen && searchTerm == ""
      ensures Valid()
    {
      isOpen := false;
      searchTerm := "";
    }

    /** The reset effect: whenever the dropdown is closed the search term is emptied. */
    method ResetOnClose()
      modifies this
      ensures Valid()
      ensures isOpen == old(isOpen)
      ensures searchTerm == if isOpen then old(searchTerm) else ""
    {
      if !isOpen {
        searchTerm := "";
      }
    }

    /** A click on the dropdown button, followed by the reset effect. */
    method ToggleOpen()
      requires Valid()
      modifies this
      ensures Valid()
      ensures isOpen == !old(isOpen)
      ensures searchTerm == ""
    {
      isOpen := !isOpen;
      ResetOnClose();
    }

    /** A click outside the dropdown closes it, followed by the reset effect. */
    method Close()
      modifies this
      ensures Valid()
      ensures !isOpen && searchTerm == ""
    {
      isOpen := false;
      ResetOnClose();
    }

    /** Typing in the search box, which is only on screen while the dropdown is open. */
    method SetSearchTerm(term: string)
      requires isOpen
      modifies this
      ensures Valid()
      ensures isOpen && searchTerm == term
    {
      searchTerm := term;
    }

    /** The Clear button: an empty selection is emitted and the search text is emptied; the dropdown stays open. */
    method Clear() returns (newSelected: seq<string>)
      requires Valid()
      modifies this
      ensures Valid()
      ensures newSelected == [] && searchTerm == "" && isOpen == old(isOpen)
    {
      newSelected := [];
      searchTerm := "";
    }

    /** The options on show: none while closed, otherwise those matching the search term. */
    function Listed(options: seq<string>): seq<string>
      reads this
    {
      if isOpen then FilteredOptions(options, searchTerm) else []
    }
  }

  /** Opening a dropdown after it was closed lists every option again. */
  method ReopenListsAll(f: FilterState, options: seq<string>) returns (listed: seq<string>)
    requires f.Valid() && f.isOpen
    modifies f
    ensures f.Valid() && f.isOpen
    ensures listed == options
  {
    f.ToggleOpen();
    f.ToggleOpen();
    EmptySearchListsAll(options);
    listed := f.Listed(options);
  }
}
