/** The React Native tag search (`SearchView.js`): a fixed tag list, a search
    bar, and the selected tags shown in the order they were selected. */
module SearchView {
  import opened Picker

  const Tags: seq<string> := [
    "Mathematics",
    "Nuclear Engineering",
    "Software Design",
    "Computer Programming I",
    "Physics II",
    "Service Design",
    "Mobile Dev",
    "Thai Language"
  ]

  /** `filteredTags`: all tags for an empty search, otherwise the tags that
      contain the search ignoring case, in list order. */
  function FilteredTags(searchText: string): (r: seq<string>)
    ensures searchText == [] ==> r == Tags
    ensures IsSubsequence(r, Tags)
    ensures forall t :: t in r <==> t in Tags && Matches(t, searchText)
  {
    SearchFilter(Tags, searchText)
  }

  /** `toggleTag(tag)`: a newly selected tag goes to the end of the selection,
      a deselected one leaves the others in their order; no other tag changes
      membership. */
  function ToggleTag(prev: seq<string>, tag: string): (r: seq<string>)
    ensures tag !in prev ==> r == prev + [tag]
    ensures tag in prev ==> tag !in r && IsSubsequence(r, prev)
    ensures forall t :: t != tag ==> (t in r <==> t in prev)
    ensures NoDup(prev) ==> NoDup(r)
  {
    ToggleKeepsNoDup(prev, tag);
    Toggle(prev, tag)
  }

  /** Starting from no selection, tapping distinct tags lists them under
      "Selected:" in the order they were tapped. */
  lemma SelectedInTapOrder(taps: seq<string>)
    requires NoDup(taps)
    ensures ApplyToggles([], taps) == taps
  {
    SelectionOrder([], taps);
    assert [] + taps == taps;
  }
}
