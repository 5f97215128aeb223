/** The list logic of the course and tag pickers: a case-insensitive substring
    filter guarded by "search text is empty", and toggling membership of a
    selection kept as a list (`prev.includes(x) ? prev.filter(c => c !== x) :
    [...prev, x]`). */
module Picker {
  import opened Text

  /** `item.toLowerCase().includes(search.toLowerCase())`. */
  predicate Matches(item: string, search: string) {
    Occurs(Lower(search), Lower(item))
  }

  /** `sub` is `s` with some elements left out and the others kept in order. */
  ghost predicate IsSubsequence(sub: seq<string>, s: seq<string>)
    decreases |s|
  {
    if sub == [] then true
    else if s == [] then false
    else if sub[0] == s[0] then IsSubsequence(sub[1..], s[1..])
    else IsSubsequence(sub, s[1..])
  }

  /** Every element occurs at most once. */
  ghost predicate NoDup(s: seq<string>) {
    forall x :: multiset(s)[x] <= 1
  }

  /** `items.filter(item => Matches(item, search))`: exactly the matching items,
      each as often as in `items`, in their original order. */
  function MatchFilter(items: seq<string>, search: string): (r: seq<string>)
    ensures IsSubsequence(r, items)
    ensures forall x :: x in r <==> x in items && Matches(x, search)
    ensures forall x :: multiset(r)[x] == if Matches(x, search) then multiset(items)[x] else 0
  {
    if items == [] then []
    else
      assert items == [items[0]] + items[1..];
      if Matches(items[0], search) then [items[0]] + MatchFilter(items[1..], search)
      else MatchFilter(items[1..], search)
  }

  /** `search ? items.filter(...) : items`. */
  function SearchFilter(items: seq<string>, search: string): (r: seq<string>)
    ensures search == [] ==> r == items
    ensures IsSubsequence(r, items)
    ensures forall x :: x in r <==> x in items && Matches(x, search)
    ensures forall x :: multiset(r)[x] == if Matches(x, search) then multiset(items)[x] else 0
  {
    if search == [] then
      EmptySearchMatchesAll(items);
      items
    else MatchFilter(items, search)
  }

  /** Every string contains the empty string, so filtering by an empty search
      keeps every item: the "search is empty" guard changes nothing. */
  lemma {:induction false} EmptySearchMatchesAll(items: seq<string>)
    ensures MatchFilter(items, []) == items
  {
    if items != [] {
      assert OccursAt(Lower(items[0]), Lower([]), 0);
      EmptySearchMatchesAll(items[1..]);
    }
  }

  /** The guarded filter is the plain filter for every search text. */
  lemma SearchFilterIsFilter(items: seq<string>, search: string)
    ensures SearchFilter(items, search) == MatchFilter(items, search)
  {
    if search == [] {
      EmptySearchMatchesAll(items);
    }
  }

  /** `s.filter(c => c !== x)`. */
  function Remove(s: seq<string>, x: string): (r: seq<string>)
    ensures x !in r
    ensures forall y :: y in r <==> y in s && y != x
    ensures IsSubsequence(r, s)
    ensures forall y :: y != x ==> multiset(r)[y] == multiset(s)[y]
  {
    if s == [] then []
    else
      assert s == [s[0]] + s[1..];
      if s[0] == x then Remove(s[1..], x) else [s[0]] + Remove(s[1..], x)
  }

  /** Removing an absent element changes nothing. */
  lemma {:induction false} RemoveAbsent(s: seq<string>, x: string)
    requires x !in s
    ensures Remove(s, x) == s
  {
    if s != [] {
      RemoveAbsent(s[1..], x);
    }
  }

  /** Removing distributes over concatenation. */
  lemma {:induction false} RemoveAppend(s: seq<string>, t: seq<string>, x: string)
    ensures Remove(s + t, x) == Remove(s, x) + Remove(t, x)
  {
    if s == [] {
      assert s + t == t;
    } else {
      assert (s + t)[1..] == s[1..] + t;
      RemoveAppend(s[1..], t, x);
    }
  }

  /** The toggle updater: removes a selected element, appends an unselected one
      at the end. Only the toggled element changes membership, and removing
      keeps every other element as often as before. */
  function Toggle(s: seq<string>, x: string): (r: seq<string>)
    ensures x in r <==> x !in s
    ensures forall y :: y != x ==> (y in r <==> y in s)
    ensures x !in s ==> r == s + [x]
    ensures x in s ==> IsSubsequence(r, s)
    ensures x in s ==> forall y :: y != x ==> multiset(r)[y] == multiset(s)[y]
  {
    if x in s then Remove(s, x) else s + [x]
  }

  /** A selection without duplicates stays without duplicates when toggled. */
  lemma ToggleKeepsNoDup(s: seq<string>, x: string)
    ensures NoDup(s) ==> NoDup(Toggle(s, x))
  {
    if NoDup(s) && x !in s {
      assert multiset(s + [x]) == multiset(s) + multiset{x};
    }
  }

  /** Toggling an unselected element twice restores the selection exactly. */
  lemma ToggleTwiceUnselected(s: seq<string>, x: string)
    requires x !in s
    ensures Toggle(Toggle(s, x), x) == s
  {
    RemoveAppend(s, [x], x);
    RemoveAbsent(s, x);
    assert Remove([x], x) == [];
  }

  /** Toggling a selected element twice restores the selection as a set, but the
      element moves to the end. */
  lemma ToggleTwiceSelected(s: seq<string>, x: string)
    requires x in s
    ensures Toggle(Toggle(s, x), x) == Remove(s, x) + [x]
    ensures forall y :: y in Toggle(Toggle(s, x), x) <==> y in s
  {
  }

  /** The selection after tapping `taps` in turn, starting from `s`. */
  function ApplyToggles(s: seq<string>, taps: seq<string>): seq<string>
    decreases |taps|
  {
    if taps == [] then s else ApplyToggles(Toggle(s, taps[0]), taps[1..])
  }

  /** Without duplicates, the first element does not occur again and the rest
      has no duplicates either. */
  lemma NoDupTail(s: seq<string>)
    requires s != [] && NoDup(s)
    ensures s[0] !in s[1..] && NoDup(s[1..])
  {
    assert s == [s[0]] + s[1..];
    assert multiset(s) == multiset([s[0]]) + multiset(s[1..]);
    assert multiset(s)[s[0]] == 1 + multiset(s[1..])[s[0]];
    forall y ensures multiset(s[1..])[y] <= 1 {
      assert multiset(s)[y] <= 1;
    }
  }

  /** Once the first tap is appended, the later taps are still unselected. */
  lemma FreshAfterTap(s: seq<string>, taps: seq<string>)
    requires taps != [] && NoDup(taps)
    requires forall x :: x in taps ==> x !in s
    ensures forall y :: y in taps[1..] ==> y !in s + [taps[0]]
  {
    NoDupTail(taps);
    forall y | y in taps[1..] ensures y !in s + [taps[0]] {
      assert y in taps;
    }
  }

  /** Tapping distinct unselected elements lists them after the selection in
      the order they were tapped. */
  lemma {:induction false} SelectionOrder(s: seq<string>, taps: seq<string>)
    requires NoDup(taps)
    requires forall x :: x in taps ==> x !in s
    ensures ApplyToggles(s, taps) == s + taps
    decreases |taps|
  {
    if taps != [] {
      var x := taps[0];
      var rest := taps[1..];
      NoDupTail(taps);
      assert taps == [x] + rest;
      assert Toggle(s, x) == s + [x];
      FreshAfterTap(s, taps);
      SelectionOrder(s + [x], rest);
      assert s + [x] + rest == s + taps;
    }
  }
}
