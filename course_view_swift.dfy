/** The SwiftUI course picker (`StudyBuddy/CourseView.swift`): the view's
    `@State` search text and set of selected courses, the computed
    `filteredCourses`, and the row tap that inserts or removes a course. */
module CourseViewSwift {
  import opened Picker

  const Courses: seq<string> := [
    "Mathematics",
    "Nuclear Engineering",
    "Software Design",
    "Computer Programming I",
    "Physics II",
    "Service Design",
    "Mobile Dev",
    "Thai Language"
  ]

  /** The selection after a tap on `course`. */
  function Tapped(selected: set<string>, course: string): (r: set<string>)
    ensures course in r <==> course !in selected
    ensures forall c :: c != course ==> (c in r <==> c in selected)
  {
    if course in selected then selected - {course} else selected + {course}
  }

  /** Two taps on the same course restore the selection. */
  lemma TapTwice(selected: set<string>, course: string)
    ensures Tapped(Tapped(selected, course), course) == selected
  {
  }

  /** Pairs each shown course with whether it is selected. */
  function MarkRows(shown: seq<string>, selected: set<string>): (rows: seq<(string, bool)>)
    ensures |rows| == |shown|
    ensures forall i :: 0 <= i < |rows| ==> rows[i].0 == shown[i] && (rows[i].1 <==> shown[i] in selected)
  {
    seq(|shown|, i requires 0 <= i < |shown| => (shown[i], shown[i] in selected))
  }

  class CourseView {
    var searchText: string
    var selectedCourses: set<string>

    constructor ()
      ensures searchText == [] && selectedCourses == {}
    {
      searchText, selectedCourses := [], {};
    }

    /** `filteredCourses`: every course for an empty search, otherwise the courses
        that contain the search text ignoring case, in list order. */
    function FilteredCourses(): (r: seq<string>)
      reads this
      ensures searchText == [] ==> r == Courses
      ensures IsSubsequence(r, Courses)
      ensures forall c :: c in r <==> c in Courses && Matches(c, searchText)
    {
      SearchFilter(Courses, searchText)
    }

    /** The rows of the list: one per filtered course, marked selected exactly
        when the course is in the selection. */
    function Rows(): (rows: seq<(string, bool)>)
      reads this
      ensures |rows| == |FilteredCourses()|
      ensures forall i :: 0 <= i < |rows| ==>
        rows[i].0 == FilteredCourses()[i] && (rows[i].1 <==> rows[i].0 in selectedCourses)
    {
      MarkRows(FilteredCourses(), selectedCourses)
    }

    /** The search bar's binding writes the search text. */
    method EditSearch(text: string)
      modifies this
      ensures searchText == text && selectedCourses == old(selectedCourses)
    {
      searchText := text;
    }

    /** The row's tap closure. */
    method Tap(course: string)
      modifies this
      ensures selectedCourses == Tapped(old(selectedCourses), course)
      ensures searchText == old(searchText)
    {
      if course in selectedCourses {
        selectedCourses := selectedCourses - {course};
      } else {
        selectedCourses := selectedCourses + {course};
      }
    }
  }
}
