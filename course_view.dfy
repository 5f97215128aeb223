/** The React Native course picker (`CourseView.js`): a fixed course list, a
    search box and a selection kept as a list of course names. */
module CourseView {
  import opened Text
  import opened Picker

  const Courses: seq<string> := [
    "Mathematics",
    "Nuclear Engineering",
    "Software Design",
    "Computer Programming I",
    "Physics II",
    "Service Design",
    "Mobile Dev",
    "Thai Language"
  ]

  /** `filteredCourses`: all courses for an empty search, otherwise the courses
      whose lower-cased name contains the lower-cased search, in list order. */
  function FilteredCourses(searchText: string): (r: seq<string>)
    ensures searchText == [] ==> r == Courses
    ensures IsSubsequence(r, Courses)
    ensures forall c :: c in r <==> c in Courses && Matches(c, searchText)
  {
    SearchFilter(Courses, searchText)
  }

  /** `toggleCourse(course)`: the updater handed to `setSelectedCourses`. */
  function ToggleCourse(prev: seq<string>, course: string): seq<string> {
    Toggle(prev, course)
  }

  /** The search ignores case: "MOBILE" finds "Mobile Dev". */
  lemma SearchIgnoresCase()
    ensures "Mobile Dev" in FilteredCourses("MOBILE")
  {
    assert Lower("MOBILE") == "mobile";
    assert Lower("Mobile Dev")[0..6] == "mobile";
    assert OccursAt(Lower("Mobile Dev"), Lower("MOBILE"), 0);
    assert Courses[6] == "Mobile Dev";
  }
}
