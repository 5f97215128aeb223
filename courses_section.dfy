/** The profile editor's course list (`CoursesSection.tsx`): a text field for a
    course code, a loading flag, the list of enrolled courses, and the two
    handlers that post to `enrollments/enroll/` and `enrollments/unenroll/`.
    The server's replies are parameters of the handlers; the alerts shown and
    the lists handed to `onCoursesUpdated` are logged in the component. */
module CoursesSection {
  import opened Wrappers
  import opened Text

  datatype Course = Course(code: string, title: string)

  /** An `Alert.alert(title, message)`. */
  datatype Alert = Alert(title: string, message: string)

  const EmptyCodeAlert := Alert("Error", "Please enter a course code")
  const AlreadyEnrolledAlert := Alert("Already Enrolled", "You are already enrolled in this course")
  const EnrollErrorTitle := "Enrollment Error"
  const DefaultEnrollError := "Failed to enroll in course. Please verify the course code."
  const UnenrollFailedAlert := Alert("Error", "Failed to unenroll from course")

  /** Some listed course has the trimmed code, ignoring case: the `some` scan
      over the list. */
  predicate AlreadyEnrolled(current: seq<Course>, courseCode: string) {
    SomeCodeIs(current, Lower(Trim(courseCode)))
  }

  /** Some course in the list lower-cases its code to `lowered`, tried from the
      front. */
  predicate SomeCodeIs(courses: seq<Course>, lowered: string)
    decreases |courses|
  {
    courses != [] && (Lower(courses[0].code) == lowered || SomeCodeIs(courses[1..], lowered))
  }

  /** The scan finds a code exactly when some index holds it. */
  lemma {:induction false} SomeCodeIsIndex(courses: seq<Course>, lowered: string)
    ensures SomeCodeIs(courses, lowered) <==>
      exists i :: 0 <= i < |courses| && Lower(courses[i].code) == lowered
  {
    if courses != [] {
      SomeCodeIsIndex(courses[1..], lowered);
      if SomeCodeIs(courses[1..], lowered) {
        var i :| 0 <= i < |courses[1..]| && Lower(courses[1..][i].code) == lowered;
        assert courses[i + 1] == courses[1..][i];
      }
      if exists i :: 0 <= i < |courses| && Lower(courses[i].code) == lowered {
        var i :| 0 <= i < |courses| && Lower(courses[i].code) == lowered;
        if i > 0 {
          assert courses[1..][i - 1] == courses[i];
        }
      }
    }
  }

  /** No two listed courses have codes that differ only in case. */
  predicate DistinctCodes(courses: seq<Course>) {
    forall i, j :: 0 <= i < j < |courses| ==> Lower(courses[i].code) != Lower(courses[j].code)
  }

  /** What the enroll handler does before any request: post a course code, or
      refuse with an alert. */
  datatype Validation = Send(courseCode: string) | Refuse(alert: Alert)

  /** The two guards of `handleEnrollCourse`: a blank field, then a code already
      in the list ignoring case; otherwise the trimmed, upper-cased code is sent. */
  function ValidateEnroll(current: seq<Course>, courseCode: string): Validation {
    if Trim(courseCode) == [] then Refuse(EmptyCodeAlert)
    else if AlreadyEnrolled(current, courseCode) then Refuse(AlreadyEnrolledAlert)
    else Send(Upper(Trim(courseCode)))
  }

  /** Enrolling is refused with "Please enter a course code" exactly when the
      trimmed field is empty, and with "Already Enrolled" exactly when it is not
      and a listed code equals it ignoring case; otherwise the trimmed,
      upper-cased code is sent. */
  lemma ValidateEnrollCases(current: seq<Course>, courseCode: string)
    ensures ValidateEnroll(current, courseCode) == Refuse(EmptyCodeAlert) <==> Trim(courseCode) == []
    ensures ValidateEnroll(current, courseCode) == Refuse(AlreadyEnrolledAlert) <==>
      Trim(courseCode) != [] &&
      exists i :: 0 <= i < |current| && Lower(current[i].code) == Lower(Trim(courseCode))
    ensures ValidateEnroll(current, courseCode).Send? <==>
      Trim(courseCode) != [] && !AlreadyEnrolled(current, courseCode)
    ensures ValidateEnroll(current, courseCode).Send? ==>
      ValidateEnroll(current, courseCode).courseCode == Upper(Trim(courseCode))
  {
    SomeCodeIsIndex(current, Lower(Trim(courseCode)));
  }

  /** A code that passes both guards is sent as a non-empty code with no white
      space at either end, already upper case, and different ignoring case from
      every listed code. */
  lemma SentCodeIsNew(current: seq<Course>, courseCode: string)
    requires Trim(courseCode) != [] && !AlreadyEnrolled(current, courseCode)
    ensures var sent := Upper(Trim(courseCode));
      && sent != []
      && !IsSpace(sent[0]) && !IsSpace(sent[|sent| - 1])
      && Upper(sent) == sent
      && forall i :: 0 <= i < |current| ==> Lower(current[i].code) != Lower(sent)
  {
    var t := Trim(courseCode);
    SomeCodeIsIndex(current, Lower(t));
    TrimmedEnds(courseCode);
    UpperKeepsEnds(t);
    UpperIdempotent(t);
    LowerOfUpper(t);
    forall i | 0 <= i < |current| ensures Lower(current[i].code) != Lower(Upper(t)) {
      assert Lower(current[i].code) != Lower(t);
    }
  }

  /** Upper-casing keeps a string non-empty and without white space at its ends. */
  lemma UpperKeepsEnds(t: string)
    requires t != [] && !IsSpace(t[0]) && !IsSpace(t[|t| - 1])
    ensures Upper(t) != [] && !IsSpace(Upper(t)[0]) && !IsSpace(Upper(t)[|t| - 1])
  {
    assert Upper(t)[0] == UpperChar(t[0]);
    assert Upper(t)[|t| - 1] == UpperChar(t[|t| - 1]);
  }

  /** When the server answers with the course whose code was sent (in any case),
      appending it keeps the list free of codes that differ only in case. */
  lemma AppendKeepsDistinct(current: seq<Course>, courseCode: string, added: Course)
    requires DistinctCodes(current)
    requires ValidateEnroll(current, courseCode).Send?
    requires Lower(added.code) == Lower(ValidateEnroll(current, courseCode).courseCode)
    ensures DistinctCodes(current + [added])
  {
    ValidateEnrollCases(current, courseCode);
    SentCodeIsNew(current, courseCode);
    var r := current + [added];
    forall i, j | 0 <= i < j < |r| ensures Lower(r[i].code) != Lower(r[j].code) {
      if j < |current| {
        assert r[i] == current[i] && r[j] == current[j];
      } else {
        assert r[i] == current[i] && r[j] == added;
      }
    }
  }

  /** `error.response?.data?.detail || default`: the server's detail when there
      is a non-empty one, the fixed message otherwise. */
  function EnrollErrorMessage(detail: Option<string>): (m: string)
    ensures m != []
    ensures detail.Some? && detail.value != [] ==> m == detail.value
    ensures detail.None? || detail.value == [] ==> m == DefaultEnrollError
  {
    if detail.Some? && detail.value != [] then detail.value else DefaultEnrollError
  }

  /** `currentCourses.filter(course => course.code !== courseCode)`: exactly the
      courses with another code, each as often as before. */
  function RemoveCode(courses: seq<Course>, code: string): (r: seq<Course>)
    ensures |r| <= |courses|
    ensures forall c :: c in r <==> c in courses && c.code != code
    ensures forall c :: multiset(r)[c] == if c.code != code then multiset(courses)[c] else 0
  {
    if courses == [] then []
    else
      assert courses == [courses[0]] + courses[1..];
      if courses[0].code != code then [courses[0]] + RemoveCode(courses[1..], code)
      else RemoveCode(courses[1..], code)
  }

  /** The filter keeps the order of the list: it distributes over concatenation. */
  lemma {:induction false} RemoveCodeAppend(a: seq<Course>, b: seq<Course>, code: string)
    ensures RemoveCode(a + b, code) == RemoveCode(a, code) + RemoveCode(b, code)
  {
    if a == [] {
      assert a + b == b;
    } else {
      assert (a + b)[1..] == a[1..] + b;
      RemoveCodeAppend(a[1..], b, code);
    }
  }

  /** A list without case-only duplicates stays so without its first course. */
  lemma DistinctTail(courses: seq<Course>)
    requires courses != [] && DistinctCodes(courses)
    ensures DistinctCodes(courses[1..])
  {
    var rest := courses[1..];
    forall i, j | 0 <= i < j < |rest| ensures Lower(rest[i].code) != Lower(rest[j].code) {
      assert rest[i] == courses[i + 1] && rest[j] == courses[j + 1];
    }
  }

  /** Putting a course in front of a list keeps it without case-only duplicates
      when no course of the list has its code. */
  lemma DistinctCons(x: Course, t: seq<Course>)
    requires DistinctCodes(t)
    requires forall c :: c in t ==> Lower(c.code) != Lower(x.code)
    ensures DistinctCodes([x] + t)
  {
    var r := [x] + t;
    forall i, j | 0 <= i < j < |r| ensures Lower(r[i].code) != Lower(r[j].code) {
      if i == 0 {
        assert r[j] == t[j - 1] && t[j - 1] in t;
      } else {
        assert r[i] == t[i - 1] && r[j] == t[j - 1];
      }
    }
  }

  /** Unenrolling keeps the list free of codes that differ only in case. */
  lemma {:induction false} RemoveCodeKeepsDistinct(courses: seq<Course>, code: string)
    requires DistinctCodes(courses)
    ensures DistinctCodes(RemoveCode(courses, code))
  {
    if courses != [] {
      var x, rest := courses[0], courses[1..];
      DistinctTail(courses);
      RemoveCodeKeepsDistinct(rest, code);
      if x.code != code {
        var t := RemoveCode(rest, code);
        forall c | c in t ensures Lower(c.code) != Lower(x.code) {
          var k :| 0 <= k < |rest| && rest[k] == c;
          assert courses[k + 1] == c;
        }
        DistinctCons(x, t);
      }
    }
  }

  /** What `api.post("enrollments/enroll/")` did: resolved with a body that
      holds a course, with a body that lacks one (reading `course_code` then
      throws), with no body, or rejected (with the server's `detail`, if any). */
  datatype EnrollReply =
    | Enrolled(course: Course)
    | EnrolledWithoutCourse
    | EmptyReply
    | EnrollRejected(detail: Option<string>)

  /** A snapshot of the component's state. */
  datatype Ui = Ui(courseCode: string, isLoading: bool, currentCourses: seq<Course>,
                   notified: seq<seq<Course>>, alerts: seq<Alert>)

  /** The state after `handleEnrollCourse` with the given reply, and the code it
      posted, if any. */
  function EnrollStep(u: Ui, reply: EnrollReply): (Ui, Option<string>) {
    match ValidateEnroll(u.currentCourses, u.courseCode)
    case Refuse(a) => (u.(alerts := u.alerts + [a]), None)
    case Send(code) => (ReplyEffect(u, reply).(isLoading := false), Some(code))
  }

  /** How the screen takes in the server's reply to a request that was sent. */
  function ReplyEffect(u: Ui, reply: EnrollReply): Ui {
    match reply
    case Enrolled(c) =>
      var updated := u.currentCourses + [c];
      u.(courseCode := [], currentCourses := updated, notified := u.notified + [updated])
    case EmptyReply => u
    case EnrolledWithoutCourse =>
      u.(alerts := u.alerts + [Alert(EnrollErrorTitle, EnrollErrorMessage(None))])
    case EnrollRejected(detail) =>
      u.(alerts := u.alerts + [Alert(EnrollErrorTitle, EnrollErrorMessage(detail))])
  }

  /** What enrolling does: a refused code only adds the validation alert; a sent
      code is the trimmed, upper-cased input and ends the loading. The list grows
      by exactly the returned course on success and is unchanged otherwise; the
      parent is notified, and the field cleared, exactly when the list changes;
      at most one alert is added, and only when the list is unchanged; a failed
      request shows the server's detail or the default message. */
  lemma EnrollStepEffects(u: Ui, reply: EnrollReply)
    ensures var (r, sent) := EnrollStep(u, reply);
      && (sent.None? <==> ValidateEnroll(u.currentCourses, u.courseCode).Refuse?)
      && (sent.None? ==> r == u.(alerts := u.alerts + [ValidateEnroll(u.currentCourses, u.courseCode).alert]))
      && (sent.Some? ==> sent.value == Upper(Trim(u.courseCode)) && !r.isLoading)
      && r.currentCourses == (if sent.Some? && reply.Enrolled? then u.currentCourses + [reply.course] else u.currentCourses)
      && r.notified == (if r.currentCourses == u.currentCourses then u.notified else u.notified + [r.currentCourses])
      && r.courseCode == (if r.currentCourses == u.currentCourses then u.courseCode else [])
      && (r.alerts == u.alerts || (r.currentCourses == u.currentCourses && |r.alerts| == |u.alerts| + 1
                                   && r.alerts[..|u.alerts|] == u.alerts))
      && (sent.Some? && reply.EnrollRejected? ==>
            r.alerts == u.alerts + [Alert(EnrollErrorTitle, EnrollErrorMessage(reply.detail))])
      && (sent.Some? && reply.EnrolledWithoutCourse? ==>
            r.alerts == u.alerts + [Alert(EnrollErrorTitle, DefaultEnrollError)])
  {
    if ValidateEnroll(u.currentCourses, u.courseCode).Send? && reply.Enrolled? {
      var updated := u.currentCourses + [reply.course];
      assert |updated| == |u.currentCourses| + 1;
    }
  }

  /** When the server answers with the course whose code was sent, enrolling keeps
      the list free of codes that differ only in case. */
  lemma EnrollStepKeepsDistinct(u: Ui, reply: EnrollReply)
    requires DistinctCodes(u.currentCourses)
    requires reply.Enrolled? ==> Lower(reply.course.code) == Lower(Upper(Trim(u.courseCode)))
    ensures DistinctCodes(EnrollStep(u, reply).0.currentCourses)
  {
    if ValidateEnroll(u.currentCourses, u.courseCode).Send? && reply.Enrolled? {
      AppendKeepsDistinct(u.currentCourses, u.courseCode, reply.course);
    }
  }

  /** The state after `handleUnenrollCourse(code)`, given whether the request
      succeeded. */
  function UnenrollStep(u: Ui, code: string, succeeded: bool): (r: Ui)
    ensures !r.isLoading && r.courseCode == u.courseCode
    ensures succeeded ==> r.currentCourses == RemoveCode(u.currentCourses, code)
                          && r.notified == u.notified + [r.currentCourses] && r.alerts == u.alerts
    ensures !succeeded ==> r.currentCourses == u.currentCourses && r.notified == u.notified
                           && r.alerts == u.alerts + [UnenrollFailedAlert]
  {
    if succeeded then
      var updated := RemoveCode(u.currentCourses, code);
      u.(isLoading := false, currentCourses := updated, notified := u.notified + [updated])
    else
      u.(isLoading := false, alerts := u.alerts + [UnenrollFailedAlert])
  }

  /** Unenrolling keeps the list free of codes that differ only in case, and
      leaves no course with that code. */
  lemma UnenrollStepKeepsDistinct(u: Ui, code: string, succeeded: bool)
    requires DistinctCodes(u.currentCourses)
    ensures DistinctCodes(UnenrollStep(u, code, succeeded).currentCourses)
    ensures succeeded ==> forall c :: c in UnenrollStep(u, code, succeeded).currentCourses ==> c.code != code
  {
    RemoveCodeKeepsDistinct(u.currentCourses, code);
  }

  class Section {
    var courseCode: string
    var isLoading: bool
    var currentCourses: seq<Course>
    /** The lists passed to `onCoursesUpdated`, oldest first. */
    var notified: seq<seq<Course>>
    /** The alerts shown, oldest first. */
    var alerts: seq<Alert>

    ghost function State(): Ui
      reads this
    {
      Ui(courseCode, isLoading, currentCourses, notified, alerts)
    }

    constructor ()
      ensures State() == Ui([], false, [], [], [])
    {
      courseCode, isLoading, currentCourses, notified, alerts := [], false, [], [], [];
    }

    /** The effect that copies the `courses` prop into the list. */
    method SyncCourses(courses: seq<Course>)
      modifies this
      ensures State() == old(State()).(currentCourses := courses)
    {
      currentCourses := courses;
    }

    /** The text field's `onChangeText`. */
    method EditCode(text: string)
      modifies this
      ensures State() == old(State()).(courseCode := text)
    {
      courseCode := text;
    }

    /** `handleEnrollCourse`, with the server's reply as a parameter; returns the
        `course_code` posted, if a request was made. */
    method HandleEnrollCourse(reply: EnrollReply) returns (sent: Option<string>)
      modifies this
      ensures sent == EnrollStep(old(State()), reply).1
      ensures State() == EnrollStep(old(State()), reply).0
    {
      var v := ValidateEnroll(currentCourses, courseCode);
      if v.Refuse? {
        alerts := alerts + [v.alert];
        return None;
      }
      isLoading := true;
      sent := Some(v.courseCode);
      match reply {
        case Enrolled(course) =>
          var updated := currentCourses + [course];
          currentCourses := updated;
          notified := notified + [updated];
          courseCode := [];
        case EmptyReply =>
        case EnrolledWithoutCourse =>
          alerts := alerts + [Alert(EnrollErrorTitle, EnrollErrorMessage(None))];
        case EnrollRejected(detail) =>
          alerts := alerts + [Alert(EnrollErrorTitle, EnrollErrorMessage(detail))];
      }
      isLoading := false;
    }

    /** `handleUnenrollCourse(code)`, with whether the request succeeded as a
        parameter; returns the `course_code` posted, which is the code as listed. */
    method HandleUnenrollCourse(code: string, succeeded: bool) returns (sent: string)
      modifies this
      ensures sent == code
      ensures State() == UnenrollStep(old(State()), code, succeeded)
    {
      isLoading := true;
      sent := code;
      if succeeded {
        var updated := RemoveCode(currentCourses, code);
        currentCourses := updated;
        notified := notified + [updated];
      } else {
        alerts := alerts + [UnenrollFailedAlert];
      }
      isLoading := false;
    }
  }
}
