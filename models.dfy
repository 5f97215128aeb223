/** The backend's tables (Django models): the row of each table as a datatype,
    the `unique_together` constraints as a predicate over a table keyed by its
    automatic primary key, the friendship status choices and `Course.__str__`. */
module Models {
  import opened Wrappers

  type UserId = nat
  type CourseId = nat
  type SessionId = nat
  /** An `AutoField` primary key. */
  type RowId = nat

  datatype Course = Course(courseId: CourseId, courseCode: string, title: string, subject: string, description: string)

  /** `Course.__str__`. */
  function CourseLabel(c: Course): string {
    c.courseCode + ": " + c.title
  }

  /** The text of a label before its first ':'. */
  function LabelCode(lbl: string): (r: string)
    ensures |r| <= |lbl| && r == lbl[..|r|] && ':' !in r
    ensures |r| < |lbl| ==> lbl[|r|] == ':'
  {
    if lbl == [] || lbl[0] == ':' then [] else [lbl[0]] + LabelCode(lbl[1..])
  }

  /** The text of a label after its first ": ". */
  function LabelTitle(lbl: string): string {
    var n := |LabelCode(lbl)| + 2;
    if n <= |lbl| then lbl[n..] else []
  }

  /** The code part of a code followed by ':' is that code, if it holds no ':'. */
  lemma {:induction false} LabelCodeOf(code: string, rest: string)
    requires ':' !in code && rest != [] && rest[0] == ':'
    ensures LabelCode(code + rest) == code
  {
    if code == [] {
      assert code + rest == rest;
    } else {
      assert (code + rest)[1..] == code[1..] + rest;
      LabelCodeOf(code[1..], rest);
    }
  }

  /** A course label reads back as its code and title when the code holds no ':',
      so the label determines both fields. */
  lemma CourseLabelRoundTrip(c: Course)
    requires ':' !in c.courseCode
    ensures LabelCode(CourseLabel(c)) == c.courseCode
    ensures LabelTitle(CourseLabel(c)) == c.title
  {
    var rest := ": " + c.title;
    assert CourseLabel(c) == c.courseCode + rest;
    LabelCodeOf(c.courseCode, rest);
    assert CourseLabel(c)[|c.courseCode| + 2..] == c.title;
  }

  /** `Friendship.STATUS_CHOICES`: the only values the status column takes. */
  datatype FriendshipStatus = Pending | Accepted | Rejected

  /** The column's `default='pending'`. */
  const DefaultStatus: FriendshipStatus := Pending

  /** The value stored in the status column. */
  function StatusValue(s: FriendshipStatus): string {
    match s
    case Pending => "pending"
    case Accepted => "accepted"
    case Rejected => "rejected"
  }

  /** Reads a stored status value; anything outside the choices is refused. */
  function ParseStatus(v: string): (r: Option<FriendshipStatus>)
    ensures r.Some? <==> v in {"pending", "accepted", "rejected"}
    ensures r.Some? ==> StatusValue(r.value) == v
  {
    if v == "pending" then Some(Pending)
    else if v == "accepted" then Some(Accepted)
    else if v == "rejected" then Some(Rejected)
    else None
  }

  /** Every status is stored as a value that reads back as itself. */
  lemma StatusRoundTrip(s: FriendshipStatus)
    ensures ParseStatus(StatusValue(s)) == Some(s)
  {
  }

  /** The names a query can follow from a `User` row: the fields of Django's
      `AbstractUser` and the ones `User` adds, then the reverse query names of
      the relations to `User` declared here (a model's lower-cased name unless a
      `related_name` replaces it). */
  const UserQueryNames: set<string> := {
    "id", "password", "last_login", "is_superuser", "username", "first_name", "last_name",
    "email", "is_staff", "is_active", "date_joined", "groups", "user_permissions",
    "profile_picture_url", "created_at",
    "usercourse", "course", "created_sessions", "joined_sessions", "sessionparticipant",
    "friendship_requests_sent", "friendship_requests_received", "social_links"
  }

  /** `User` answers to no name `user`, so a lookup that reaches `User` and then
      asks for `user` does not resolve. */
  lemma UserHasNoUserLookup()
    ensures "user" !in UserQueryNames
  {
  }

  datatype UserCourse = UserCourse(user: UserId, course: CourseId)
  datatype StudySession = StudySession(creator: UserId, course: CourseId)
  datatype SessionParticipant = SessionParticipant(session: SessionId, user: UserId)
  datatype Friendship = Friendship(requester: UserId, addressee: UserId, status: FriendshipStatus)
  datatype SocialMediaLink = SocialMediaLink(user: UserId, platform: string, url: string)

  /** A friendship row as created without an explicit status. */
  function NewFriendship(requester: UserId, addressee: UserId): (f: Friendship)
    ensures f.requester == requester && f.addressee == addressee
    ensures f.status == Pending
  {
    Friendship(requester, addressee, DefaultStatus)
  }

  /** The `unique_together` key of each table. */
  function UserCourseKey(r: UserCourse): (UserId, CourseId) { (r.user, r.course) }
  function ParticipantKey(r: SessionParticipant): (SessionId, UserId) { (r.session, r.user) }
  function FriendshipKey(r: Friendship): (UserId, UserId) { (r.requester, r.addressee) }
  function SocialLinkKey(r: SocialMediaLink): (UserId, string) { (r.user, r.platform) }

  /** `unique_together`: no two rows of the table share a key. */
  ghost predicate UniqueTogether<R, K>(table: map<RowId, R>, key: R -> K) {
    forall i, j :: i in table && j in table && key(table[i]) == key(table[j]) ==> i == j
  }

  /** `Model.objects.filter(<key fields> = k).exists()`. */
  predicate HasRow<R, K(==)>(table: map<RowId, R>, key: R -> K, k: K) {
    exists id :: id in table && key(table[id]) == k
  }

  /** The primary keys of the rows with key `k`. */
  function RowsWithKey<R, K(==)>(table: map<RowId, R>, key: R -> K, k: K): set<RowId> {
    set id | id in table && key(table[id]) == k
  }

  /** Under `unique_together` a key selects at most one row. */
  lemma AtMostOneRowPerKey<R, K>(table: map<RowId, R>, key: R -> K, k: K)
    requires UniqueTogether(table, key)
    ensures |RowsWithKey(table, key, k)| <= 1
  {
    var rows := RowsWithKey(table, key, k);
    if rows != {} {
      var a :| a in rows;
      assert rows == {a};
    }
  }

  /** Inserting a row under a fresh primary key whose key is not yet present keeps
      the constraint. */
  lemma UniqueAfterInsert<R, K>(table: map<RowId, R>, key: R -> K, id: RowId, row: R)
    requires UniqueTogether(table, key) && id !in table && !HasRow(table, key, key(row))
    ensures UniqueTogether(table[id := row], key)
  {
  }

  /** Deleting a row keeps the constraint. */
  lemma UniqueAfterDelete<R, K>(table: map<RowId, R>, key: R -> K, id: RowId)
    requires UniqueTogether(table, key)
    ensures UniqueTogether(table - {id}, key)
  {
  }

  /** Replacing a row by one with the same key keeps the constraint. */
  lemma UniqueAfterUpdate<R, K>(table: map<RowId, R>, key: R -> K, id: RowId, row: R)
    requires UniqueTogether(table, key) && id in table && key(row) == key(table[id])
    ensures UniqueTogether(table[id := row], key)
  {
  }

  /** The constraint is on the ordered pair: a request and the reverse request
      can both be rows of the table. */
  lemma ReverseFriendshipsCoexist(a: UserId, b: UserId)
    requires a != b
    ensures UniqueTogether(map[0 := NewFriendship(a, b), 1 := NewFriendship(b, a)], FriendshipKey)
  {
  }
}
