/** The backend's relation-table actions (`UserCourseViewSet.enroll/unenroll`,
    `StudySessionViewSet.join/leave`, `FriendshipViewSet.request_friendship/
    accept/reject`) and the `UserViewSet.study_sessions` query, over a database
    object whose fields are the tables. The authenticated user (`request.user`)
    and the request's JSON fields are parameters. */
module Views {
  import opened Wrappers
  import opened Models

  const HTTP_200_OK: int := 200
  const HTTP_201_CREATED: int := 201
  const HTTP_204_NO_CONTENT: int := 204
  const HTTP_400_BAD_REQUEST: int := 400
  const HTTP_403_FORBIDDEN: int := 403
  const HTTP_404_NOT_FOUND: int := 404
  /** An `IntegrityError` raised by `objects.create` and not caught by the view. */
  const HTTP_500_INTERNAL_SERVER_ERROR: int := 500

  const AlreadyEnrolled := "User is already enrolled in this course."
  const AlreadyParticipant := "User is already a participant in this session."
  const RequestExists := "Friendship request already exists."
  const OnlyRecipientAccepts := "Only the request recipient can accept the friendship."
  const OnlyRecipientRejects := "Only the request recipient can reject the friendship."

  /** What a response carries: nothing, a `detail` message, or the serialized
      row with this primary key. */
  datatype Body = NoBody | Detail(message: string) | Row(id: RowId)

  datatype Response = Response(status: int, body: Body)

  /** What `study_sessions` can answer: the 404 of `get_object`, the `FieldError`
      raised while `filter` builds a lookup it cannot resolve (a 500), or the
      created and participating sessions. */
  datatype SessionsReply = SessionsNotFound | LookupFailed | SessionLists(created: set<SessionId>, participating: set<SessionId>)

  /** A snapshot of every table, used to say what an action leaves unchanged. */
  datatype Db = Db(
    users: set<UserId>,
    courses: set<CourseId>,
    sessions: map<SessionId, StudySession>,
    userCourses: map<RowId, UserCourse>,
    participants: map<RowId, SessionParticipant>,
    friendships: map<RowId, Friendship>,
    socialLinks: map<RowId, SocialMediaLink>,
    nextUserCourseId: RowId,
    nextParticipantId: RowId,
    nextFriendshipId: RowId)

  class Backend {
    var users: set<UserId>
    var courses: set<CourseId>
    var sessions: map<SessionId, StudySession>
    var userCourses: map<RowId, UserCourse>
    var participants: map<RowId, SessionParticipant>
    var friendships: map<RowId, Friendship>
    var socialLinks: map<RowId, SocialMediaLink>
    /** The next value of each table's `AutoField`. */
    var nextUserCourseId: RowId
    var nextParticipantId: RowId
    var nextFriendshipId: RowId

    ghost function State(): Db
      reads this
    {
      Db(users, courses, sessions, userCourses, participants, friendships, socialLinks,
         nextUserCourseId, nextParticipantId, nextFriendshipId)
    }

    /** The database constraints: `unique_together` on every relation table, every
        foreign key pointing at an existing row, and primary keys below the next
        `AutoField` value. */
    ghost predicate Valid()
      reads this
    {
      && UniqueTogether(userCourses, UserCourseKey)
      && UniqueTogether(participants, ParticipantKey)
      && UniqueTogether(friendships, FriendshipKey)
      && UniqueTogether(socialLinks, SocialLinkKey)
      && (forall s :: s in sessions ==> sessions[s].creator in users && sessions[s].course in courses)
      && (forall id :: id in userCourses ==>
            id < nextUserCourseId && userCourses[id].user in users && userCourses[id].course in courses)
      && (forall id :: id in participants ==>
            id < nextParticipantId && participants[id].session in sessions && participants[id].user in users)
      && (forall id :: id in friendships ==>
            id < nextFriendshipId && friendships[id].requester in users && friendships[id].addressee in users)
      && (forall id :: id in socialLinks ==> socialLinks[id].user in users)
    }

    /** A database with the given users, courses and study sessions and no
        enrollments, participants, friendships or social links. */
    constructor (users: set<UserId>, courses: set<CourseId>, sessions: map<SessionId, StudySession>)
      requires forall s :: s in sessions ==> sessions[s].creator in users && sessions[s].course in courses
      ensures Valid()
      ensures State() == Db(users, courses, sessions, map[], map[], map[], map[], 0, 0, 0)
    {
      this.users, this.courses, this.sessions := users, courses, sessions;
      userCourses, participants, friendships, socialLinks := map[], map[], map[], map[];
      nextUserCourseId, nextParticipantId, nextFriendshipId := 0, 0, 0;
    }

    /** `POST enrollments/enroll/` with `course_id` read from the request body
        (`None` when the body has no such field). */
    method Enroll(user: UserId, courseId: Option<CourseId>) returns (resp: Response)
      requires Valid() && user in users
      modifies this
      ensures Valid()
      ensures State() == old(State()).(userCourses := userCourses, nextUserCourseId := nextUserCourseId)
      ensures courseId.Some? && old(HasRow(userCourses, UserCourseKey, (user, courseId.value))) ==>
        && resp == Response(HTTP_400_BAD_REQUEST, Detail(AlreadyEnrolled))
        && userCourses == old(userCourses) && nextUserCourseId == old(nextUserCourseId)
      // the counter is left open here: a refused INSERT may use up a sequence value
      ensures courseId.None? || courseId.value !in courses ==>
        resp == Response(HTTP_500_INTERNAL_SERVER_ERROR, NoBody) && userCourses == old(userCourses)
      ensures courseId.Some? && courseId.value in courses && !old(HasRow(userCourses, UserCourseKey, (user, courseId.value))) ==>
        && resp.status == HTTP_201_CREATED && resp.body.Row? && resp.body.id !in old(userCourses)
        && userCourses == old(userCourses)[resp.body.id := UserCourse(user, courseId.value)]
    {
      // filter(user_id=..., course_id=None).exists() is False: no row has a null course
      if courseId.Some? && HasRow(userCourses, UserCourseKey, (user, courseId.value)) {
        return Response(HTTP_400_BAD_REQUEST, Detail(AlreadyEnrolled));
      }
      if courseId.None? || courseId.value !in courses {
        // the NOT NULL / FOREIGN KEY constraint on UserCourse.course refuses the row
        return Response(HTTP_500_INTERNAL_SERVER_ERROR, NoBody);
      }
      var id := nextUserCourseId;
      var row := UserCourse(user, courseId.value);
      UniqueAfterInsert(userCourses, UserCourseKey, id, row);
      userCourses := userCourses[id := row];
      nextUserCourseId := nextUserCourseId + 1;
      resp := Response(HTTP_201_CREATED, Row(id));
    }

    /** `POST enrollments/unenroll/`: `get_object_or_404` on the pair, then delete. */
    method Unenroll(user: UserId, courseId: Option<CourseId>) returns (resp: Response)
      requires Valid()
      modifies this
      ensures Valid()
      ensures State() == old(State()).(userCourses := userCourses)
      ensures courseId.None? || !old(HasRow(userCourses, UserCourseKey, (user, courseId.value))) ==>
        resp == Response(HTTP_404_NOT_FOUND, NoBody) && userCourses == old(userCourses)
      ensures courseId.Some? && old(HasRow(userCourses, UserCourseKey, (user, courseId.value))) ==>
        && resp == Response(HTTP_204_NO_CONTENT, NoBody)
        && |old(RowsWithKey(userCourses, UserCourseKey, (user, courseId.value)))| == 1
        && userCourses == old(userCourses) - old(RowsWithKey(userCourses, UserCourseKey, (user, courseId.value)))
        && !HasRow(userCourses, UserCourseKey, (user, courseId.value))
    {
      if courseId.None? || !HasRow(userCourses, UserCourseKey, (user, courseId.value)) {
        return Response(HTTP_404_NOT_FOUND, NoBody);
      }
      var id :| id in userCourses && UserCourseKey(userCourses[id]) == (user, courseId.value);
      assert RowsWithKey(userCourses, UserCourseKey, (user, courseId.value)) == {id};
      UniqueAfterDelete(userCourses, UserCourseKey, id);
      userCourses := userCourses - {id};
      resp := Response(HTTP_204_NO_CONTENT, NoBody);
    }

    /** `POST study-sessions/<pk>/join/`. */
    method Join(sessionId: SessionId, user: UserId) returns (resp: Response)
      requires Valid() && user in users
      modifies this
      ensures Valid()
      ensures State() == old(State()).(participants := participants, nextParticipantId := nextParticipantId)
      ensures sessionId !in sessions ==>
        && resp == Response(HTTP_404_NOT_FOUND, NoBody)
        && participants == old(participants) && nextParticipantId == old(nextParticipantId)
      ensures sessionId in sessions && old(HasRow(participants, ParticipantKey, (sessionId, user))) ==>
        && resp == Response(HTTP_400_BAD_REQUEST, Detail(AlreadyParticipant))
        && participants == old(participants) && nextParticipantId == old(nextParticipantId)
      ensures sessionId in sessions && !old(HasRow(participants, ParticipantKey, (sessionId, user))) ==>
        && resp.status == HTTP_201_CREATED && resp.body.Row? && resp.body.id !in old(participants)
        && participants == old(participants)[resp.body.id := SessionParticipant(sessionId, user)]
    {
      if sessionId !in sessions {
        return Response(HTTP_404_NOT_FOUND, NoBody);
      }
      if HasRow(participants, ParticipantKey, (sessionId, user)) {
        return Response(HTTP_400_BAD_REQUEST, Detail(AlreadyParticipant));
      }
      var id := nextParticipantId;
      var row := SessionParticipant(sessionId, user);
      UniqueAfterInsert(participants, ParticipantKey, id, row);
      participants := participants[id := row];
      nextParticipantId := nextParticipantId + 1;
      resp := Response(HTTP_201_CREATED, Row(id));
    }

    /** `POST study-sessions/<pk>/leave/`. */
    method Leave(sessionId: SessionId, user: UserId) returns (resp: Response)
      requires Valid()
      modifies this
      ensures Valid()
      ensures State() == old(State()).(participants := participants)
      ensures sessionId !in sessions || !old(HasRow(participants, ParticipantKey, (sessionId, user))) ==>
        resp == Response(HTTP_404_NOT_FOUND, NoBody) && participants == old(participants)
      ensures sessionId in sessions && old(HasRow(participants, ParticipantKey, (sessionId, user))) ==>
        && resp == Response(HTTP_204_NO_CONTENT, NoBody)
        && |old(RowsWithKey(participants, ParticipantKey, (sessionId, user)))| == 1
        && participants == old(participants) - old(RowsWithKey(participants, ParticipantKey, (sessionId, user)))
        && !HasRow(participants, ParticipantKey, (sessionId, user))
    {
      if sessionId !in sessions || !HasRow(participants, ParticipantKey, (sessionId, user)) {
        return Response(HTTP_404_NOT_FOUND, NoBody);
      }
      var id :| id in participants && ParticipantKey(participants[id]) == (sessionId, user);
      assert RowsWithKey(participants, ParticipantKey, (sessionId, user)) == {id};
      UniqueAfterDelete(participants, ParticipantKey, id);
      participants := participants - {id};
      resp := Response(HTTP_204_NO_CONTENT, NoBody);
    }

    /** `POST friendships/request_friendship/` with `addressee_id` read from the
        request body. Only the (requester, addressee) direction is looked up, so
        a request in the opposite direction never blocks a new one. */
    method RequestFriendship(requester: UserId, addresseeId: Option<UserId>) returns (resp: Response)
      requires Valid() && requester in users
      modifies this
      ensures Valid()
      ensures State() == old(State()).(friendships := friendships, nextFriendshipId := nextFriendshipId)
      ensures addresseeId.Some? && old(HasRow(friendships, FriendshipKey, (requester, addresseeId.value))) ==>
        && resp == Response(HTTP_400_BAD_REQUEST, Detail(RequestExists))
        && friendships == old(friendships) && nextFriendshipId == old(nextFriendshipId)
      // the counter is left open here: a refused INSERT may use up a sequence value
      ensures addresseeId.None? || addresseeId.value !in users ==>
        resp == Response(HTTP_500_INTERNAL_SERVER_ERROR, NoBody) && friendships == old(friendships)
      ensures addresseeId.Some? && addresseeId.value in users
              && !old(HasRow(friendships, FriendshipKey, (requester, addresseeId.value))) ==>
        && resp.status == HTTP_201_CREATED && resp.body.Row? && resp.body.id !in old(friendships)
        && friendships == old(friendships)[resp.body.id := Friendship(requester, addresseeId.value, Pending)]
    {
      if addresseeId.Some? && HasRow(friendships, FriendshipKey, (requester, addresseeId.value)) {
        return Response(HTTP_400_BAD_REQUEST, Detail(RequestExists));
      }
      if addresseeId.None? || addresseeId.value !in users {
        // the NOT NULL / FOREIGN KEY constraint on Friendship.addressee refuses the row
        return Response(HTTP_500_INTERNAL_SERVER_ERROR, NoBody);
      }
      var id := nextFriendshipId;
      var row := Friendship(requester, addresseeId.value, Pending);
      UniqueAfterInsert(friendships, FriendshipKey, id, row);
      friendships := friendships[id := row];
      nextFriendshipId := nextFriendshipId + 1;
      resp := Response(HTTP_201_CREATED, Row(id));
    }

    /** `POST friendships/<pk>/accept/`. */
    method Accept(friendshipId: RowId, user: UserId) returns (resp: Response)
      requires Valid()
      modifies this
      ensures Valid()
      ensures State() == old(State()).(friendships := friendships)
      ensures friendshipId !in old(friendships) ==> resp == Response(HTTP_404_NOT_FOUND, NoBody) && friendships == old(friendships)
      ensures friendshipId in old(friendships) && old(friendships[friendshipId].addressee) != user ==>
        resp == Response(HTTP_403_FORBIDDEN, Detail(OnlyRecipientAccepts)) && friendships == old(friendships)
      ensures friendshipId in old(friendships) && old(friendships[friendshipId].addressee) == user ==>
        && resp == Response(HTTP_200_OK, Row(friendshipId))
        && friendships == old(friendships)[friendshipId := old(friendships[friendshipId]).(status := Accepted)]
    {
      if friendshipId !in friendships {
        return Response(HTTP_404_NOT_FOUND, NoBody);
      }
      var f := friendships[friendshipId];
      if f.addressee != user {
        return Response(HTTP_403_FORBIDDEN, Detail(OnlyRecipientAccepts));
      }
      UniqueAfterUpdate(friendships, FriendshipKey, friendshipId, f.(status := Accepted));
      friendships := friendships[friendshipId := f.(status := Accepted)];
      resp := Response(HTTP_200_OK, Row(friendshipId));
    }

    /** `POST friendships/<pk>/reject/`. */
    method Reject(friendshipId: RowId, user: UserId) returns (resp: Response)
      requires Valid()
      modifies this
      ensures Valid()
      ensures State() == old(State()).(friendships := friendships)
      ensures friendshipId !in old(friendships) ==> resp == Response(HTTP_404_NOT_FOUND, NoBody) && friendships == old(friendships)
      ensures friendshipId in old(friendships) && old(friendships[friendshipId].addressee) != user ==>
        resp == Response(HTTP_403_FORBIDDEN, Detail(OnlyRecipientRejects)) && friendships == old(friendships)
      ensures friendshipId in old(friendships) && old(friendships[friendshipId].addressee) == user ==>
        && resp == Response(HTTP_200_OK, Row(friendshipId))
        && friendships == old(friendships)[friendshipId := old(friendships[friendshipId]).(status := Rejected)]
    {
      if friendshipId !in friendships {
        return Response(HTTP_404_NOT_FOUND, NoBody);
      }
      var f := friendships[friendshipId];
      if f.addressee != user {
        return Response(HTTP_403_FORBIDDEN, Detail(OnlyRecipientRejects));
      }
      UniqueAfterUpdate(friendships, FriendshipKey, friendshipId, f.(status := Rejected));
      friendships := friendships[friendshipId := f.(status := Rejected)];
      resp := Response(HTTP_200_OK, Row(friendshipId));
    }

    /** The sessions a user is linked to: created by them, or holding a
        participant row for them. */
    ghost function LinkedSessions(user: UserId): set<SessionId>
      reads this
    {
      set s | s in sessions && (sessions[s].creator == user || HasRow(participants, ParticipantKey, (s, user)))
    }

    /** `GET users/<pk>/study_sessions/` as written: after `get_object`, the
        filter `participants__user=user` follows the `participants` field to
        `User` and then asks `User` for a `user`, which it does not have
        (`UserHasNoUserLookup`); Django refuses the lookup for every known user. */
    function StudySessionsAsWritten(user: UserId): (r: SessionsReply)
      reads this
      ensures r.SessionsNotFound? <==> user !in users
      ensures r.LookupFailed? <==> user in users
    {
      if user !in users then SessionsNotFound else LookupFailed
    }

    /** Every known user gets the lookup error from the view as written, while
        the lists the view is meant to give exist for that user. */
    lemma StudySessionsAsWrittenFails(user: UserId)
      requires user in users
      ensures "user" !in UserQueryNames
      ensures StudySessionsAsWritten(user) == LookupFailed
      ensures StudySessions(user).Some?
    {
      UserHasNoUserLookup();
    }

    /** `GET users/<pk>/study_sessions/` as intended: the user's created
        sessions and the sessions they participate in but did not create;
        `None` is the 404 of `get_object` for an unknown user. The two lists
        never share a session and together hold every session the user is
        linked to. */
    function StudySessions(user: UserId): (r: Option<(set<SessionId>, set<SessionId>)>)
      reads this
      ensures r.Some? <==> user in users
      ensures r.Some? ==> r.value.0 !! r.value.1
      ensures r.Some? ==> r.value.0 + r.value.1 == LinkedSessions(user)
      ensures r.Some? ==> r.value.0 == set s | s in sessions && sessions[s].creator == user
      ensures r.Some? ==> forall s :: s in r.value.1 ==> s in sessions && sessions[s].creator != user
      ensures r.Some? ==> forall s :: s in r.value.1 ==> HasRow(participants, ParticipantKey, (s, user))
    {
      if user !in users then None
      else
        var created := set s | s in sessions && sessions[s].creator == user;
        var participating := set s | s in sessions && HasRow(participants, ParticipantKey, (s, user))
                                     && sessions[s].creator != user;
        Some((created, participating))
    }
  }
}
