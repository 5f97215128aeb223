# StudyBuddy: a verified model of the relation tables, the S3 URL helper and the client list logic

StudyBuddy is a study-partner app. It has a Django REST backend and React Native
and SwiftUI clients. This project models its sequential logic in Dafny and proves
properties of the model:

- **Backend tables** (`Models`, `Views`). The `UserCourse`, `SessionParticipant`,
  `Friendship` and `SocialMediaLink` tables are maps from their `AutoField`
  primary key to a row datatype.
  - The `unique_together` constraints are a predicate over such a map.
  - `Views.Backend` is a class holding every table. Its invariant `Valid()` is
    the database constraints: uniqueness, foreign keys, and ids below the next
    `AutoField` value.
  - The view actions are methods of that class: `enroll`, `unenroll`, `join`,
    `leave`, `request_friendship`, `accept`, `reject`, and the `study_sessions`
    query.
  - Each method states its status code, its table change and that no other
    table changes, and it preserves `Valid()`.
- **`get_full_s3_url`** (`S3Utils`), for a string argument. The
  `AWS_S3_CUSTOM_DOMAIN` setting is a parameter. Python's `split(d)[-1]` is
  modelled by a left-to-right scan, and an empty domain is modelled as the
  `ValueError` that `split("")` raises.
- **Client pickers** (`Picker`, `CourseView`, `SearchView`, `CourseViewSwift`).
  - The case-insensitive substring filter, guarded by "search text is empty".
  - The selection toggle. The React Native views keep the selection as a list;
    `SearchView.ToggleTag` and `CourseView.ToggleCourse` are both
    `Picker.Toggle`.
  - The SwiftUI view keeps the selection as a `Set` that its tap closure updates
    in place, so it is a class.
- **Request list** (`RequestView`). `handleAccept` and `handleDecline` are
  `HandleAccept` and `HandleDecline`, both defined by `SetStatus`. The card's
  Accept and Decline buttons are `Actions`.
- **Profile course editor** (`CoursesSection`).
  - The enroll validation and the list updates are functions.
  - The component state is a class: the text field, the loading flag, the
    course list, the lists handed to `onCoursesUpdated`, and the alerts shown.
  - The handlers are methods. They take the server's reply as a parameter and
    return the `course_code` they posted.

Shared string helpers are in `Text`:

- ASCII `toLowerCase`/`toUpperCase`
- `trim` over the ECMAScript white-space set
- `startswith`
- substring search
- `lstrip` of one character

The client posts `course_code` to `enrollments/enroll/` and
`enrollments/unenroll/`, while the backend reads `course_id`. Each side is
modelled as written:

- `CoursesSection.Section.HandleEnrollCourse` returns the code it sends.
- `Views.Backend.Enroll` takes the `course_id` field as an `Option`. Against
  this client that field is always `None`.

## Model

| member | source | states |
|---|---|---|
| Models.CourseLabel | backend/api/models.py:46-47 | `Course.__str__`; its round trip is `CourseLabelRoundTrip` |
| Models.CourseLabelRoundTrip | backend/api/models.py:46-47 | the label `"<course_code>: <title>"` reads back as the code and the title when the code holds no ':' |
| Models.ParseStatus | backend/api/models.py:107-111 | a stored status value is accepted exactly when it is one of `pending`, `accepted`, `rejected`, and then it is the stored value of the status read |
| Models.StatusRoundTrip | backend/api/models.py:107-111 | every status is stored as a value that reads back as that status |
| Models.NewFriendship | backend/api/models.py:116 | a friendship created without an explicit status is `pending`, between the given requester and addressee |
| Models.AtMostOneRowPerKey | backend/api/models.py:59-60 | under `unique_together` a key value selects at most one row; the same predicate serves all four tables (models.py:96-97, 120-121, 136-137) |
| Models.UniqueAfterInsert | backend/api/models.py:59-60 | inserting a row whose key is absent, under a fresh primary key, keeps `unique_together` |
| Models.UniqueAfterDelete | backend/api/views.py:141 | deleting a row keeps `unique_together` |
| Models.UniqueAfterUpdate | backend/api/views.py:255-256 | changing a row without changing its key keeps `unique_together` |
| Models.ReverseFriendshipsCoexist | backend/api/models.py:120-121 | the constraint is on the ordered pair: a request and its reverse can both be rows |
| Views.Backend.Enroll | backend/api/views.py:110-129 | an existing (user, course) pair gives 400 with the source's detail and no change; an absent or unknown course gives 500 (the row is refused by the database) and no change to the table; the 400 also leaves the `AutoField` counter alone; otherwise 201 and exactly that pair is added under a fresh id; no other table changes and the constraints hold |
| Views.Backend.Unenroll | backend/api/views.py:131-143 | an absent pair gives 404 and no change; otherwise 204 and exactly the one row with that pair is removed; nothing else changes |
| Views.Backend.Join | backend/api/views.py:167-186 | an unknown session gives 404; an existing participant row gives 400; neither changes the table or its `AutoField` counter; otherwise 201 and exactly one (session, user) row is added |
| Views.Backend.Leave | backend/api/views.py:188-200 | an unknown session or absent row gives 404 and no change; otherwise 204 and exactly that row is removed |
| Views.Backend.RequestFriendship | backend/api/views.py:219-242 | an existing request in the same direction gives 400 and changes neither the table nor its `AutoField` counter (the reverse direction is not looked up); a missing or unknown addressee gives 500; otherwise 201 and one `pending` row is added |
| Views.Backend.Accept | backend/api/views.py:244-259 | an unknown friendship gives 404; anyone but the addressee gets 403 and the table is unchanged; the addressee gets 200 and the status becomes `accepted` whatever it was, with nothing else changed |
| Views.Backend.Reject | backend/api/views.py:261-276 | as `Accept`, with the 403 detail for rejecting and the status becoming `rejected` |
| Views.Backend.StudySessions | backend/api/views.py:37-53 | the intended reading of the view: a 404 exactly for an unknown user; the created list is exactly the sessions the user created; the participating list holds only sessions the user has a participant row in and did not create; the two are disjoint and together hold every session the user created or has a participant row in |
| Views.Backend.StudySessionsAsWritten | backend/api/views.py:37-45 | as written: a 404 exactly for an unknown user, and for every known user the `FieldError` of the unresolvable `participants__user` lookup, a 500 |
| Views.Backend.StudySessionsAsWrittenFails | backend/api/views.py:43-45 | for every known user, `User` answers to no name `user`, the view as written fails, and the intended lists exist |
| Models.UserHasNoUserLookup | backend/api/models.py:6-140 | among the names a query can follow from `User` (its own and `AbstractUser`'s fields, and the reverse names of the relations to it declared in the models) there is no `user` |
| S3Utils.LastPiece | backend/api/utils/s3_utils.py:23 | `split(domain)[-1]` is a suffix of the input that holds no occurrence of the domain |
| S3Utils.LastPieceAfter | backend/api/utils/s3_utils.py:23 | the last piece of `u + domain + r` is `r` when `r` holds no domain and no occurrence runs from `u` into the separator |
| S3Utils.AfterDomain | backend/api/utils/s3_utils.py:23 | what follows the last occurrence of the domain, with its leading '/' stripped, holds no domain and does not start with '/' |
| S3Utils.DropDomain | backend/api/utils/s3_utils.py:22-23 | after the domain-removal step the string holds no domain; an input holding the domain comes out without a leading '/'; an input without it comes out unchanged |
| S3Utils.DropDomainIsSuffix | backend/api/utils/s3_utils.py:22-23 | the domain-removal step keeps a suffix of its input |
| S3Utils.Prefix | backend/api/utils/s3_utils.py:30 | the constructed prefix makes every URL built from it start with "http" |
| S3Utils.FullS3Url | backend/api/utils/s3_utils.py:11-30 | `None` exactly for the empty string; the empty-separator error exactly for a non-empty input with an empty domain; every URL returned starts with "http" |
| S3Utils.ForeignUrlUnchanged | backend/api/utils/s3_utils.py:26-27 | a URL that starts with "http" and does not hold the domain is returned unchanged |
| S3Utils.NoDoubledDomain | backend/api/utils/s3_utils.py:21-30 | the domain occurs in a result at most as its host: the result holds no domain, or it is `https://<domain>/` followed by a path without the domain |
| S3Utils.ReapplyConstructed | backend/api/utils/s3_utils.py:21-30 | applying the function to a URL it built from a path (without the domain and not starting with "http") returns the same URL |
| S3Utils.ReapplySlashHttpDropsHost | backend/api/utils/s3_utils.py:22-30 | for a domain without '/', a path "/" + h with h starting with "http" and holding no domain becomes `https://<domain>/` + h, and applying the function to that URL gives back the bare h: re-applying drops the host |
| S3Utils.FullS3UrlFixed | backend/api/utils/s3_utils.py:22-30 | with the "http" test after stripping leading '/', the same `None`, error and "starts with http" guarantees hold |
| S3Utils.FixedAgreesElsewhere | backend/api/utils/s3_utils.py:22-30 | the corrected function differs from the original only on paths without the domain that start with '/' followed by "http" |
| S3Utils.FixedKeepsHttpUrl | backend/api/utils/s3_utils.py:22-27 | the corrected function returns a domain-free URL starting with "http" unchanged |
| S3Utils.FixedKeepsBuiltUrl | backend/api/utils/s3_utils.py:21-30 | the corrected function returns unchanged a URL it built from a domain-free path that neither starts with '/' nor with "http" |
| S3Utils.FixedIdempotent | backend/api/utils/s3_utils.py:21-30 | the corrected function returns every URL it produced unchanged, for a domain without '/' |
| Text.Trim | frontend/components/ProfileEdit/CoursesSection.tsx:66 | `trim()` as trimming the start and then the end; its properties are `TrimStartSuffix`, `TrimEndPrefix`, `TrimmedEnds` and `TrimProperties` |
| Text.Lower | frontend/components/ProfileEdit/CoursesSection.tsx:71 | `toLowerCase()` keeps the length and lower-cases each character with the ASCII mapping |
| Text.Upper | frontend/components/ProfileEdit/CoursesSection.tsx:80 | `toUpperCase()` keeps the length and upper-cases each character with the ASCII mapping |
| Text.TrimStartSuffix | frontend/components/ProfileEdit/CoursesSection.tsx:66 | trimming the start leaves the suffix that begins at the first non-space character: everything dropped is white space |
| Text.TrimEndPrefix | frontend/components/ProfileEdit/CoursesSection.tsx:66 | trimming the end leaves the prefix that ends at the last non-space character: everything dropped is white space |
| Text.TrimmedEnds | frontend/components/ProfileEdit/CoursesSection.tsx:66 | a non-empty `trim()` result neither starts nor ends with white space |
| Text.TrimProperties | frontend/components/ProfileEdit/CoursesSection.tsx:66 | `trim()` is empty exactly for an all-white-space string, and a non-empty result has no white space at either end |
| Text.LowerOfUpper | frontend/components/ProfileEdit/CoursesSection.tsx:71-80 | with the ASCII case mapping, an upper-cased string lower-cases to the same string as the original, so the posted code compares equal to the typed one ignoring case |
| Text.UpperIdempotent | frontend/components/ProfileEdit/CoursesSection.tsx:80 | upper-casing twice is upper-casing once |
| Text.StripLeading | backend/api/utils/s3_utils.py:23 | `lstrip('/')` drops exactly the leading run of '/' and leaves a string not starting with '/' |
| Text.StripLeadingIdempotent | backend/api/utils/s3_utils.py:30 | stripping again strips nothing more |
| Picker.MatchFilter | frontend/components/CourseView.js:21-23 | the filtered list keeps, in their order and with their multiplicity, exactly the items whose lower-cased text contains the lower-cased search |
| Picker.SearchFilter | frontend/components/CourseView.js:20-24 | an empty search gives the whole list; otherwise the result is an ordered sub-list holding exactly the matching items, each as often as in the list |
| Picker.EmptySearchMatchesAll | frontend/components/CourseView.js:20-24 | every item contains the empty search, so the filter alone already gives the whole list |
| Picker.SearchFilterIsFilter | frontend/components/CourseView.js:20-24 | the guarded filter equals the plain filter for every search text |
| Picker.Remove | frontend/components/CourseView.js:29 | `filter(c => c !== x)` drops every copy of `x`, keeps every other element with its multiplicity and in its order |
| Picker.RemoveAbsent | frontend/components/CourseView.js:29 | removing an element that is not selected changes nothing |
| Picker.RemoveAppend | frontend/components/CourseView.js:29 | the filter distributes over concatenation, so it keeps the order of what remains |
| Picker.Toggle | frontend/components/CourseView.js:26-31 | the toggled element's membership flips and no other element's changes; an unselected element is appended at the end; a selected one is removed, keeping the others in order and as often as before |
| Picker.ToggleKeepsNoDup | frontend/components/CourseView.js:26-31 | toggling a selection without duplicates never creates one |
| Picker.ToggleTwiceUnselected | frontend/components/CourseView.js:26-31 | toggling an unselected element twice restores the selection exactly |
| Picker.ToggleTwiceSelected | frontend/components/CourseView.js:26-31 | toggling a selected element twice restores the selection as a set, with that element moved to the end |
| Picker.SelectionOrder | frontend/components/SearchView.js:21-27 | tapping distinct unselected elements appends them in the order tapped |
| CourseView.FilteredCourses | frontend/components/CourseView.js:20-24 | an empty search gives all eight courses; otherwise exactly the courses that contain the search ignoring case, in list order |
| CourseView.SearchIgnoresCase | frontend/components/CourseView.js:20-24 | the search "MOBILE" finds "Mobile Dev" |
| SearchView.FilteredTags | frontend/components/SearchView.js:30-34 | an empty search gives all tags; otherwise exactly the tags that contain the search ignoring case, in list order |
| SearchView.ToggleTag | frontend/components/SearchView.js:21-27 | a new tag goes to the end, a deselected one leaves the rest in order, no other tag changes membership, and no duplicates appear |
| SearchView.SelectedInTapOrder | frontend/components/SearchView.js:58-69 | from an empty selection, distinct taps are listed under "Selected:" in tap order |
| CourseViewSwift.Tapped | StudyBuddy/CourseView.swift:47-51 | a tap removes the course if selected and inserts it otherwise; no other course changes |
| CourseViewSwift.TapTwice | StudyBuddy/CourseView.swift:47-51 | two taps on the same course restore the set |
| CourseViewSwift.MarkRows | StudyBuddy/CourseView.swift:45-46 | one row per shown course, marked selected exactly when the course is in the set |
| CourseViewSwift.CourseView.constructor | StudyBuddy/CourseView.swift:11-12 | the view starts with an empty search and no selection |
| CourseViewSwift.CourseView.FilteredCourses | StudyBuddy/CourseView.swift:25-31 | an empty search gives every course; otherwise exactly the courses containing the search ignoring case, in list order |
| CourseViewSwift.CourseView.Rows | StudyBuddy/CourseView.swift:45-46 | the rows follow the filtered list, and a row is selected exactly when its course is in `selectedCourses` |
| CourseViewSwift.CourseView.EditSearch | StudyBuddy/CourseView.swift:40 | the search bar sets the search text and leaves the selection alone |
| CourseViewSwift.CourseView.Tap | StudyBuddy/CourseView.swift:47-51 | the selection becomes `Tapped` of the old one; the search text is unchanged |
| RequestView.SetStatus | frontend/components/RequestView.js:25-39 | the list keeps its length, order and ids; items with the id get the new status and nothing else changes; every other item is unchanged |
| RequestView.HandleAccept | frontend/components/RequestView.js:25-31 | `handleAccept` is `SetStatus` with `Accepted` |
| RequestView.HandleDecline | frontend/components/RequestView.js:33-39 | `handleDecline` is `SetStatus` with `Declined` |
| RequestView.SetStatusLastWins | frontend/components/RequestView.js:25-39 | of two status updates for the same id the later one wins, for example declining after accepting gives `Declined` |
| RequestView.HandlersIdempotent | frontend/components/RequestView.js:25-39 | accepting twice is accepting once; declining twice is declining once |
| RequestView.SetStatusCommutes | frontend/components/RequestView.js:25-39 | updates for different ids can be done in either order |
| RequestView.Actions | frontend/components/RequestView.js:47-63 | an item offers an action exactly when it is pending, and then the actions are Accept and Decline, in that order |
| RequestView.DummyRequestsActions | frontend/components/RequestView.js:4-23 | on the starting list only the first card offers Accept and Decline, and after accepting id "1" no card offers an action |
| RequestView.HandledItemsOfferNothing | frontend/components/RequestView.js:47-63 | after accepting or declining an id, no item with that id offers an action |
| CoursesSection.SomeCodeIsIndex | frontend/components/ProfileEdit/CoursesSection.tsx:71 | the front-to-back `some` scan finds a code exactly when some index of the list holds a course with that lower-cased code |
| CoursesSection.ValidateEnroll | frontend/components/ProfileEdit/CoursesSection.tsx:65-81 | the two guards of the handler and the code it posts; stated by `ValidateEnrollCases` |
| CoursesSection.ValidateEnrollCases | frontend/components/ProfileEdit/CoursesSection.tsx:65-81 | refused with "Please enter a course code" exactly when the trimmed code is empty; refused with "Already Enrolled" exactly when it is non-empty and a listed code equals it ignoring case; otherwise the trimmed, upper-cased code is sent |
| CoursesSection.SentCodeIsNew | frontend/components/ProfileEdit/CoursesSection.tsx:66-81 | with the ASCII case mapping, a sent code is non-empty, has no white space at either end, is already upper case, and differs ignoring case from every listed code |
| CoursesSection.AppendKeepsDistinct | frontend/components/ProfileEdit/CoursesSection.tsx:71-90 | with the ASCII case mapping, when the server returns a course with the sent code, appending it keeps the list free of codes that differ only in case |
| CoursesSection.EnrollStep | frontend/components/ProfileEdit/CoursesSection.tsx:65-109 | the state after `handleEnrollCourse` and the code posted; stated by `EnrollStepEffects` and `EnrollStepKeepsDistinct` |
| CoursesSection.EnrollStepEffects | frontend/components/ProfileEdit/CoursesSection.tsx:65-109 | a refused code only adds its validation alert and sends nothing; a sent code is the trimmed, upper-cased input and the step ends not loading; the list grows by exactly the returned course on success and is unchanged otherwise; the parent is notified, and the field cleared, exactly when the list changes; at most one alert is added and only when the list is unchanged; a rejection shows the server's detail or the default message, and a body without a course the default message |
| CoursesSection.EnrollStepKeepsDistinct | frontend/components/ProfileEdit/CoursesSection.tsx:65-109 | with the ASCII case mapping, when the server returns the course whose code was sent, ignoring case, an enroll step keeps the list free of codes that differ only in case |
| CoursesSection.UnenrollStep | frontend/components/ProfileEdit/CoursesSection.tsx:111-127 | unenrolling ends not loading and leaves the field alone; on success the list becomes `RemoveCode` of the old list, the parent gets it and no alert is added; on failure the list and notifications are unchanged and one "Failed to unenroll from course" alert is added |
| CoursesSection.UnenrollStepKeepsDistinct | frontend/components/ProfileEdit/CoursesSection.tsx:111-127 | unenrolling keeps the list free of codes that differ only in case, and on success no course with the code is left |
| CoursesSection.EnrollErrorMessage | frontend/components/ProfileEdit/CoursesSection.tsx:103-105 | the alert shows the server's non-empty `detail`, or else the fixed message; it is never empty |
| CoursesSection.RemoveCode | frontend/components/ProfileEdit/CoursesSection.tsx:119 | exactly the courses whose code differs from the given code, compared case-sensitively, each as often as before |
| CoursesSection.RemoveCodeAppend | frontend/components/ProfileEdit/CoursesSection.tsx:119 | the filter distributes over concatenation, so the kept courses stay in order |
| CoursesSection.RemoveCodeKeepsDistinct | frontend/components/ProfileEdit/CoursesSection.tsx:119 | unenrolling keeps the list free of codes that differ only in case |
| CoursesSection.Section.constructor | frontend/components/ProfileEdit/CoursesSection.tsx:29-31 | empty field, not loading, empty list, nothing notified or alerted |
| CoursesSection.Section.SyncCourses | frontend/components/ProfileEdit/CoursesSection.tsx:35-37 | the `courses` prop replaces the list and nothing else changes |
| CoursesSection.Section.EditCode | frontend/components/ProfileEdit/CoursesSection.tsx:196 | typing sets the field and nothing else |
| CoursesSection.Section.HandleEnrollCourse | frontend/components/ProfileEdit/CoursesSection.tsx:65-109 | the handler's new state and posted code are those of `EnrollStep` from its old state, so `EnrollStepEffects` and `EnrollStepKeepsDistinct` hold of it: a refused code only adds its alert, a sent one is appended on success with the parent notified and the field cleared, and a failure adds one "Enrollment Error" alert |
| CoursesSection.Section.HandleUnenrollCourse | frontend/components/ProfileEdit/CoursesSection.tsx:111-127 | it posts the code as listed, and its new state is `UnenrollStep` of its old state, so `UnenrollStepKeepsDistinct` holds of it |

## Left out

- Rendering, styling and animation are not modelled: style sheets, `Animated` timings, `itemFadeAnims`, and the SwiftUI and React Native view bodies. Only the selected flag of a row and the buttons of a request card are kept.
- Network and storage are not modelled: the axios client, `AsyncStorage`, image upload and `Linking`. The server replies reach the `CoursesSection` handlers as parameters.
- The loading state during a request is not modelled. The handlers are sequential, so the loading flag is only seen at its final value, `false`. The disabled enroll button and the spinner shown while a request is open are left out.
- Stale closures are not modelled. React handlers read `currentCourses` as of their render, and a prop change during a request could be overwritten.
- Concurrency is not modelled. The check-then-create race in `enroll`, `join` and `request_friendship` is settled by the database constraints. The backend methods run one at a time.
- The `hasattr(path_or_url, 'url')` branch of `get_full_s3_url` and the `str(...)` conversion are left out. They depend on Django file objects, so only string input is modelled.
- Case mapping is ASCII only. JavaScript's `toLowerCase` and `toUpperCase` apply the full Unicode case mappings, which do not depend on the locale but can change a string's length (`"ß".toUpperCase()` is `"SS"`); Swift's `localizedCaseInsensitiveContains` compares by locale. The model maps only A-Z and a-z, because Unicode case tables are outside it. `Text.IsSpace` is the full ECMAScript white-space set.
- Text.LowerOfUpper holds for the ASCII mapping only: with the Unicode mapping, `"ß"` upper-cases to `"SS"`, which lower-cases to `"ss"`, not `"ß"`.
- CoursesSection.SentCodeIsNew holds for the ASCII mapping only: with `"SS"` listed and `"ß"` typed, the duplicate check of CoursesSection.tsx:71 compares `"ss"` with `"ß"` and passes, and line 80 then posts `"SS"`, a code already listed.
- CoursesSection.AppendKeepsDistinct holds for the ASCII mapping only, for the same input: the course `"SS"` returned for the posted `"SS"` duplicates the listed one.
- CoursesSection.EnrollStepKeepsDistinct holds for the ASCII mapping only, for the same input.
- Swift's `localizedCaseInsensitiveContains` is modelled like the JavaScript lower-cased `includes`.
- The human-readable labels of `Friendship.STATUS_CHOICES` are left out: only forms and the admin show them; the stored values are modelled.
- Timestamps (`auto_now`, `auto_now_add`), the serializers' output fields and hard-coded mock profiles are left out. Created rows are reported by their primary key.
- Framework glue is left out: the serializers' `create`, routing, admin, permissions, search filters and the `ModelViewSet` CRUD actions. In particular, no modelled operation writes `SocialMediaLink` rows; the table appears only in the invariant.
- Responses from the backend give a status and at most a detail string. Error bodies that Django REST framework produces itself (404 from `get_object`, 500) are modelled without a body.
- Views.Backend.Enroll and Views.Backend.RequestFriendship do not model Django's type coercion of the `course_id` and `addressee_id` fields, because the model takes them as already-parsed optional ids. A missing field or an unknown id leads to the 500 that the database constraint produces when `objects.create` runs.
- Views.Backend.StudySessions is the view as intended, reading `participants__user=user` as "the session has a `SessionParticipant` row for the user". As written the lookup does not resolve: `participants` leads to `User`, which has no `user` (see "## Findings"). Apps outside these models that might add a reverse name `user` to `User` are not part of this model.
- `FlowLayout` is not modelled. The JavaScript one only wraps its children with `flexWrap`, and the Swift one is not part of this model.
- The `StudyBuddy` Swift views other than `CourseView.swift` are not part of this model.
- CoursesSection.Section.HandleEnrollCourse models a reply with a body but no `course` as the caught `TypeError`. That case shows the default message because the error has no `response`.

## Findings

| source | as written | input that shows it | evidently intended | confidence | as-written member | corrected member |
|---|---|---|---|---|---|---|
| backend/api/utils/s3_utils.py:26-30 | the "http" test runs before the leading '/' characters are stripped, so a path like "/http..." gets the domain prefix, and applying the function again to that URL strips the host and returns the bare path | domain "cdn", path "/http": first "https://cdn/http", then "http" | test for "http" after stripping, so the function returns every URL it built unchanged (the stated aim of line 21: no double URLs) | low, not executed | S3Utils.ReapplySlashHttpDropsHost | S3Utils.FixedIdempotent |
| backend/api/views.py:43-45 | `filter(participants__user=user)` follows the many-to-many field `participants` (models.py:81) to `User` and then asks `User` for a `user`; `User` has no field or reverse relation of that name, so Django raises `FieldError` while building the query and the view answers 500 | any existing user, for example one who created a session | `participants=user` (or `sessionparticipant__user=user`): the sessions the user has joined and did not create | medium, not executed | Views.Backend.StudySessionsAsWrittenFails | Views.Backend.StudySessions |
