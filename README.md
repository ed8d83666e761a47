# ReLive in Dafny

ReLive is a memory-keeping web application for people living with memory
loss. It has a React front end and a Django REST back end. A **patient**
keeps *memories*: a title, a date, a place, a tag, an image, media and
people. **Family members** link themselves to a patient with a short-lived
*share code*. After that they can read the patient's memories, add to them
and like them. The patient's side also has a card-matching game.

This project models the core of both halves and proves properties of the
model:

- **Client session** (`Session`, `Login`). The browser keeps a token store.
  `getAccess` refreshes a token that is undecodable or whose `exp` claim
  (section 4.1.4 of RFC 7519) is less than 300 seconds away. `apiRequest`
  refreshes once and retries once after a 401. Every call carries an
  `Authorization: Bearer` header (section 2.1 of RFC 6750). The login
  form stores the tokens and sends the user on by role.
- **Optimistic list updates** (`MemoriesPage`, `MemoryDetail`,
  `FamilyPage`, `PatientMemories`, `DemoMemories`). Like toggles, with
  an exact revert. Deletes that restore their snapshot. Replace-or-prepend
  after a create or an edit.
- **The add/edit memory modal** (`AddMemoryModal`). Its checks, the
  multipart form it builds, its method and URL, and its error alert.
- **The family dashboard** (`FamilyDashboard`). The role check, the
  patient list and connecting with a share code.
- **The back end** (`Models`, `Views`, `Serializers`).
  - The tables with their uniqueness constraints and foreign keys.
  - The `post_delete` handlers that delete a family member and its link
    together.
  - The role predicates and the APPROVED-link access rule.
  - Like semantics.
  - The life of a share code: create or rotate, check, use once.
  - Previous/next navigation.
  - Bulk media add and delete.
  - The computed serializer fields.
- **Pure formatters.** `formatImageUrl`, the four avatar-initials helpers,
  `m:ss` durations, speaker and user display names, the share-code shape
  and the `__str__` forms of FamilyMember and MemoryComment (the other models' `__str__` methods are not modelled).
- **The memory-matching game** (`Games`). A deck of sixteen cards, flipped
  two at a time.

State that the source changes in place is a Dafny `class`; its methods
state the whole new state. This covers:

- React component state;
- the browser's token store;
- the database tables;
- the game.

The network, the clock, the random shuffle and the media host are not
modelled. Each becomes a parameter of the operation that uses it:

- an HTTP reply is an `Answered(status, …)` or a `Threw` value;
- `timezone.now()` is an integer `now`;
- `secrets.token_urlsafe` is a `token` string;
- an upload is a `FileOutcome`.

Other modelling choices:

- Times are integer microseconds.
- A JavaScript or Python text value that the code only tests for
  truthiness is a `string`, with `""` standing for null, undefined or empty.

Module layout:

- `common.dfy` holds the shared helpers: `Option`, text functions such
  as `Trim`, `Upper`, `Words` and `SplitOn`, and list functions such as
  `Keep`, `Dedup`, `ReplaceKey` and `RemoveKey`.
- Every other file models one source file.

Four behaviours of the code a reader may not expect; the model follows the
code:

- **The memory-create view checks the APPROVED link before it looks the
  patient up.** With intact foreign keys its "Patient not found" answer
  cannot happen (`Views.PatientNotFoundUnreachable`).
- **`toggle_memory_like` always answers DELETE with "Memory unliked".** It
  calls `get_or_create` first, so there is always a like to delete.
- **The detail page's avatar initials differ from the other three
  helpers** on a whitespace-only name and on a name with a double space
  (see Findings).
- **`create_connect_code` fails the save on a clash.** If the generated
  code equals another patient's code, the unique constraint fails the save
  and nothing is written (`Views.CreateConnectCode`).

## Model

| member | source | states |
|---|---|---|
| Session.RefreshCalls | ReLive/src/pages/Patient/Family/Family.jsx:30-44 | `refreshToken` makes at most one call, only to the refresh endpoint, and makes it exactly when a refresh token is stored |
| Session.RefreshSuccess | ReLive/src/pages/Patient/Family/Family.jsx:46-53 | an ok refresh stores the new access token, replaces the refresh token only when the response carries one, keeps every other entry and returns the new access token |
| Session.RefreshFailureClears | ReLive/src/pages/Patient/Family/Family.jsx:30-65 | a missing refresh token, a non-ok refresh or a thrown refresh empties the store, returns null and sends the page to /login |
| Session.AccessWithoutToken | ReLive/src/pages/Patient/Family/Family.jsx:8-9 | with no stored access token `getAccess` yields null, makes no call and leaves the store as it was |
| Session.AccessRefreshesOnlyWhenNeeded | ReLive/src/pages/Patient/Family/Family.jsx:12-26 | a token that is undecodable or whose `exp` is less than 300 s away is refreshed once; any other token is returned unchanged with no call |
| Session.NoExpiryClaimNoRefresh | ReLive/src/pages/Patient/Family/Family.jsx:17-26 | a decodable payload without `exp` is returned as stored, with no call |
| Session.RequestBounds | ReLive/src/pages/Patient/Family/Family.jsx:69-98 | `apiRequest` sends at most two API calls and at most two refreshes, and the second API call only after a 401 |
| Session.WithBearer | ReLive/src/pages/Patient/Family/Family.jsx:73-79 | a request keeps the caller's method, body and other headers, and its `Authorization` header is "Bearer " and the token, replacing the caller's own |
| Session.RequestCallsCarryBearer | ReLive/src/pages/Patient/Family/Family.jsx:73-93 | every API call goes to the requested URL with the caller's method and body; the first carries the token `getAccess` returned, and the retry after a 401 the token of the second refresh |
| Session.UnauthorizedRefreshFails | ReLive/src/pages/Patient/Family/Family.jsx:82-97 | after a 401 whose refresh fails the caller receives the original 401 |
| Session.RetryReturnedUnexamined | ReLive/src/pages/Patient/Family/Family.jsx:82-94 | after a 401 and a successful refresh the retry's answer, whatever its status, is the result and the retry is the last call |
| Session.TokenStore.constructor | ReLive/src/pages/Patient/Family/Family.jsx:8 | the store starts with the given entries |
| Session.TokenStore.GetItem | ReLive/src/pages/Patient/Family/Family.jsx:8 | `localStorage.getItem` is the stored entry, or null |
| Session.TokenStore.SetItem | ReLive/src/pages/Patient/Family/Family.jsx:48-50 | `setItem` changes that one entry and no other |
| Session.TokenStore.Clear | ReLive/src/pages/Patient/Family/Family.jsx:34 | `clear` leaves the store empty |
| Session.RefreshToken | ReLive/src/pages/Patient/Family/Family.jsx:30-66 | the store after the steps of `refreshToken`, its result, its calls and its redirect are those of the specification `Refreshed` |
| Session.GetAccess | ReLive/src/pages/Patient/Family/Family.jsx:7-27 | the steps of `getAccess` end in the store, token, calls and redirect of `Access` |
| Session.ApiRequest | ReLive/src/pages/Patient/Family/Family.jsx:69-98 | the steps of `apiRequest(url, options)` end in the store, result, calls (each carrying the caller's options) and redirect of `Requested` |
| Login.SubmitRequest | ReLive/src/pages/Login/Auth.jsx:62-69 | logging in posts exactly `{email, password}` to the login endpoint; signing up posts `{username: fullName, email, password, role}` to the register endpoint |
| Login.RedirectRole | ReLive/src/pages/Login/Auth.jsx:42 | the role used is the server's role if non-empty, else the selected role, else "patient" |
| Login.RoleRoute | ReLive/src/pages/Login/Auth.jsx:45-51 | family lands on /family-dashboard and only family; doctor on /doctor-dashboard and only doctor; every other role on /memories |
| Login.MeRedirect | ReLive/src/pages/Login/Auth.jsx:27-56 | no stored token or a non-ok /me answer goes to /login, a thrown error to /memories, and an ok answer to the route of the redirect role |
| Login.DoctorNeedsRole | ReLive/src/pages/Login/Auth.jsx:42-48 | the doctor dashboard is reached only when the server says "doctor", or says nothing and "doctor" was selected |
| Login.DefaultRoleIsPatient | ReLive/src/pages/Login/Auth.jsx:42-50 | with no role from the server and none selected the user lands on /memories |
| Login.FailureText | ReLive/src/pages/Login/Auth.jsx:81 | the rejection alert is the body's `error`, else its `message`, else "Something went wrong!", and is never empty |
| Login.StoreTokens | ReLive/src/pages/Login/Auth.jsx:86-87 | after an ok answer `access` and `refresh` are each written only when present, and no other entry changes |
| Login.AuthForm.constructor | ReLive/src/pages/Login/Auth.jsx:13-20 | the form starts in login mode with role "patient", empty fields and not loading |
| Login.AuthForm.Submit | ReLive/src/pages/Login/Auth.jsx:58-96 | a submission while loading does nothing; a thrown request alerts "Network error"; a non-ok answer alerts the failure text and writes nothing; an ok answer stores the tokens and then routes as `MeRedirect` says; loading ends false and the form fields are kept |
| ImageUrl.FormatImageUrl | ReLive/src/pages/Patient/Memories/Memories.jsx:69-75 | a falsy input gives null and only it; every result ends with the input |
| ImageUrl.FormatImageUrlCases | ReLive/src/pages/Patient/Family/Family.jsx:100-106 | an http(s) URL in any case is kept, "/x" becomes the API base + "/x", "media/x" becomes the API base + "/media/x", anything else is kept |
| ImageUrl.BasedIsAbsolute | ReLive/src/pages/Patient/Memories/Memories.jsx:71-73 | a path prefixed with the API base matches `/^https?:\/\//i` |
| ImageUrl.FormatImageUrlIdempotent | ReLive/src/pages/Patient/Memories/Memories.jsx:69-75 | formatting an already formatted URL changes nothing |
| ImageUrl.MemoryImage | ReLive/src/pages/Patient/Memories/Memories.jsx:103-104 | the image shown is `resolved_image_url`, else `image_url`, else `image`, formatted; null exactly when all three are empty |
| MemoryRecord.WithFormattedImage | ReLive/src/pages/Patient/Memories/Memories.jsx:220-224 | only the `image` field changes; it is empty exactly when all three sources are, and is the formatted `resolved_image_url` when that is set |
| MemoriesPage.Flip | ReLive/src/pages/Patient/Memories/Memories.jsx:154-160 | the liked set with the id's membership inverted and every other id's membership kept |
| MemoriesPage.FlipTwice | ReLive/src/pages/Patient/Memories/Memories.jsx:158-173 | undoing the flip gives back exactly the pre-toggle set |
| MemoriesPage.Filtered | ReLive/src/pages/Patient/Memories/Memories.jsx:265-283 | every memory shown passes the search, tag, date, people and event conditions |
| MemoriesPage.FilteredSubsequence | ReLive/src/pages/Patient/Memories/Memories.jsx:267-282 | the result is an order-preserving subsequence of the memories that drops no memory passing all five conditions |
| MemoriesPage.DefaultsShowAll | ReLive/src/pages/Patient/Memories/Memories.jsx:265-283 | an empty search with every filter at its default shows every memory |
| MemoriesPage.UniqueTagsSpec | ReLive/src/pages/Patient/Memories/Memories.jsx:285-288 | the tag options have no repeats and are exactly the non-empty tags of the memories |
| MemoriesPage.UniqueTagsOrder | ReLive/src/pages/Patient/Memories/Memories.jsx:285-288 | the tag options are in the order of each tag's first appearance |
| MemoriesPage.KeepFirstIndexOrder | ReLive/src/pages/Patient/Memories/Memories.jsx:286 | `filter(Boolean)` keeps the relative first-appearance order of the non-empty tags |
| MemoriesPage.Page.constructor | ReLive/src/pages/Patient/Memories/Memories.jsx:24-40 | the page starts with no memories, nothing liked, no edit, the modal closed and the "all" sidebar entry |
| MemoriesPage.Page.ToggleLike | ReLive/src/pages/Patient/Memories/Memories.jsx:149-185 | without a token nothing happens; otherwise it sends DELETE for a liked id and POST for another, the set ends flipped unless the answer is non-ok, when it ends exactly as before (a rejected fetch counts as ok); nothing else changes |
| MemoriesPage.Page.Delete | ReLive/src/pages/Patient/Memories/Memories.jsx:188-216 | without a token it alerts "Not authenticated"; unconfirmed it does nothing; confirmed, one DELETE to the memory's URL goes out with the bearer token; a 204 leaves the list without the entries of that id; any other status or a network error restores the previous list and alerts |
| MemoriesPage.Page.MemoryCreated | ReLive/src/pages/Patient/Memories/Memories.jsx:219-237 | an edit replaces the entries with the edited id by the formatted memory, a creation prepends it; the modal closes and the sidebar returns to "all" |
| MemoriesPage.EditKeepsOthers | ReLive/src/pages/Patient/Memories/Memories.jsx:228 | an edit keeps the length and every entry with another id, and replaces each entry with the edited id |
| FamilyPage.Initials | ReLive/src/pages/Patient/Family/Family.jsx:132-139 | at most two characters, all upper case |
| FamilyPage.InitialsShape | ReLive/src/pages/Patient/Family/Family.jsx:132-139 | a blank name gives "??"; otherwise the first letter of the first word, upper-cased, then that of the second word exactly when there are two or more words |
| FamilyPage.LettersShape | ReLive/src/pages/Patient/Family/Family.jsx:134-138 | over the words of the name: none gives "??", otherwise the upper-cased first letters of the first (and second) word |
| FamilyPage.StatusBadge | ReLive/src/pages/Patient/Family/Family.jsx:141-146 | "Pending" exactly for PENDING and "Revoked" exactly for REVOKED in any letter case; every other status, a missing one included, is "Connected" |
| FamilyPage.StatusBadgeIgnoresCase | ReLive/src/pages/Patient/Family/Family.jsx:142 | the badge is the same for a status, its upper-case and its lower-case form |
| FamilyPage.Page.constructor | ReLive/src/pages/Patient/Family/Family.jsx:149-157 | the page starts with no members and no error |
| FamilyPage.Page.RemoveMember | ReLive/src/pages/Patient/Family/Family.jsx:309-325 | unconfirmed nothing happens; confirmed, the request with method DELETE goes through `apiRequest`, an ok answer leaves the list without that id, and any other outcome restores exactly the snapshot and shows the error; the redirect to /login is the one `apiRequest` decides |
| FamilyPage.RemovalKeepsOthers | ReLive/src/pages/Patient/Family/Family.jsx:313 | the remaining members are, in order, exactly the old members with another id |
| Models.MediaRowsOk | backend/api/models.py:68-120 | a run of new image, video or recording rows, numbered on from above every existing id and each pointing at an existing memory, keeps the media table's ids unique and its memory references valid, and every id stays below the next free one |
| Models.UserNamed | backend/api/models.py:272 | `User.objects.get(username=...)` returns a user with that username, or none when no user has it |
| Models.UserWithId | backend/api/models.py:303 | following a link's `family_member` key finds the user with that id, and finds none exactly when no user has that id |
| Models.LinkBetween | backend/api/models.py:275-278 | the `.first()` of the links from that patient to that family user is such a link, and is absent only when there is none |
| Models.MemberNamed | backend/api/models.py:301-304 | the `.first()` of the patient's family members with that name is such a member, and is absent only when there is none |
| Models.MemberKeyIdentifies | backend/api/models.py:21-26 | under the `unique_family_member_per_user` constraint, the owner and the name identify one member row |
| Models.Db.InsertLink | backend/api/models.py:184-190 | creating a link for a patient and family user that have none appends exactly that row, takes the next id and keeps every constraint, `unique_family_link` included |
| Models.Db.SaveLink | backend/api/models.py:177-181 | saving a changed link that keeps its patient and family user replaces that row in place and keeps every constraint |
| Models.Db.InsertMember | backend/api/models.py:10-26 | creating a member whose owner has no member of that name appends exactly that row, takes the next id and keeps every constraint |
| Models.Db.InsertLike | backend/api/models.py:227-237 | creating a like for a (memory, user) pair with no like appends exactly that row, takes the next id and keeps `unique_together` |
| Models.Db.DeleteLike | backend/api/models.py:227-231 | deleting a like removes the row with its id and nothing else, and keeps every constraint |
| Models.Db.InsertCode | backend/api/models.py:201-205 | saving a new code for a patient without one, with a code nobody holds, appends exactly that row and keeps `code` unique and `patient` one-to-one |
| Models.Db.SaveCode | backend/api/models.py:201-205 | re-saving a patient's code row with a code no other patient holds replaces that row in place and keeps every constraint |
| Models.Db.DeleteCode | backend/api/models.py:201-205 | deleting a code removes the row with its id and nothing else, and keeps every constraint |
| Models.Db.AppendMedia | backend/api/models.py:68-120 | a new image, video or recording goes to the end of its own table with the next id, and the other two tables are unchanged |
| Models.Db.InsertMedia | backend/api/models.py:68-120 | a single new media row that points at an existing memory keeps every constraint |
| Models.Db.FilterMedia | backend/api/views.py:1193-1212 | `filter(...).delete()` on one media table leaves exactly the rows that are kept, in order, and keeps every constraint; the other tables are unchanged |
| Models.Db.DeleteFamilyMember | backend/api/models.py:264-290 | deleting a member removes that row; with its handler connected it also removes the link from the member's owner to the user whose username is the member's name, if there is one; no other table changes and every constraint holds |
| Models.Db.DeleteFamilyLink | backend/api/models.py:293-319 | deleting a link removes that row and the patient's member named after the family user, if there is one; the member handler is connected afterwards; no other table changes and every constraint holds |
| Models.PairsAgree | backend/api/models.py:264-304 | when a member's handler would delete link l, the link's handler would delete exactly that member, so the two handlers undo one connection from either side |
| Models.GenerateCode | backend/api/models.py:216-222 | a generated code is upper-case, at most eight characters long, and holds exactly one dash |
| Models.GeneratedCodeIsNormal | backend/api/models.py:221-222 | a code generated from a token without whitespace is unchanged by the `.strip().upper()` that `connect_with_code` applies, so a code read back as shown is found |
| Models.MemberText | backend/api/models.py:28-30 | a member's text is "name (relation)", and the name alone exactly when the relation is blank |
| Models.CommentText | backend/api/models.py:257-259 | a comment's text starts with "username: "; content of up to 50 characters appears whole, longer content is cut to its first 50 characters followed by "..." |
| Views.RolesOverlapOnlyWithoutRole | backend/api/views.py:40-44 | `is_patient` and `is_family` both hold exactly for a user without a role attribute; with a role, each holds exactly for its own role name |
| Views.ApprovedPatients | backend/api/views.py:191-194 | the patients a family user is connected to are exactly those `can_access_patient_data` grants through an APPROVED link |
| Views.FindMemory | backend/api/views.py:833 | `Memory.objects.get(id=..., user__in=...)` finds a memory with that id whose owner is allowed, and fails only when every memory with that id has an owner outside the set |
| Views.AccessibleMemory | backend/api/views.py:830-843 | a user who is neither patient nor family is refused; a patient finds only its own memory with that id, a family user only one owned by a patient it has an APPROVED link to; "not found" means no memory with that id is reachable |
| Views.CreateTarget | backend/api/views.py:214-247 | a created memory belongs to the patient who posts it, or to the patient a family user names and is APPROVED for; every other case is refused with 400, 403 or 404, and the 400 exactly when a family user gives no `patient_id` |
| Views.PatientNotFoundUnreachable | backend/api/views.py:229-242 | the permission check runs before the patient lookup, so with intact foreign keys the "Patient not found" 404 never happens |
| Views.LikeOf | backend/api/views.py:845-848 | the like `get_or_create` looks up is one with that memory and user, and none is found only when no such like exists |
| Views.RemoveLikeClears | backend/api/models.py:233-234 | with (memory, user) unique, deleting a like leaves no like for that pair and spares every other like |
| Views.ToggleLike | backend/api/views.py:828-859 | a refused or missing memory answers 403 or 404 and changes no like; POST leaves the like in place and answers "Already liked" 200 or "Memory liked" 201 as it existed before; DELETE leaves no like and always answers "Memory unliked", since `get_or_create` makes the "Not liked" branch unreachable; likes of other pairs are untouched |
| Views.CodeOf | backend/api/views.py:971 | `connect_code` is the patient's own row, absent only when the patient has none |
| Views.CodeNamed | backend/api/views.py:988 | the `.first()` row with that code text holds it, and is absent only when no row does |
| Views.NormalizeCode | backend/api/views.py:984-986 | the normalised code is upper-case, and it is empty exactly when the posted code is missing or blank |
| Views.CreateConnectCode | backend/api/views.py:968-977 | only a patient gets a code (403 otherwise); the patient's row is reused or a new one made, with the generated code and an expiry thirty minutes on, and it is the patient's code afterwards; a code another patient holds fails the save and writes nothing |
| Views.Issued | backend/api/views.py:971-975 | the saved row belongs to the patient, holds the new code and expiry, and keeps the id of the patient's existing row or takes the next id |
| Views.SaveConnectCode | backend/api/views.py:971-976 | the save either fails on a code held by another patient and writes nothing, or leaves exactly the issued row as the patient's code |
| Views.ReissuedSparesOthers | backend/api/views.py:976 | re-issuing one patient's code leaves every other patient's code row as it was |
| Views.PatientCodeIsFound | backend/api/models.py:202 | with `patient` one-to-one, a patient's row is the one `connect_code` returns |
| Views.CheckCode | backend/api/views.py:982-990 | a non-family user gets 403, a blank code 400 "Code is required.", an unknown or expired code 400 "Invalid or expired code."; a code is accepted exactly when the user is family and the normalised code names a row for which `is_valid` holds, now strictly before `expires_at` |
| Views.ConnectWithCode | backend/api/views.py:981-1028 | a refused connect writes nothing; an accepted one answers with the code's patient, creates or upgrades the link to APPROVED, adds the member named after the family user if missing, and deletes the code |
| Views.UseCode | backend/api/views.py:995-1019 | the writes of a connect: link made or upgraded, member added if missing, code row removed, constraints kept |
| Views.ConnectOutcome | backend/api/views.py:995-1019 | after a connect the link is APPROVED so the family user may read the patient's data, the patient has the member, and the code can no longer be found |
| Views.ApproveLink | backend/api/views.py:995-1002 | after the link `get_or_create` and upgrade there is a link for the pair and it is APPROVED; a new id is used only when the link was created |
| Views.AddMember | backend/api/views.py:1006-1012 | after the member `get_or_create` the patient has a member with that name |
| Views.LinkIsFound | backend/api/models.py:184-190 | with `unique_family_link`, a link is the one found for its patient and family user |
| Views.CodeUsedUp | backend/api/views.py:1019 | with codes unique, deleting a code's row leaves no row with that code |
| Views.SecondConnectRefused | backend/api/views.py:988-1019 | a code works once: after its row is deleted the same text finds no row, so a second connect is refused |
| Views.IndexOf | backend/api/views.py:1062 | the index is -1 exactly when the id is not listed, and otherwise the first position holding it |
| Views.Navigate | backend/api/views.py:1061-1090 | the position is the index plus one, between 0 and the total; a previous memory exists exactly when the index is above 0, a next one exactly when the id is listed and not last; each is the id beside it |
| Views.NavigateNextThenPrevious | backend/api/views.py:1067-1083 | with distinct ids, the previous memory of the next memory is the memory itself, one position further on |
| Views.NavigateMissing | backend/api/views.py:1062-1090 | an id that is not listed gets position 0 and no neighbours |
| Views.EachFileAccounted | backend/api/views.py:1122-1161 | each uploaded file gives exactly one saved row or one error entry, and a failure does not stop the files after it |
| Views.StoredRowsShape | backend/api/views.py:1125-1133 | saved rows carry their file's url, their file's index as `order` and the memory, in file order with consecutive ids |
| Views.StoredFilesSaved | backend/api/views.py:1131-1133 | every file the host stored and the serializer accepted has its saved row |
| Views.FileStep | backend/api/views.py:1122-1137 | one more file extends the saved rows and the error entries by that file's share alone |
| Views.SaveFiles | backend/api/views.py:1120-1137 | the upload loop appends exactly the rows of the stored files to that media table, collects the error entries in order, and uses one id per saved row |
| Views.StoreFiles | backend/api/views.py:1120-1161 | the upload loop for a memory that exists keeps every constraint of the schema |
| Views.AddMedia | backend/api/views.py:1112-1163 | the images are saved first and the videos after, each table gains just its own rows, `audio` stays empty and the errors are the image errors then the video errors |
| Views.BulkAdd | backend/api/views.py:1096-1163 | a refused or missing memory answers 403 or 404 and saves nothing; otherwise the answer is 201 with the saved rows and errors, and the recordings table is untouched |
| Views.Selected | backend/api/views.py:1194-1197 | the rows a delete selects are rows of the table with a listed id and belonging to that memory |
| Views.Purged | backend/api/views.py:1193-1212 | the rows left are the table's rows, in order, less exactly those with a listed id and belonging to that memory |
| Views.PurgeCounts | backend/api/views.py:1197-1198 | the count reported plus the rows left equals the rows there were |
| Views.PurgeNothing | backend/api/views.py:1193 | an empty id list deletes nothing and reports 0 |
| Views.DeleteListed | backend/api/views.py:1193-1198 | one delete reports the number of rows it selected and leaves exactly the purged table; the other tables are unchanged |
| Views.BulkDelete | backend/api/views.py:1167-1212 | a refused or missing memory answers 403 or 404 and deletes nothing; otherwise each table loses exactly its listed rows of that memory and the counts are reported |
| Views.PurgeSparesOthers | backend/api/views.py:1194-1197 | a bulk delete keeps every media row of the other memories |
| Serializers.TruncDivBounds | backend/api/serializers.py:406 | Python's `int(a / b)` has the sign of `a` and drops less than one `b` of it |
| Serializers.DurationFormatted | backend/api/serializers.py:102-109 | there is no formatted duration exactly when the duration is null or zero |
| Serializers.IntTextRoundTrip | backend/api/serializers.py:108 | the decimal text of an integer reads back as that integer |
| Serializers.DurationRoundTrip | backend/api/serializers.py:102-109 | a non-zero duration's "m:ss" text reads back as its whole seconds, and its seconds field is two digits with a value below 60 |
| Serializers.SpeakerDisplay | backend/api/serializers.py:147-151 | without a speaker name the display is "Unknown Speaker"; with one it starts with the name, adds " (relation)" when there is a relation, and is the bare name exactly when there is none |
| Serializers.SpeakerLikeMember | backend/api/serializers.py:147-151 | a named speaker is shown the way `FamilyMember.__str__` shows a member with the same name and relation |
| Serializers.UserDisplay | backend/api/serializers.py:199-201 | the user display is the first name when there is one, else the username |
| Serializers.UserDisplayEmpty | backend/api/serializers.py:318-320 | the user display is empty exactly when the user has neither a first name nor a username |
| Serializers.AvatarInitials | backend/api/serializers.py:162-171 | the initials are one or two upper-case characters |
| Serializers.WordInitials | backend/api/serializers.py:166-171 | the initials of the words of a name are one or two upper-case characters |
| Serializers.WordInitialsShape | backend/api/serializers.py:166-171 | no words give "??"; two or more words give the upper-cased first letters of the first two; one word gives its first two characters upper-cased |
| Serializers.AvatarInitialsLetters | backend/api/serializers.py:162-171 | a blank name gives "??"; any other name has words, and its initials are those of its whitespace-separated words |
| Serializers.AvatarInitialsLikeFamilyPage | backend/api/serializers.py:162-171 | the serializer's initials equal the Family page's for a blank name or one of two or more words; for a single word of two or more characters the serializer gives two characters where the page gives one |
| Serializers.WordInitialsLikeLetters | backend/api/serializers.py:166-171 | the same comparison, stated on the list of words |
| Serializers.ResolvedUrl | backend/api/serializers.py:68-75 | there is no resolved URL exactly when neither a remote URL nor a file is set; a remote URL wins; otherwise the file's URL, made absolute when a request is present |
| Serializers.ResolvedImageShown | backend/api/serializers.py:239-246 | a memory the backend resolves to some image URL shows that URL, passed through `formatImageUrl`, on the patient's Memories page |
| Serializers.HasApprovedLink | backend/api/serializers.py:362-366 | the link query of `get_can_edit` holds exactly when `can_access_patient_data` grants the viewer the owner's data |
| Serializers.CanEdit | backend/api/serializers.py:350-366 | no authenticated viewer cannot edit; the owner can always edit; anyone else can edit exactly when an APPROVED link makes them family of the owner |
| Serializers.ExpiresInMinutes | backend/api/serializers.py:402-407 | a code that has expired at the first clock reading reports 0 minutes |
| Serializers.ExpiresInMinutesRemaining | backend/api/serializers.py:402-407 | read at one instant, the value is never negative, is the whole minutes left rounded down while the code is valid, and is positive exactly when at least a minute remains |
| Serializers.Overlay | backend/api/serializers.py:277-278 | after the `setattr` loop the attributes are the old ones plus every supplied name |
| Serializers.OverlayKeeps | backend/api/serializers.py:277-278 | an attribute that is not supplied keeps its value |
| Serializers.OverlayTakes | backend/api/serializers.py:277-278 | a supplied attribute takes the value of its last occurrence |
| Serializers.MemoryInstance.Update | backend/api/serializers.py:275-282 | `update` sets every supplied attribute and saves them all, replaces the members relation when `members` is supplied and keeps it otherwise |
| MemoryDetail.NextPlaying | ReLive/src/pages/Patient/Memories/MemoryDetail.jsx:180-187 | nothing plays afterwards exactly when the clicked recording was the one playing; otherwise the clicked recording plays |
| MemoryDetail.ClickTwiceStops | ReLive/src/pages/Patient/Memories/MemoryDetail.jsx:180-187 | two clicks on a recording that is not playing start it and then stop it |
| MemoryDetail.BackTarget | ReLive/src/pages/Patient/Memories/MemoryDetail.jsx:103-109 | the back button goes back in history exactly when the page was opened from "patient-memories", and to /memories otherwise |
| MemoryDetail.Page.constructor | ReLive/src/pages/Patient/Memories/MemoryDetail.jsx:139-146 | the page starts not liking, not liked, with no likes counted and no recording playing |
| MemoryDetail.Page.LikeToggle | ReLive/src/pages/Patient/Memories/MemoryDetail.jsx:139-172 | while a toggle runs or without a token nothing changes and nothing is sent; otherwise a POST (like) or DELETE (unlike) is sent to the memory's like URL with the bearer token, the flip and the one-step count change stay only after an ok answer and are reverted after a failure or a throw, and `isLiking` ends false; the count of the other users' likes never changes |
| MemoryDetail.Page.PlayRecording | ReLive/src/pages/Patient/Memories/MemoryDetail.jsx:174-188 | the recording that plays afterwards is the one `NextPlaying` gives |
| MemoryDetail.AvatarInitials | ReLive/src/pages/Patient/Memories/MemoryDetail.jsx:208-217 | the page's initials are upper-case text, "??" for an empty name |
| MemoryDetail.PartInitials | ReLive/src/pages/Patient/Memories/MemoryDetail.jsx:210-216 | with two or more parts, the upper-cased first characters of the first two, an empty second part reading "UNDEFINED"; with one part, its first two characters upper-cased |
| MemoryDetail.SingleSpacedAgrees | ReLive/src/pages/Patient/Memories/MemoryDetail.jsx:208-217 | two words joined by one space, then nothing or a space and more text, give the upper-cased first letters of the two words, the same initials as the backend |
| MemoryDetail.DoubleSpaceDiffers | ReLive/src/pages/Patient/Memories/MemoryDetail.jsx:210-212 | for two words joined by two spaces the page shows the first initial followed by "UNDEFINED", while the backend's `get_avatar_initials` shows both initials |
| MemoryDetail.DoubleSpaceSplit | ReLive/src/pages/Patient/Memories/MemoryDetail.jsx:210 | splitting two words joined by two spaces on single spaces gives the first word, an empty part and the second word |
| MemoryDetail.BlankNameDiffers | ReLive/src/pages/Patient/Memories/MemoryDetail.jsx:209-214 | a name of one space passes the `!name` check and gives "" on the page, where the backend gives "??" |
| MemoryDetail.OneWordAgrees | ReLive/src/pages/Patient/Memories/MemoryDetail.jsx:213-214 | for a single word without spaces the page and the backend give the same initials |
| MemoryDetail.TagColor | ReLive/src/pages/Patient/Memories/MemoryDetail.jsx:219-231 | the background is the table's colour for the lower-cased tag, and the fallback "#f5f5f5" exactly when there is no tag or the table has no entry for it |
| MemoryDetail.TagTextColor | ReLive/src/pages/Patient/Memories/MemoryDetail.jsx:233-245 | the text colour is the table's colour for the lower-cased tag, and the fallback "#666" exactly when there is no tag or the table has no entry for it |
| MemoryDetail.TagColorsAgree | ReLive/src/pages/Patient/Memories/MemoryDetail.jsx:219-245 | tags that differ only in case get the same two colours, and a tag gets the fallback background exactly when it gets the fallback text colour |
| AddMemoryModal.DateTextRoundTrip | ReLive/src/components/AddMemoryModal.jsx:19-24 | the default date of a calendar day has a two-digit month and day between two dashes and reads back as that same day |
| AddMemoryModal.DateTextParts | ReLive/src/components/AddMemoryModal.jsx:21-23 | split at its dashes, the default date gives the year, the padded month and the padded day |
| AddMemoryModal.Rejection | ReLive/src/components/AddMemoryModal.jsx:114-117 | a submission goes ahead exactly when there is an access token, a non-blank title and a date; otherwise the alert is "Not authenticated", "Title is required" or "Date is required", checked in that order |
| AddMemoryModal.FormKeys | ReLive/src/components/AddMemoryModal.jsx:121-137 | the keys of the form are those of its entries, in the order they were appended |
| AddMemoryModal.FormFieldsSpec | ReLive/src/components/AddMemoryModal.jsx:121-137 | the form starts with title, description, date, location and tag; `patient_id` is present exactly when creating with a non-empty route parameter, right after them and carrying that text unchanged; `image` is present exactly when a file was chosen, last; no key appears twice |
| AddMemoryModal.Target | ReLive/src/components/AddMemoryModal.jsx:146-150 | editing sends PUT and creating sends POST, both under the memories URL |
| AddMemoryModal.TargetNamesMemory | ReLive/src/components/AddMemoryModal.jsx:146-148 | the create URL is the collection itself, and the edit URL ends in the edited memory's id, read back exactly, and a slash |
| AddMemoryModal.ErrorLines | ReLive/src/components/AddMemoryModal.jsx:169-170 | one "key: value" line per field of the error answer, in order, an array value joined with ", " |
| AddMemoryModal.ErrorMessage | ReLive/src/components/AddMemoryModal.jsx:168-175 | the alert after a failed answer is never empty |
| AddMemoryModal.ErrorMessageLines | ReLive/src/components/AddMemoryModal.jsx:168-172 | an error object without fields alerts the generic "Failed to create/update memory"; one with fields alerts its lines joined by line breaks, and splitting the alert at them gives the lines back |
| AddMemoryModal.Revoking | ReLive/src/components/AddMemoryModal.jsx:79-81 | at most one URL is revoked, and one is exactly when the old preview is a `blob:` URL |
| AddMemoryModal.Modal.constructor | ReLive/src/components/AddMemoryModal.jsx:17-29 | the modal opens blank: empty fields, today's date, the tag "General", no file and no preview |
| AddMemoryModal.Modal.ResetForm | ReLive/src/components/AddMemoryModal.jsx:96-110 | every field is back to its initial value, with today's date, and only a `blob:` preview is revoked |
| AddMemoryModal.Modal.ChooseImage | ReLive/src/components/AddMemoryModal.jsx:75-85 | the chosen file replaces the old one, a `blob:` preview is revoked, and the file is previewed by its object URL, or nothing is when no file was chosen |
| AddMemoryModal.Modal.Populate | ReLive/src/components/AddMemoryModal.jsx:37-48 | editing fills the fields from the memory, "General" for an empty tag, and shows the memory's image only when it has one |
| AddMemoryModal.Modal.BuildForm | ReLive/src/components/AddMemoryModal.jsx:121-137 | the successive `fd.append` calls build exactly the form `FormFields` describes |
| AddMemoryModal.Modal.Submit | ReLive/src/components/AddMemoryModal.jsx:112-183 | a rejected submission alerts and changes nothing; otherwise exactly one request with the bearer token and the form goes out, an ok answer with a truthy body is handed on, resets the form and closes the modal, anything else alerts and keeps the form, and `submitting` ends false |
| AddMemoryModal.FailureAlert | ReLive/src/components/AddMemoryModal.jsx:161-179 | there is no alert exactly when the answer is accepted; a thrown error shows its message or "Upload error"; a failed answer shows the composed error message |
| PatientMemories.PatientName | ReLive/src/pages/Family/memories/PatientMemories.jsx:22-23 | the header name is never empty |
| PatientMemories.PatientNameFallback | ReLive/src/pages/Family/memories/PatientMemories.jsx:22-23 | the header name is the first non-empty one of the state's name, the patient's name and the patient's username, else "Patient"; without a patient in the state it is the state's name or "Patient" |
| PatientMemories.ShownSpec | ReLive/src/pages/Family/memories/PatientMemories.jsx:43-47 | the memories shown are those of the fetched list whose owner id is the route's patient id or whose username is the patient's, in the server's order |
| PatientMemories.Page.constructor | ReLive/src/pages/Family/memories/PatientMemories.jsx:15-19 | the page starts with no memories, loading, no error, the modal closed and nothing being edited |
| PatientMemories.Page.Fetch | ReLive/src/pages/Family/memories/PatientMemories.jsx:25-61 | without a token or on a 401 the page goes to /login; an ok answer shows the patient's memories; another failure keeps the list and sets "Failed to load memories", a throw "Network error. Please try again."; loading ends false whenever the request was made |
| PatientMemories.Page.StartAdd | ReLive/src/pages/Family/memories/PatientMemories.jsx:82-85 | adding opens the modal with nothing being edited |
| PatientMemories.Page.StartEdit | ReLive/src/pages/Family/memories/PatientMemories.jsx:87-90 | editing opens the modal on that memory |
| PatientMemories.Page.MemoryCreated | ReLive/src/pages/Family/memories/PatientMemories.jsx:92-96 | a created memory goes first in the list, and the modal closes with nothing being edited |
| PatientMemories.Page.MemoryUpdated | ReLive/src/pages/Family/memories/PatientMemories.jsx:98-102 | every entry with the updated memory's id is replaced by it and the rest kept in place, and the modal closes |
| PatientMemories.Page.DeleteMemory | ReLive/src/pages/Family/memories/PatientMemories.jsx:104-125 | without confirmation or a token nothing happens; an ok answer removes exactly the entries with that id; a failed answer alerts "Failed to delete memory", a throw "Error deleting memory", and the list is kept |
| PatientMemories.UpdateKeepsIds | ReLive/src/pages/Family/memories/PatientMemories.jsx:98-99 | an update keeps the length and every id in place, and the updated memory is listed afterwards exactly when it was listed or an entry had its id |
| PatientMemories.DeleteAfterCreate | ReLive/src/pages/Family/memories/PatientMemories.jsx:92-117 | deleting a memory just created leaves the list that was there before, less that id |
| FamilyDashboard.AvatarInitials | ReLive/src/pages/Family/Dashboard/FamilyDashboard.jsx:9-14 | the dashboard's initials are at most two upper-case characters |
| FamilyDashboard.PartLetters | ReLive/src/pages/Family/Dashboard/FamilyDashboard.jsx:11-13 | the letters picked from the parts are at most two upper-case characters |
| FamilyDashboard.AvatarInitialsLikeFamilyPage | ReLive/src/pages/Family/Dashboard/FamilyDashboard.jsx:9-14 | the dashboard and the patient's Family page show the same initials for every name |
| FamilyDashboard.PartLettersOfWords | ReLive/src/pages/Family/Dashboard/FamilyDashboard.jsx:10-13 | on a non-empty list of words the dashboard picks the same letters as the Family page |
| FamilyDashboard.Role | ReLive/src/pages/Family/Dashboard/FamilyDashboard.jsx:26-27 | the role is never empty, and is "family" when `me` or its role is missing |
| FamilyDashboard.MeRoute | ReLive/src/pages/Family/Dashboard/FamilyDashboard.jsx:29-50 | without a token, after a throw or after a non-ok answer the viewer goes to /login |
| FamilyDashboard.MeRouteLikeLogin | ReLive/src/pages/Family/Dashboard/FamilyDashboard.jsx:39-44 | after an ok answer the viewer stays exactly when the role is empty or "family"; any other role goes where the login page sends it |
| FamilyDashboard.CodeToSend | ReLive/src/pages/Family/Dashboard/FamilyDashboard.jsx:96-97 | the code sent is upper-case, and empty exactly when the input is blank |
| FamilyDashboard.CodeIsNormal | ReLive/src/pages/Family/Dashboard/FamilyDashboard.jsx:96 | the backend's `.strip().upper()` leaves the code the dashboard sends unchanged |
| FamilyDashboard.HttpError | ReLive/src/pages/Family/Dashboard/FamilyDashboard.jsx:75-76 | the error is never empty: the answer's text when there is one, else "HTTP status: Failed to load patients." |
| FamilyDashboard.RefusalText | ReLive/src/pages/Family/Dashboard/FamilyDashboard.jsx:116 | the alert is never empty: the answer's `detail`, else its `message`, else "Invalid or expired code" |
| FamilyDashboard.ListAfter | ReLive/src/pages/Family/Dashboard/FamilyDashboard.jsx:65-82 | a 401 keeps the list and an ok array answer becomes the list |
| FamilyDashboard.Dashboard.constructor | ReLive/src/pages/Family/Dashboard/FamilyDashboard.jsx:19-27 | the dashboard starts with no `me`, no patients, loading, not connecting, an empty code and no error, so the role is "family" |
| FamilyDashboard.Dashboard.FetchMe | ReLive/src/pages/Family/Dashboard/FamilyDashboard.jsx:29-51 | `me` is recorded exactly on an ok answer, and the route is the one `MeRoute` gives |
| FamilyDashboard.ErrorAfter | ReLive/src/pages/Family/Dashboard/FamilyDashboard.jsx:65-82 | after a list fetch the page shows no error exactly for an ok answer or a 401, and "Network error: message" for a throw |
| FamilyDashboard.Dashboard.FetchPatients | ReLive/src/pages/Family/Dashboard/FamilyDashboard.jsx:53-86 | without a token nothing changes; an ok answer shows the array or an empty list; a 404 sets the endpoint error, a 401 goes to /login and keeps the list, any other status sets the answer's text or the HTTP error, a throw sets "Network error: message", and each failure except the 401 empties the list; loading ends false and the error is `ErrorAfter` of the answer |
| FamilyDashboard.Dashboard.Connect | ReLive/src/pages/Family/Dashboard/FamilyDashboard.jsx:95-124 | a blank code alerts "Enter a share code" and sends nothing; without a token the viewer goes to /login; otherwise one POST of the normalised code goes out with the bearer token; an ok answer clears the input, reloads the patients (list, error and loading as after `FetchPatients`) and alerts success; a refusal or a throw alerts and keeps the input, the list, the error and the loading flag; `connecting` ends false |
| DemoMemories.Filtered | ReLive/src/pages/Memories.jsx:126-145 | every memory shown passes all five conditions: search in title or description, the quick tag, the date, the person and the event |
| DemoMemories.FilteredSubsequence | ReLive/src/pages/Memories.jsx:126-145 | the view keeps the order of the list and shows a memory exactly when it is listed and passes all five conditions |
| DemoMemories.DefaultsShowAll | ReLive/src/pages/Memories.jsx:22-27 | with the controls at their initial values all six built-in memories are shown |
| DemoMemories.YearFilter | ReLive/src/pages/Memories.jsx:133-135 | choosing "2024" or "2023" shows exactly the memories whose date text holds that year; any date value other than the two years and "All Dates" shows nothing |
| DemoMemories.YearAt | ReLive/src/pages/Memories.jsx:133-135 | a memory whose date text holds the chosen year passes the date filter |
| DemoMemories.SpringOf2024Shown | ReLive/src/pages/Memories.jsx:53-73 | the birthday of March 2024 and the beach trip of February 2024 pass the "2024" filter |
| DemoMemories.SampleTags | ReLive/src/pages/Memories.jsx:147 | the tag list has one entry per memory, in list order |
| DemoMemories.SampleTagList | ReLive/src/pages/Memories.jsx:53-114 | the quick filters of the built-in memories are "Family", "Vacation", "Holiday", "Anniversary", "Birthday" and "Travel", in that order |
| DemoMemories.UniqueTagsSpec | ReLive/src/pages/Memories.jsx:147 | `[...new Set(...)]` lists each tag of the memories exactly once, nothing else, and in the order of first appearance |
| DemoMemories.Page.constructor | ReLive/src/pages/Memories.jsx:20-27 | the page starts with the default controls and nothing liked |
| DemoMemories.Page.Shown | ReLive/src/pages/Memories.jsx:126-145 | the memories shown are an order-preserving selection of the built-in ones |
| DemoMemories.Page.ToggleLike | ReLive/src/pages/Memories.jsx:116-124 | liking adds the id to the liked set when it is absent and removes it when it is present, with nothing else changed; it is the same flip as on the patient's Memories page, so two toggles restore the set (`MemoriesPage.FlipTwice`) |
| DemoMemories.Page.ClickTag | ReLive/src/pages/Memories.jsx:185 | a tag button selects its tag, or clears the selection when that tag was already selected |
| Games.Deal | ReLive/src/pages/Patient/Games/Games.jsx:173-175 | the deck has one card per shuffled symbol, each card's id its position |
| Games.Symbols | ReLive/src/pages/Patient/Games/Games.jsx:238 | the symbols of a deck are its cards' symbols in order |
| Games.DealSpec | ReLive/src/pages/Patient/Games/Games.jsx:170-176 | a deck dealt from any shuffle of the doubled images has 16 cards with ids 0 to 15, holds each of the eight images exactly twice and no other symbol |
| Games.DistinctIdsBound | ReLive/src/pages/Patient/Games/Games.jsx:247-255 | distinct card ids below n number at most n, and exactly n only when every id below n is among them |
| Games.MemoryMatching.PairsFound | ReLive/src/pages/Patient/Games/Games.jsx:247 | the "Pairs Found" count is half the matched cards and never more than the eight images |
| Games.MemoryMatching.WonWhenAllMatched | ReLive/src/pages/Patient/Games/Games.jsx:255 | the congratulations show exactly when every card of the deck is matched |
| Games.MemoryMatching.constructor | ReLive/src/pages/Patient/Games/Games.jsx:164-177 | the game starts with a dealt deck, nothing flipped or matched and no moves, and the game's invariant holds |
| Games.MemoryMatching.Click | ReLive/src/pages/Patient/Games/Games.jsx:179-197 | a click is ignored while two cards are face up and on a face-up or matched card; otherwise the card turns face up and a move is counted when it is the second; the game's invariant holds |
| Games.MemoryMatching.ResolvePair | ReLive/src/pages/Patient/Games/Games.jsx:187-195 | after the delay two equal symbols join the matched cards and different ones do not, both cards turn back down, and the game's invariant holds |
| Games.MemoryMatching.Reset | ReLive/src/pages/Patient/Games/Games.jsx:199-208 | "Play Again" deals a fresh deck and clears the flipped cards, the matched cards and the moves |

## Left out

- HTTP, `localStorage`, `window.location`, `alert` and `confirm`: an HTTP reply is a parameter of the operation that receives it; the token store is a map; a redirect or an alert is a result value; a confirmation is a `confirmed` flag.
- Decoding a JWT (`atob`, `JSON.parse`): a token is either undecodable or decodable with an optional `exp`.
- A reply body that `res.json()` fails to parse on an ok answer is not modelled; only the data the code reads from the body is.
- `parseInt` prefix parsing: the route's patient id arrives already parsed, as `Option<int>`, with `None` for NaN.
- Concurrency: overlapping refreshes, overlapping like toggles and requests answered out of order do not appear; each operation runs alone, start to finish.
- Timers: the game's one-second `setTimeout` is the explicit step `Games.MemoryMatching.ResolvePair`. A reset or a click that lands inside the delay, and the stale `matched` and `moves` captured by the callbacks, are not modelled. The focus timer of the modal is left out.
- Randomness: the game's `Math.random()` shuffle is a parameter, any rearrangement of the doubled images; `secrets.token_urlsafe(6)` is a `token` string parameter of `Models.GenerateCode`.
- The media host (Cloudinary) is an outcome per file, and `request.build_absolute_uri` is the `absoluteFile` parameter of `Serializers.ResolvedUrl`.
- Floating point: `duration.total_seconds()` is whole microseconds divided exactly; the float rounding of Python is not modelled, and neither is the video-duration arithmetic of the upload view.
- Case mapping and whitespace are ASCII only: `toUpperCase`, `toLowerCase`, `trim`, `strip` and `split()` treat other Unicode characters as plain letters. One whitespace set serves JavaScript and Python alike, so the separators U+001C to U+001F, which Python's `str.split()` and `strip()` also treat as whitespace (for example in `Serializers.AvatarInitials`), count as letters here, as do U+00A0 and the other Unicode spaces.
- `MemoriesPage.Filtered`, `DemoMemories.Filtered`: `includes` on lower-cased text is `Contains` on ASCII-lower-cased text, so Unicode case folding is not modelled.
- `MemoryDetail.TagColor`, `MemoryDetail.TagTextColor`: a tag named like a JavaScript object property (`constructor`, `toString`) finds an inherited function in the colour tables; the model treats such tags as absent and gives the fallback colour.
- `FamilyDashboard.AvatarInitials`: takes a string; `String(null)` giving "null" for a null name is not modelled.
- `FamilyPage.Initials`: takes a string; a member whose name and username are both null is passed `null`, which `String(null)` turns into "null" and the initials "N", and this is not modelled.
- `MemoryRecord.Memory`: carries `user` and `people` as ordinary fields, although the memory serializer (backend/api/serializers.py:226-231) does not send them; against the real endpoint `memory.user` is undefined, so the `user` test in `PatientMemories.Belongs` never holds there and only the username test selects, which the model does not capture.
- `Views.CreateTarget`: takes `patient_id` as the integer it names, with `None` for a missing or empty field; a text that is not an integer (such as "abc") makes the lookup raise and the view answer 500, which is not modelled. The text "0", which Python finds true, arrives as `Some(0)` and meets the same access check as any other id.
- The MemoryPerson and MemoryTag tables, with their `unique_together` constraints, the people and tag add/detail views, comments, `get_media_counts` and the single-item media views are not part of this model; the core operations above do not write them.
- Primary keys: one counter `nextId` serves every table, where the database has one sequence per table; only the uniqueness of ids within a table is used.
- The `print` and `console.log` output, and the `except Exception` branches of the handlers that only print, are left out.
- Audio playback: `MemoryDetail.Page.PlayRecording` tracks which recording plays; pausing and playing the audio elements is left out.
- `Views.Navigate`: takes the ordered id list as a parameter; that it is the accessible memories ordered newest first (`order_by('-created_at')`) is not derived in the model, because creation times are not part of the memory rows.
- The effect cleanup of the add-memory modal, which revokes a blob preview when the preview changes and when the modal unmounts, is left out. Only the explicit revocations in `resetForm` and `handleImageChange` are modelled, so the model's `revoked` list misses the revocations the cleanup repeats.
- The `__str__` methods of the models other than FamilyMember and MemoryComment are not modelled: nothing in the core displays them.
- The Family page's other requests through `apiRequest` (fetching the user, the members and the share code, creating a code and connecting) are not part of this model; `apiRequest` itself is, with any options, and so is the member removal's DELETE.
- Plain setters bound directly to inputs (search box, the filter selects, the "All" quick filter, the sidebar toggle) and all rendering, styling and routing tables are left out.

## Findings

| source | as written | input that shows it | evidently intended | confidence | as-written member | corrected member |
|---|---|---|---|---|---|---|
| ReLive/src/pages/Patient/Memories/MemoryDetail.jsx:208-217 | `getAvatarInitials` splits the trimmed name on a single space, so a double space yields an empty second part whose `[0]` is `undefined`, and a whitespace-only name passes the `!name` check and trims to "" | "Mary  Jane" gives "MUNDEFINED"; " " gives "" | the initials of the first two whitespace-separated words, "??" for a blank name, as `get_avatar_initials` computes them on the server ("MJ" and "??") | not executed | MemoryDetail.DoubleSpaceDiffers | Serializers.AvatarInitialsLetters |
