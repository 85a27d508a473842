# notekush: a Dafny model of the client-side logic

notekush is a single-page note-sharing application. Students browse and
download the notes that faculty of their department have uploaded.
Administrators manage users and notes. Storage, authentication and the
database belong to a hosted backend. The application's own logic is small:

- the list filters and dropdown option lists of the Notes and Admin pages;
- the local list updates after a delete;
- the storage path and metadata row of an upload;
- the route guard and the route table;
- the edit/cancel/save form of the Profile page.

This project models that logic in Dafny and proves what it promises.

Layout, one module per file:

- `common.dfy` (`Common`): `Option`, the `Outcome` of a mutating backend
  call, and the `Query` reply of a select.
- `text.dfy` (`Text`): ASCII lower/upper case, `includes`, `split`/`join`,
  the file extension taken by `split('.').pop()`, and decimal rendering.
- `lists.dfy` (`Lists`): `filter`, the subsequence relation, and
  `[...new Set(xs)]` as first-occurrence de-duplication.
- `records.dfy` (`Records`): the `Profile` and `Note` row shapes.
- `notes_page.dfy` (`NotesPage`): the Notes page. The filters and option
  lists are functions. The component state (`notes`, `loading`,
  `showUploadModal`, `uploadData`, `uploading`) is the class `Notes`.
- `admin_page.dfy` (`AdminPage`): the Admin page. The filters, counts and
  removals are functions. The `users`/`notes` lists are the class `Admin`.
- `protected_route.dfy` (`ProtectedRoute`): the guard's four-way decision.
- `app_routes.dfy` (`AppRoutes`): the route table, a visit to a path, and
  redirect following.
- `profile_page.dfy` (`ProfilePage`): the form state machine over
  `editing`, `loading` and `formData`, and the role label. The class
  `Editor` is tied to the transition functions.

Backend calls are never executed in the model. Their replies are inputs: an
`Outcome` (ok or an error) for uploads, inserts, deletes and updates, and a
`Query` (rows, possibly null, or an error) for selects. `confirm()` answers
are a boolean input, and `Date.now()` is a natural-number input.

One observation, stated as `ProfilePage.LateProfileSavesBlankForm`:
`formData` is filled from the profile only once, when the page mounts. If the
profile was not yet loaded at that moment, the form stays empty. A save made
without typing then sends empty fields. Whether this can happen depends on
the auth provider's loading order, which is not part of this model.

## Model

| member | source | states |
|---|---|---|
| `Text.Lower` | src/pages/Notes.tsx:123 | lower-casing keeps the length and maps each character to its ASCII lower case |
| `Text.Contains` | src/pages/Notes.tsx:123 | `includes`: an empty needle occurs in every string, and a needle that occurs is no longer than the haystack |
| `Text.ContainsIffOccurs` | src/pages/Notes.tsx:123 | `includes` holds exactly when the needle occurs at some position of the haystack (both directions) |
| `Text.ContainsIgnoringCase` | src/pages/Notes.tsx:123-126 | the lower-cased `includes`: an empty term matches every field, and a matching term is no longer than the field |
| `Text.CaseIrrelevant` | src/pages/Notes.tsx:123-126 | the case-insensitive match does not change when the search term is upper- or lower-cased, or the field upper-cased |
| `Text.Split` | src/pages/Notes.tsx:58 | `split` gives at least one piece, and no piece contains the separator |
| `Text.JoinSplit` | src/pages/Notes.tsx:58 | joining the pieces of a split gives back the original string |
| `Text.SplitJoin` | src/pages/Notes.tsx:58 | splitting a join of separator-free pieces gives back the pieces |
| `Text.Extension` | src/pages/Notes.tsx:58 | the extension is the longest '.'-free suffix of the name: it follows the last '.', or is the whole name when there is no '.' |
| `Text.Decimal` | src/pages/Notes.tsx:59 | the timestamp is rendered as a non-empty string of decimal digits, with no leading zero (a single digit for a number below 10) |
| `Text.DecimalRoundTrip` | src/pages/Notes.tsx:59 | the rendered digits read back as the timestamp |
| `Text.Capitalize` | src/pages/Profile.tsx:164 | same length; the first character upper-cased; the rest unchanged |
| `Lists.Filter` | src/pages/Notes.tsx:122 | `filter` keeps exactly the values that pass, in order (a subsequence), adds nothing, keeps everything when all pass and nothing when none pass |
| `Lists.FilterCounts` | src/pages/Notes.tsx:122 | a filter keeps every copy of a passing value and no copy of any other: the count of each value in the result is fixed |
| `Lists.FilterKeepsFirstOrder` | src/pages/Notes.tsx:132 | of two passing values, the one whose first occurrence comes earlier in the input also comes earlier in the filtered list, and conversely |
| `Lists.FirstIndex` | src/pages/Notes.tsx:131 | the first position of a value: it holds the value, and no earlier position does |
| `Lists.DistinctFrom` | src/pages/Notes.tsx:131 | filling a set from a list after a set of already seen values keeps each new value once, in order of first occurrence |
| `Lists.Distinct` | src/pages/Notes.tsx:131-132 | `[...new Set(xs)]` has the same values as `xs`, no duplicates, and lists them in order of first occurrence |
| `Common.Query.RowsOrEmpty` | src/pages/Notes.tsx:44 | `data \|\| []`: the reply's rows, or the empty list when the reply carries `null` |
| `Records.RoleNameInjective` | src/lib/supabase.ts:14 | two roles have the same stored name exactly when they are the same role |
| `Records.RoleName` | src/lib/supabase.ts:14 | the stored role names are non-empty and all lower-case, so they never equal a capitalised spelling |
| `Records.FacultyName` | src/pages/Notes.tsx:124 | `note.profiles?.name`: a name exactly when an uploader profile is embedded, and then that profile's name |
| `Records.FacultyNameMatches` | src/pages/Notes.tsx:124-126 | `profiles?.name?.…includes(t)` as a condition: true exactly when an uploader is embedded and its name contains the term, ignoring case |
| `NotesPage.FilteredNotes` | src/pages/Notes.tsx:122-129 | the shown notes are an order-preserving subsequence of the notes; a note is shown exactly when it passes search, subject and faculty filters, and then as often as it occurs in the list |
| `NotesPage.NoteMatches` | src/pages/Notes.tsx:123-127 | the filter callback: with all three filters empty every note passes, and a note passing a faculty filter has an embedded uploader |
| `NotesPage.NoFilterShowsAll` | src/pages/Notes.tsx:123-128 | with search, subject and faculty all empty, every note is shown |
| `NotesPage.SearchCoversTitleAndFacultyOnly` | src/pages/Notes.tsx:123-124 | every shown note matched the search in its title or uploader name; the subject is not searched |
| `NotesPage.SubjectFilterIsContainment` | src/pages/Notes.tsx:125 | the subject filter admits any note whose subject contains the chosen text, ignoring case; equality is not needed |
| `NotesPage.FacultyFilterNeedsUploader` | src/pages/Notes.tsx:126 | with a faculty filter set, a note with no embedded uploader is never shown |
| `NotesPage.ShownNotesStayInDepartment` | src/pages/Notes.tsx:38 | if the backend honours the department filter of the fetch, every shown note is of that department |
| `NotesPage.SubjectColumn` | src/pages/Notes.tsx:131 | `notes.map(note => note.subject)`, position by position |
| `NotesPage.NameColumn` | src/pages/Notes.tsx:132 | `notes.map(note => note.profiles?.name)`, position by position, a missing name written as '' |
| `NotesPage.Subjects` | src/pages/Notes.tsx:131 | the subject dropdown lists each subject of the notes once, in order of first occurrence, and nothing else |
| `NotesPage.FacultyColumn` | src/pages/Notes.tsx:132 | the kept names are a subsequence of the mapped name column, in its order; a name is kept exactly when it is a non-empty embedded uploader name, and then every time it occurs |
| `NotesPage.FacultyNames` | src/pages/Notes.tsx:132 | the faculty dropdown lists each non-empty uploader name once, and nothing else; missing and empty names are dropped; the names follow the order of their first occurrence among the notes |
| `NotesPage.KeptFirstOrder` | src/pages/Notes.tsx:132 | the first-occurrence order of names among the non-empty ones is their first-occurrence order in the whole name column |
| `NotesPage.StoragePath` | src/pages/Notes.tsx:58-61 | the path lies in the uploader's folder: it starts with the uploader's id and a '/' |
| `NotesPage.StoragePathKeepsExtension` | src/pages/Notes.tsx:58-61 | the stored object has the same extension as the uploaded file |
| `NotesPage.StoragePathDecodes` | src/pages/Notes.tsx:58-61 | after the uploader's folder, the object name splits on '.' into the timestamp digits and the extension, and the digits read back as the timestamp |
| `NotesPage.ObjectNameSplits` | src/pages/Notes.tsx:59 | digits, a '.', and a '.'-free extension split back into those two pieces |
| `NotesPage.UploadNote` | src/pages/Notes.tsx:52-93 | no file or no profile: nothing happens; a failed storage upload: no insert; otherwise the row takes title and subject from the form, `file_url` from the path, `file_name` from the file, and `department` and `faculty_id` from the uploader |
| `NotesPage.UploadedRowKeepsExtension` | src/pages/Notes.tsx:58-81 | the inserted row's `file_url` has the extension of its `file_name` |
| `NotesPage.Notes.constructor` | src/pages/Notes.tsx:8-19 | initial state: no notes, loading, modal closed, empty form, not uploading |
| `NotesPage.Notes.FetchNotes` | src/pages/Notes.tsx:25-50 | without a profile nothing changes (the spinner stays); else rows (or `[]` for null) replace the list, an error keeps it, and loading ends |
| `NotesPage.Notes.OpenUploadModal` | src/pages/Notes.tsx:152-155 | the upload modal opens only for a faculty profile |
| `NotesPage.Notes.CloseUploadModal` | src/pages/Notes.tsx:267-270 | closing the modal keeps the form's contents |
| `NotesPage.Notes.HandleUpload` | src/pages/Notes.tsx:52-93 | the result is `UploadNote` of the form; only on success do the modal close and the form reset; `uploading` ends false once started; the notes list is untouched |
| `AdminPage.FilteredUsers` | src/pages/Admin.tsx:97-105 | the listed users are an order-preserving subsequence of the users; a user is listed exactly when search, role and department filters pass, and then as often as it occurs |
| `AdminPage.UserMatches` | src/pages/Admin.tsx:98-103 | the user filter callback: with every filter empty every user passes, and a user passing a role filter has exactly that stored role |
| `AdminPage.FilteredNotes` | src/pages/Admin.tsx:107-114 | the notes tab lists an order-preserving subsequence, each passing note as often as it occurs; the filter has no role parameter and searches title, subject or uploader name |
| `AdminPage.AdminNoteMatches` | src/pages/Admin.tsx:108-112 | the note filter callback: with every filter empty every note passes, and with no department chosen a note whose subject contains the search passes |
| `AdminPage.NoFilterListsAll` | src/pages/Admin.tsx:97-114 | with every filter empty both tabs list everything |
| `AdminPage.RoleFilterIsExact` | src/pages/Admin.tsx:101 | choosing a role lists exactly the users of that role |
| `AdminPage.RoleFilterIsCaseSensitive` | src/pages/Admin.tsx:101 | the role comparison is exact: "Admin" matches no user |
| `AdminPage.NotesTabSearchesSubject` | src/pages/Admin.tsx:108-109 | on the notes tab a note whose subject contains the search is listed |
| `AdminPage.RoleCount` | src/pages/Admin.tsx:163 | the card shows the number of users with that role, counted entry by entry, which never exceeds the number of users |
| `AdminPage.RoleFilterLength` | src/pages/Admin.tsx:163 | filtering by a role keeps exactly one entry per user with that role |
| `AdminPage.RoleCountsPartitionUsers` | src/pages/Admin.tsx:152-175 | the student, faculty and admin counts add up to the total user count |
| `AdminPage.StudentsAndFacultyWithinTotal` | src/pages/Admin.tsx:152-175 | the Students and Faculty cards never add up to more than Total Users |
| `AdminPage.WithoutUser` | src/pages/Admin.tsx:70 | after a delete the list is an order-preserving subsequence holding exactly the users of other ids; it is unchanged when no user has the id |
| `AdminPage.WithoutUserRemovesExactly` | src/pages/Admin.tsx:70 | the list shrinks by exactly the number of entries with that id |
| `AdminPage.WithoutNote` | src/pages/Admin.tsx:89 | the same for notes |
| `AdminPage.WithoutNoteRemovesExactly` | src/pages/Admin.tsx:89 | the notes list shrinks by exactly the number of entries with that id |
| `AdminPage.AdminView` | src/pages/Admin.tsx:116-134 | the dashboard shows exactly for an admin profile once loading ends; any other profile, or none, sees Access Denied |
| `AdminPage.Admin.constructor` | src/pages/Admin.tsx:8-10 | initial state: no users, no notes, loading |
| `AdminPage.Admin.FetchUsers` | src/pages/Admin.tsx:23-35 | rows (or `[]` for null) replace the users; an error keeps them |
| `AdminPage.Admin.FetchNotes` | src/pages/Admin.tsx:37-57 | rows (or `[]` for null) replace the notes; an error keeps them; loading ends either way |
| `AdminPage.Admin.OnProfile` | src/pages/Admin.tsx:16-21 | both lists are fetched for an admin profile only; otherwise nothing changes |
| `AdminPage.Admin.DeleteUser` | src/pages/Admin.tsx:59-76 | declined or failed: the list is unchanged; success: the list becomes `WithoutUser` of the old list; the notes are untouched |
| `AdminPage.Admin.DeleteNote` | src/pages/Admin.tsx:78-95 | declined or failed: the notes are unchanged; success: they become `WithoutNote` of the old list; the users are untouched |
| `ProtectedRoute.Decide` | src/components/ProtectedRoute.tsx:13-29 | spinner exactly while loading; /login exactly when loaded without a user; /notes exactly when a role is required and the profile is missing or has another role; the children exactly otherwise (the four cases are exclusive and exhaustive) |
| `ProtectedRoute.NoRoleNeedsNoProfile` | src/components/ProtectedRoute.tsx:25-29 | with no required role a signed-in user gets the children even with a null profile |
| `AppRoutes.RouteFor` | src/App.tsx:21-49 | /, /about, /login, /signup are unguarded; /notes and /profile are guarded with no role; /admin is guarded with role admin; each of these shows its own page; any other path redirects to / |
| `AppRoutes.Visit` | src/App.tsx:21-49 | a visit shows the spinner exactly on a guarded path while the session loads; an open path shows its page; a guarded path shows its page exactly when a user is signed in and any required role is the profile's; every navigation goes to /, /login or /notes |
| `AppRoutes.AdminRouteOutcomes` | src/App.tsx:41-48 | on /admin a visitor without a session goes to /login, a signed-in non-admin to /notes, and only an admin profile sees the dashboard |
| `AppRoutes.OneRedirectSettles` | src/App.tsx:21-49 | after at most one redirect every visit shows a page, or the spinner while the session loads: there are no redirect chains or loops |
| `ProfilePage.FormFor` | src/pages/Profile.tsx:9-14 | the form copies name, mobile number, department and subjects from the profile, with '' for any missing value, and is all '' without a profile |
| `ProfilePage.ApplyUpdate` | src/pages/Profile.tsx:20 | a partial update with the four-field payload never changes id, email or role; under the assumed update the timestamps are kept too |
| `ProfilePage.SavedFormReloads` | src/pages/Profile.tsx:20 | after a save, refilling the form from the updated profile gives the saved form |
| `ProfilePage.UntouchedSaveKeepsProfile` | src/pages/Profile.tsx:9-20 | saving an untouched form leaves a profile whose optional fields are all set unchanged |
| `ProfilePage.UntouchedSaveFillsMissingMobile` | src/pages/Profile.tsx:11 | saving an untouched form stores a missing mobile number as the empty string |
| `ProfilePage.Edited` | src/pages/Profile.tsx:115-180 | a keystroke in one input sets that field to the typed value and keeps the other three fields, `editing` and `loading` |
| `ProfilePage.EditedAll` | src/pages/Profile.tsx:113-117 | any sequence of keystrokes leaves `editing` and `loading` unchanged |
| `ProfilePage.Cancelled` | src/pages/Profile.tsx:31-39 | cancel refills the form from the profile and ends editing |
| `ProfilePage.CancelIdempotent` | src/pages/Profile.tsx:31-39 | cancelling twice gives the same state as cancelling once |
| `ProfilePage.CancelDiscardsEdits` | src/pages/Profile.tsx:31-39 | cancel after any sequence of keystrokes gives the same state as cancel without them |
| `ProfilePage.Submitted` | src/pages/Profile.tsx:16-29 | after submit loading is false; editing is false after success and unchanged after an error; the form is kept |
| `ProfilePage.LateProfileSavesBlankForm` | src/pages/Profile.tsx:9-14 | a form filled before the profile loaded stays empty, and saving it sends empty fields |
| `ProfilePage.RoleLabel` | src/pages/Profile.tsx:164 | the role field reads "Student", "Faculty" or "Admin" |
| `ProfilePage.RoleLabelInjective` | src/pages/Profile.tsx:164 | distinct roles get distinct labels |
| `ProfilePage.Editor.constructor` | src/pages/Profile.tsx:7-14 | initial state: not editing, not loading, form filled from the profile |
| `ProfilePage.Editor.StartEditing` | src/pages/Profile.tsx:66-73 | the Edit Profile button turns editing on and changes nothing else |
| `ProfilePage.Editor.Edit` | src/pages/Profile.tsx:115-180 | an input's change is the `Edited` transition |
| `ProfilePage.Editor.HandleCancel` | src/pages/Profile.tsx:31-39 | the state becomes `Cancelled` of the old state |
| `ProfilePage.Editor.HandleSubmit` | src/pages/Profile.tsx:16-29 | the payload is the form as it stood, and the state becomes `Submitted` of the old state |

## Left out

- Backend queries, inserts, deletes, storage upload and download are a foreign SDK over the network. Their replies are inputs (`Outcome`, `Query`). The department filter of the Notes fetch is an assumption in `NotesPage.ShownNotesStayInDepartment`, not a proved fact.
- The backend client setup and its environment variables are library configuration (src/lib/supabase.ts:1-6).
- `handleDownload` is not modelled. It downloads through the SDK and saves the file through the DOM (src/pages/Notes.tsx:95-120).
- `alert`, `confirm` and `console.error` are browser I/O. A `confirm` answer is a boolean input, and alert messages are not modelled.
- `Date.now()` is a natural-number input. `toLocaleDateString()` is locale formatting and is not modelled.
- `toLowerCase`/`toUpperCase` are modelled on ASCII letters only. Full Unicode case mapping is not modelled.
- Route matching is exact string equality. The router's case-insensitive matching and its tolerance of a trailing slash are not modelled. `Navigate`'s `replace` (history replacement) is not modelled.
- The re-fetch after a successful upload is not modelled. An `Uploaded` result marks where it follows.
- The browser's `required` validation of the upload form is not modelled (DOM behaviour, src/pages/Notes.tsx:282, 296, 310). `handleUpload` itself checks only that a file and a profile are present (src/pages/Notes.tsx:54), and `NotesPage.UploadNote` models exactly that check.
- The upload form's field `onChange` handlers are not modelled (src/pages/Notes.tsx:284, 298, 312). Each is a plain assignment of one field.
- The auth context (`useAuth`, `updateProfile`) is not part of this model. `ProfilePage.ApplyUpdate` states the assumed meaning of a partial row update: payload columns take the payload's values and other columns keep theirs. Timestamp columns maintained by the backend are not modelled.
- `ProfilePage.ApplyUpdate`: does not model a backend that rewrites `updated_at` on update, because that column is maintained outside the application.
- `Profile.name` is a plain string, as the record type declares. The optional chaining `user.name?.` in the Admin filter and `profiles?.name?.` guard against a null name at run time; a null name is not modelled.
- The embedded uploader profile of a note carries only name and email at run time. It is modelled as a full optional `Profile`, of which only the name is read.
- React effects, rendering and async scheduling are not modelled: `useEffect`, awaited promises, JSX, CSS, tab toggling, and button visibility other than the faculty-only upload button.
- The intermediate `uploading`/`loading` value `true` during an awaited call is not observable in the sequential model. Only the value after the handler is stated.
- The Home page, the About page and the navigation bar are static content and link visibility.
