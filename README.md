# Science-day registration workflow, modelled in Dafny

A science-day enrollment site lets students submit a project registration and
lets staff approve or reject it. Three serverless handlers do the work:

- `submit-registration` (POST) checks nine required form fields in a fixed
  order. It then inserts a student row and, as a separate step, a `pending`
  registration row that points at the student.
- `update-registration` (PUT) runs a ladder of guards: method, signed-in user,
  role `admin` or `school_official`, both body members present, status among
  `pending`/`approved`/`rejected`. Then it overwrites one registration's status,
  whatever the status was before.
- `get-registrations` (GET) returns registrations newest first, each with its
  student and school embedded. `school_official` and `admin` see every row.
  For anyone else the code filters on the embedded student's email; the model
  takes this as intended, keeping the rows whose student email is their own.

The dashboard page holds a user, a list of registrations and a loading flag.
It offers approve/reject buttons on pending rows to admins and school
officials, and updates its list locally. `auth.hasRole` is the client's
null-safe role test.

The hosted database is replaced by an in-memory store (`Store.Database`). It
holds a map of schools, a map of students and a sequence of registrations. Its
integrity constraints are stated by `Store.Consistent`: each student's
`school_id` names a school, each registration's `student_id` names a student,
and registration ids are unique. Backend errors, the database clock and id
generation are inputs of the model:

- `Faults` and `storeFails` stand for errors a backend call may return.
- `QueryResult` stands for the listing query's error or `null` result.
- `now` is the clock that fills `created_at`.
- New ids are any ids not yet in use.

Request bodies are the values `JSON.parse` yields (`JsValues.Json`), or
`Unparsable` when it throws. JavaScript's truthiness and property reads are
modelled explicitly. Reading a property of `null` throws, and the handlers'
`catch` blocks answer 500 for it.

Files: `options.dfy`, `js_values.dfy`, `auth.dfy`, `store.dfy`, `http.dfy`,
`submission.dfy`, `status_update.dfy`, `listing.dfy`, `dashboard.dfy`.

Where the intended behaviour and the code differ, the model follows the code:

- A `school_official` sees every registration, since no school filter is implemented.
- A status may move between any two of the three values.

There is one exception. For requesters without a staff role, the model follows
the intent of the comment above the email filter. The code's filter itself is
different, as explained under "## Left out".

## Model

| member | source | states |
|---|---|---|
| `Auth.HasRole` | src/lib/auth.ts:34-39 | false for a missing user, missing `app_metadata` or missing `roles`; otherwise true exactly when the role is in the user's list, i.e. it agrees with the handlers' `roles \|\| []` |
| `Auth.RolesOf` | netlify/functions/update-registration.js:40 | `user.app_metadata?.roles \|\| []`: the stored list when present, the empty list when metadata or roles are missing |
| `JsValues.Property` | netlify/functions/submit-registration.js:33 | `data[key]` on a non-null value is defined exactly when `data` is an object with that member, and is then that member |
| `JsValues.Truthy` | netlify/functions/submit-registration.js:33 | only a defined, non-null value can be truthy, and every array and object is truthy, the empty ones included |
| `JsValues.Present` | netlify/functions/update-registration.js:51 | a member passes the `!x` test only when the body is an object that has that member |
| `JsValues.Member` | netlify/functions/submit-registration.js:53-61 | the value stored in a column is the body's member itself whenever that member is present |
| `Submission.FirstAbsentFrom` | netlify/functions/submit-registration.js:31-40 | the index found is the first missing required field from the start point: every earlier field is present and the one found is absent (or the end is reached) |
| `Submission.FindMissingField` | netlify/functions/submit-registration.js:31-40 | the loop with early return reports no field exactly when all nine are present, and otherwise names the first missing one in the fixed order |
| `Submission.IntakeOf` | netlify/functions/submit-registration.js:11-40 | the request goes on to the store exactly when it is a POST with a parsable, non-null body in which all nine fields are present; every other answer is 200, 400, 405 or 500 |
| `Submission.IntakeGates` | netlify/functions/submit-registration.js:11-28 | OPTIONS gets 200 with an empty body whatever the body; any other non-POST method gets 405; an unparsable or `null` body gets 500 "Internal server error" |
| `Submission.MissingFieldReported` | netlify/functions/submit-registration.js:31-40 | when several fields are missing, the 400 names the earliest one in the order firstName … category |
| `Submission.OmittedFieldIsNamed` | netlify/functions/submit-registration.js:31-40 | removing any one of the nine members from a complete form yields a 400 naming exactly that member |
| `Submission.StudentFrom` | netlify/functions/submit-registration.js:52-62 | the student row carries the form's email and school as submitted and the insert time |
| `Submission.SubmitRegistration` | netlify/functions/submit-registration.js:3-115 | rejections before the store leave it unchanged. A failed student insert gives 500 "Failed to save student data" and changes nothing. A failed registration insert gives 500 "Failed to create registration" and leaves exactly one new student behind. Success adds one student and one `pending` registration pointing at it, under fresh ids, and returns both ids |
| `Store.Database.InsertStudent` | netlify/functions/submit-registration.js:49-65 | fails exactly on a backend error or an unknown school, changing nothing; otherwise stores the row under an unused id, touching nothing else |
| `Store.Database.InsertRegistration` | netlify/functions/submit-registration.js:77-86 | fails exactly on a backend error or an unknown student; otherwise appends one row with an unused id, the given student, status and `created_at` |
| `Store.ParseStatus` | netlify/functions/update-registration.js:59 | a status is recognised exactly when the value is one of the three status strings, and then it is the status that string names |
| `Store.WithStatus` | netlify/functions/update-registration.js:74-79 | rows with the given id take the new status; all other rows and all other columns are unchanged; length and order are kept |
| `Store.Find` | netlify/functions/update-registration.js:74-79 | returns a position holding the id, and None exactly when no row has that id |
| `Store.WithStatusIdempotent` | netlify/functions/update-registration.js:74-79 | applying the same update twice leaves the same rows as applying it once |
| `Store.WithStatusLastWins` | netlify/functions/update-registration.js:74-79 | of two updates to the same row the later status wins, whatever the earlier was (no transition is forbidden) |
| `Store.WithStatusKeepsConsistency` | netlify/functions/update-registration.js:74-79 | the overwrite keeps both foreign keys and the uniqueness of ids |
| `Store.Database.UpdateStatus` | netlify/functions/update-registration.js:74-79 | fails, changing nothing, on a backend error or when the id is not a stored id (`.single()` sees no row); otherwise the table becomes `WithStatus` of the old one and the updated row is returned |
| `StatusUpdate.Guard` | netlify/functions/update-registration.js:11-65 | the update proceeds exactly for a PUT by a user holding `admin` or `school_official`, with a non-null body whose `registrationId` is present and whose `status` is one of the three strings; it then carries those two values |
| `StatusUpdate.MethodGate` | netlify/functions/update-registration.js:11-25 | OPTIONS gets 200 with an empty body; any other non-PUT method gets 405 |
| `StatusUpdate.MalformedBodyIsInternalError` | netlify/functions/update-registration.js:99-105 | a staff PUT whose body is not JSON, or is JSON `null`, throws at the destructuring parse and gets 500 "Internal server error" |
| `StatusUpdate.NoUserIsUnauthorized` | netlify/functions/update-registration.js:29-37 | a PUT without a user gets 401, whatever the body |
| `StatusUpdate.NonStaffIsForbidden` | netlify/functions/update-registration.js:40-49 | a user with neither staff role, including one without roles, gets 403 whatever the body, since the body is parsed after the role check |
| `StatusUpdate.MissingMemberIsRejected` | netlify/functions/update-registration.js:51-57 | a staff request lacking either member, or carrying a falsy one, gets 400 "Missing required fields" |
| `StatusUpdate.UnknownStatusIsRejected` | netlify/functions/update-registration.js:59-65 | a staff request with both members but a status outside the three gets 400 "Invalid status" |
| `StatusUpdate.EveryStatusIsAccepted` | netlify/functions/update-registration.js:59-79 | any of the three statuses is accepted for any id, so the guards impose no transition order |
| `StatusUpdate.UpdateRegistration` | netlify/functions/update-registration.js:3-107 | every guard refusal returns the guard's answer and leaves the store unchanged. A backend error or unknown id gives 500 "Failed to update registration", store unchanged. Otherwise 200 with the updated row, and only that row's status changes |
| `StatusUpdate.UpdateTouchesOnlyTarget` | netlify/functions/update-registration.js:74-79 | after an update the ids stay unique, every row keeps its id, student and creation time, the target row has the new status, and every other row is still there unchanged |
| `Store.ViewOf` | netlify/functions/get-registrations.js:45-58 | a listed row carries the registration's own columns unchanged and its student's email |
| `Listing.ScopeOf` | netlify/functions/get-registrations.js:63-71 | a requester sees all rows exactly when they hold `school_official` or `admin` (the former tested first); anyone else is limited to their own email |
| `Listing.Filter` | netlify/functions/get-registrations.js:63-71 | each stored row is kept as many times as it is stored when in scope and dropped otherwise; with every row in scope the rows are returned untouched |
| `Listing.InsertByNewest` | netlify/functions/get-registrations.js:60 | inserting into a newest-first list keeps it newest first and adds exactly that row |
| `Listing.SortByNewest` | netlify/functions/get-registrations.js:60 | the result is ordered by `created_at`, non-increasing, and is a permutation of the input |
| `Listing.Query` | netlify/functions/get-registrations.js:45-73 | every row the query yields carries the columns of a stored registration: the filter, order and embed invent no row |
| `Listing.Views` | netlify/functions/get-registrations.js:45-58 | one joined row per registration, in the same order |
| `Listing.GetRegistrations` | netlify/functions/get-registrations.js:3-98 | OPTIONS gets 200 and other non-GET methods 405. Without a user the answer is 401. A query error gets 500 "Failed to fetch registrations". Rows are returned (200) exactly for a GET by a user when the query does not fail. A `null` result gives an empty list; otherwise the rows are the query's |
| `Listing.ListingIsNewestFirst` | netlify/functions/get-registrations.js:45-60 | the listed rows are ordered by `created_at`, newest first |
| `Listing.ListingIsScopedStore` | netlify/functions/get-registrations.js:63-73 | the listed rows are exactly the stored rows in the requester's scope, counted with repetition, so they are always a sub-multiset of the store |
| `Listing.StaffSeeEverything` | netlify/functions/get-registrations.js:64-68 | `admin` and `school_official` see every stored registration exactly once |
| `Listing.OthersSeeOwnRows` | netlify/functions/get-registrations.js:68-71 | anyone else sees exactly the stored registrations whose student email equals theirs, and every listed row shows that email |
| `Listing.StoredRowIsListedForStaff` | netlify/functions/get-registrations.js:64-68 | every stored registration, one just submitted included, appears for staff with its own status |
| `DashboardPage.ListWithStatus` | src/app/dashboard/page.tsx:88-90 | entries with the matching id take the new status and keep every other field; all other entries are unchanged; length and order are kept |
| `DashboardPage.LocalUpdateMatchesServer` | src/app/dashboard/page.tsx:88-90 | the registration columns of the page's locally updated list equal the stored rows after the server's overwrite with the same id and status |
| `DashboardPage.UnknownIdChangesNothing` | src/app/dashboard/page.tsx:88-90 | an id that matches no entry leaves the list unchanged |
| `DashboardPage.IsAdmin` | src/app/dashboard/page.tsx:118 | the page's admin flag equals `hasRole(user, 'admin')` |
| `DashboardPage.IsSchoolOfficial` | src/app/dashboard/page.tsx:119 | the page's school-official flag equals `hasRole(user, 'school_official')` |
| `DashboardPage.Actions` | src/app/dashboard/page.tsx:179-196 | a row shows buttons exactly when the user is admin or school official and the row is pending, and then they are approve and reject |
| `DashboardPage.Render` | src/app/dashboard/page.tsx:96-140 | the login view appears exactly when there is no user. A signed-in user sees the loading notice while loading and the list view otherwise. The list view shows every registration in order with the buttons `Actions` gives |
| `DashboardPage.OfferedMovesLeavePending` | src/app/dashboard/page.tsx:179-196 | a move is offered only to staff, only from `pending`, only to `approved` or `rejected`; taking it changes that entry and those sharing its id, and nothing else |
| `DashboardPage.OfferedMovesPassHandlerGuards` | src/app/dashboard/page.tsx:179-194 | a move the page offers is one the update handler's guards accept for that user |
| `DashboardPage.Dashboard.constructor` | src/app/dashboard/page.tsx:25-27 | the page starts with no user, no registrations, loading, and shows the login view |
| `DashboardPage.Dashboard.Load` | src/app/dashboard/page.tsx:29-79 | the effect installs the mock admin and the two mock registrations and ends loading; the pending row then offers approve and reject, the approved one nothing |
| `DashboardPage.Dashboard.HandleLogout` | src/app/dashboard/page.tsx:81-83 | logout clears the user and keeps the rest; the login view then replaces the list |
| `DashboardPage.Dashboard.UpdateRegistrationStatus` | src/app/dashboard/page.tsx:85-94 | the list becomes `ListWithStatus` of the old list; user and loading flag are unchanged |

## Left out

- CORS headers, `console.error` logging and JSON serialisation of response bodies: every handler sends the same headers, and the bodies are kept as values.
- Supabase client construction and environment variables. The query builder is replaced by the store's methods and functions.
- The Netlify Identity widget calls in `src/lib/auth.ts` (`getCurrentUser`, `login`, `signup`, `logout`, `onAuthChange`): they are foreign calls. The requester is an explicit optional `Auth.User`.
- `src/app/page.tsx`: its submit is a local mock with timers and calls no handler.
- `parseInt` on `grade`: the grade, like every form value, is stored as it was submitted. Column type coercion by the database is not modelled either.
- `Store.Database.UpdateStatus`: only a JSON string equal to a stored id matches. A number or boolean `registrationId` is treated as matching no row; the real filter would compare its text form.
- `Listing.OthersSeeOwnRows`: follows the intent stated in the source comment, a row filter by student email. The code does something else. It applies `.eq('student.email', …)` to an embedded resource without `!inner`. Under PostgREST's rules that filters the embedded `student`, not the registrations. So every registration would be returned, and `student` would be `null` on the rows of other students. The model does not capture that leak.
- `Listing.SortByNewest`: rows with equal `created_at` come back in an order the database leaves open. The model keeps stored order, so a claim about the order of ties is not made.
- The school foreign key is enforced by the store: a student insert whose `school` names no stored school fails like a backend error. The database schema is not part of this model; a student references its school by foreign key.
- Rendering beyond which view appears and which buttons each row has: captions, welcome text, status badge colours and the locale-dependent date format.
- The `catch` in the dashboard's `updateRegistrationStatus` is not modelled: the list map cannot throw.
- async/await, concurrency, and last-write-wins races between simultaneous updates: each handler call is one sequential step.
