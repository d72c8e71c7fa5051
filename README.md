# NHAI incident reporting — a Dafny model of its core

The NHAI incident app lets highway staff report road incidents and lets admins triage them. The incidents are accidents, potholes, breakdowns, obstructions, fires and floods. The incidents live in one collection and the staff and admin accounts in another. An Express server validates and stores both collections, and a React client routes people to their pages.

This project models that core in Dafny and proves what it promises:

- Account registration and login (`authController.js`). Every field is checked on its own and every message is collected. The duplicate checks follow. The record is stored in normalised form: trimmed, upper-cased employee id, lower-cased e-mail.
- The request gates (`authMiddleware.js`). `protect` needs a bearer token of an existing, active user. `adminOnly` needs an admin.
- Incident reporting, listing, single lookup and statistics (`incidentController.js`).
- Incident update and delete, the user list and the activation toggle (`adminController.js`).
- The incident record with its enumerations and defaults (`Incident.js`).
- The client's protected routes and role-based redirects (`App.jsx`).
- The dashboard's free-text search and drop-down query parameters (`Dashboard.jsx`).

Layout, one module per file:

| file | module | models |
|---|---|---|
| wrappers.dfy | Wrappers | `Option`, JavaScript truthiness of a string field |
| text.dfy | Text | `trim`, ASCII `toUpperCase`/`toLowerCase`, `includes`, `split`/`join` on one character |
| seqs.dfy | Seqs | find, filter, count, `$group` counting, sorting largest key first |
| validation.dfy | Validation | the e-mail, phone, employee-id and password patterns; the highway list |
| users.dfy | Users | the user record, roles, the password-free views |
| registration.dfy | Registration | the field checks of `register` and `login` |
| user_directory.dfy | UserDirectory | class `Directory`: `register`, `login`, `getAllUsers`, `toggleUserStatus` |
| incident_schema.dfy | IncidentSchema | the incident record, its enumerations and defaults |
| incident_reports.dfy | IncidentReports | the field checks of `reportIncident` and the record it creates |
| incident_store.dfy | IncidentStore | class `Store`: `reportIncident`, `getIncidentById`, `updateIncident`, `deleteIncident` |
| queries.dfy | Queries | `getIncidents` |
| stats.dfy | Stats | `getStats` |
| auth_gate.dfy | AuthGate | `protect` and `adminOnly` |
| client_routes.dfy | ClientRoutes | `ProtectedRoute` and `AppRoutes` |
| dashboard.dfy | DashboardView | the dashboard search and query parameters |

Modelling choices:

- The two MongoDB collections are `seq` fields of the `Directory` and `Store` classes. The operations that change a collection are methods that reassign these fields.
- Database ids are natural numbers handed out by a counter.
- Times are integers in milliseconds.
- An absent request field is `None`. A field the source tests for truthiness is truthy when it is present and not `""`.
- A numeric form field is modelled as missing, not a number, or a real number.

Two details of `updateIncident` (adminController.js) that the model keeps:

- `updateIncident` stamps `resolvedAt` on the request's own status: when it is "Resolved" and no time is stored yet (adminController.js:21). On a record that keeps the store invariant this is the same as stamping on the resulting status, because a resolved record is always stamped.
- Only truthy fields are applied (adminController.js:16-18), so an empty team or note never clears a stored one. `UpdateOverwrites` states exactly this.

## Model

| member | source | states |
|---|---|---|
| Text.Trim | server/controllers/authController.js:46 | the result is no longer than the input and neither starts nor ends with white space |
| Text.TrimInfix | server/controllers/authController.js:46 | what `trim` keeps is an infix of the input with only white space on either side |
| Text.TrimIdempotent | server/controllers/authController.js:155-161 | trimming a trimmed value changes nothing |
| Text.TrimEmptyIffBlank | server/controllers/authController.js:46 | `x.trim() === ""` holds exactly when `x` is white space only |
| Text.TrimLetterEnds | server/controllers/incidentController.js:73-74 | a string beginning and ending with a letter is its own trim |
| Text.ToUpper | server/controllers/authController.js:59 | same length; no lower-case letter is left |
| Text.ToLower | server/controllers/authController.js:134 | same length; no upper-case letter is left |
| Text.ToUpperChars | server/controllers/authController.js:59 | upper-casing changes only lower-case letters, each into the capital that lower-cases back to it; every other character stays where it was |
| Text.ToLowerChars | server/controllers/authController.js:134 | lower-casing changes only capitals, each into the lower-case letter that upper-cases back to it; every other character stays where it was |
| Text.ToLowerIdempotent | server/controllers/authController.js:157 | lower-casing twice is lower-casing once |
| Text.ToLowerOfUpper | client/src/pages/Dashboard.jsx:175 | lower-casing an upper-cased string equals lower-casing the original |
| Text.ToLowerKeepsMarks | server/controllers/authController.js:157 | lower-casing keeps white space, '@' and '.' exactly where they were |
| Text.IncludesIff | client/src/pages/Dashboard.jsx:175-178 | `includes` holds exactly when the needle occurs at some position of the haystack |
| Text.IncludesEmpty | client/src/pages/Dashboard.jsx:175 | the empty string is included in every string |
| Text.SplitJoin | server/middleware/authMiddleware.js:9 | joining the pieces of `split` with the separator gives back the original |
| Text.SplitPieces | server/middleware/authMiddleware.js:9 | no piece of `split` holds the separator |
| Text.SplitAppend | server/middleware/authMiddleware.js:9 | a separator-free prefix joins the first piece of what follows it |
| Seqs.FindIndex | server/controllers/adminController.js:11 | the first position whose element satisfies the predicate; `None` exactly when none does |
| Seqs.Filter | server/controllers/incidentController.js:127 | the kept elements are exactly the input's elements that satisfy the predicate |
| Seqs.FilterIsSubsequence | client/src/pages/Dashboard.jsx:173 | filtering keeps the elements in their original order |
| Seqs.FilterAll | server/controllers/incidentController.js:109-127 | filtering with a predicate every element satisfies keeps the sequence unchanged |
| Seqs.FilterSnoc | client/src/pages/Dashboard.jsx:96-99 | filtering a sequence extended by one element extends the result by that element when it passes |
| Seqs.FilterSame | client/src/pages/Dashboard.jsx:173-179 | predicates that agree on every element filter alike |
| Seqs.FilterMultiset | server/controllers/incidentController.js:127 | filtering keeps every passing element exactly as often as it occurs and drops every other one |
| Seqs.Count | server/controllers/incidentController.js:160-162 | `countDocuments`: the count is the number of positions whose element satisfies the predicate, and never exceeds the length |
| Seqs.CountFilter | server/controllers/incidentController.js:160-162 | the count equals the length of the filtered sequence |
| Seqs.CountDisjoint | server/controllers/incidentController.js:160-161 | two predicates that never hold together count at most the total between them |
| Seqs.GroupCount | server/controllers/incidentController.js:165 | `$group` with `$sum: 1`: distinct keys, positive counts, each count is the key's multiplicity, the keys are exactly those occurring, the counts sum to the input length |
| Seqs.GroupCountGrouping | server/controllers/incidentController.js:165 | the grouping is a faithful count of its keys |
| Seqs.BumpSpec | server/controllers/incidentController.js:165 | counting one more key keeps keys distinct and raises exactly that key's count and the total by one |
| Seqs.SortDesc | server/controllers/incidentController.js:129 | the result is sorted largest key first and is a permutation of the input |
| Seqs.SortDescMembers | server/controllers/incidentController.js:129 | sorting keeps the length and exactly the same members |
| Seqs.SortDescDistinct | server/controllers/incidentController.js:170 | sorting elements of distinct identity keeps them distinct |
| Seqs.SumSort | server/controllers/incidentController.js:170 | sorting a grouping keeps the sum of its counts |
| Seqs.SortGrouping | server/controllers/incidentController.js:170 | a sorted grouping is still a faithful count of the same keys |
| Validation.LeadingUpper | server/controllers/authController.js:10 | the length of the leading run of capitals: every letter before it is a capital, the next character is not |
| Validation.EmployeeIdPattern | server/controllers/authController.js:10 | the greedy check accepts exactly the strings of 2 to 5 capitals followed by 3 to 6 digits |
| Validation.EmailLowerCase | server/controllers/authController.js:157 | lower-casing a valid e-mail address keeps it valid |
| Validation.EmailCharsLowerCase | server/controllers/authController.js:6 | lower-casing keeps a run free of white space and '@' free of them |
| Validation.IsValidEmail | server/controllers/authController.js:6 | defines the e-mail pattern: a non-empty local part, one '@', a domain with a '.' that has a character on each side, and no white space |
| Validation.IsValidPhone | server/controllers/authController.js:8 | defines the phone pattern: ten digits, the first 6, 7, 8 or 9 |
| Validation.IsValidEmployeeId | server/controllers/authController.js:10 | defines the employee-id pattern as the greedy match: the run of capitals is 2 to 5 long and is followed by 3 to 6 digits only |
| Validation.IsStrongPassword | server/controllers/authController.js:12-15 | defines password strength: at least 8 characters, all letters, digits or `@$!%*?&`, with at least one lower-case letter, capital, digit and special character |
| Users.ParseRole | server/controllers/authController.js:91-95 | a role is found only for its own name, and nothing is found exactly when no role has that name |
| Users.ParseRoleName | server/controllers/authController.js:24 | parsing a role's name gives the role back |
| Registration.ValidateRegistration | server/controllers/authController.js:43-110 | a field is in the error map exactly when one of its rules fails, with the message of its first failing rule |
| Registration.NameError | server/controllers/authController.js:46-54 | the name's messages in source order: required, too short, too long, bad characters, measured on the trimmed name |
| Registration.EmployeeIdError | server/controllers/authController.js:57-62 | the employee id's messages in source order: required, then the format message for an id that fails the pattern once trimmed and upper-cased |
| Registration.EmailError | server/controllers/authController.js:65-71 | the e-mail's messages in source order: required, invalid, longer than 100 characters, on the trimmed address |
| Registration.PasswordError | server/controllers/authController.js:74-81 | the password's messages in source order: required, shorter than 8, not strong, on the untrimmed password |
| Registration.ConfirmPasswordError | server/controllers/authController.js:84-88 | the confirmation's messages: required when falsy, otherwise a mismatch with the raw password |
| Registration.RoleError | server/controllers/authController.js:91-95 | the role's messages: required, then not one of the two names |
| Registration.HighwayError | server/controllers/authController.js:98-102 | the highway's messages: required, then not among the 22 listed once trimmed |
| Registration.PhoneError | server/controllers/authController.js:105-110 | the phone's messages: required, then not a valid number once trimmed |
| Registration.RegFieldError | server/controllers/authController.js:45-110 | the message of one field is that field's own check, reading only the fields that check reads |
| Registration.NameErrorNone | server/controllers/authController.js:46-54 | no name message exactly when the trimmed name has 3 to 50 characters, all letters or white space |
| Registration.EmployeeIdErrorNone | server/controllers/authController.js:57-62 | no employee-id message exactly when the trimmed, upper-cased id matches the pattern |
| Registration.EmailErrorNone | server/controllers/authController.js:65-71 | no e-mail message exactly when the trimmed address is valid and at most 100 characters |
| Registration.PasswordErrorNone | server/controllers/authController.js:74-81 | no password message exactly when the untrimmed password is strong |
| Registration.ConfirmPasswordErrorNone | server/controllers/authController.js:84-88 | no confirmation message exactly when the confirmation is truthy and equals the password |
| Registration.RoleErrorNone | server/controllers/authController.js:91-95 | no role message exactly when the untrimmed role is "staff" or "admin" |
| Registration.HighwayErrorNone | server/controllers/authController.js:98-102 | no highway message exactly when the trimmed highway is one of the 22 listed |
| Registration.PhoneErrorNone | server/controllers/authController.js:105-110 | no phone message exactly when the trimmed number is 10 digits starting with 6 to 9 |
| Registration.FieldErrorNone | server/controllers/authController.js:45-110 | a field has no message exactly when all of its rules hold |
| Registration.AcceptableFields | server/controllers/authController.js:43-110 | a registration is acceptable exactly when every field's rules hold |
| Registration.RegistrationAccepted | server/controllers/authController.js:113-119 | the error map is empty exactly when every rule of every field holds |
| Registration.ValidIdNotBlank | server/controllers/authController.js:57-62 | an id that passes the format check is not blank, so the "required" message and a passing format check never meet |
| Registration.NewUser | server/controllers/authController.js:154-162 | the record `User.create` receives: employee id trimmed and upper-cased, e-mail trimmed and lower-cased, name, highway and phone trimmed, password and role as given, active, created now |
| Registration.NewUserWellFormed | server/controllers/authController.js:154-162 | the stored record of an accepted registration is active and meets every rule in its normalised form |
| Registration.EmailKept | server/controllers/authController.js:157 | the stored e-mail is valid, at most 100 characters, and already lower-case |
| Registration.ValidateLogin | server/controllers/authController.js:196-207 | the login error map holds exactly the failing employee-id and password checks, with their messages |
| Registration.LoginAccepted | server/controllers/authController.js:209-215 | login has no field error exactly when the employee id is well formed and a password is given |
| UserDirectory.Taken | server/controllers/authController.js:122-151 | `findOne` on a key finds something exactly when some stored user holds that value |
| UserDirectory.IndexOfUser | server/controllers/adminController.js:70 | the position of the user with that id; `None` exactly when no user has it |
| UserDirectory.ToggleActive | server/controllers/adminController.js:75 | flips the flag of that one user and changes nothing else |
| UserDirectory.ToggleTwice | server/controllers/adminController.js:75 | toggling the same user twice restores the collection |
| UserDirectory.WelcomeMessage | server/controllers/authController.js:166 | "Admin" for the role name "admin" and "Staff" for any other, then the welcome with the stored name |
| UserDirectory.LoginMessage | server/controllers/authController.js:246 | the welcome-back message with the stored name |
| UserDirectory.ToggleMessage | server/controllers/adminController.js:80 | "activated" or "deactivated" after the new value of the flag |
| UserDirectory.AppendUnique | server/controllers/authController.js:121-162 | storing a user whose employee id, e-mail and phone are all new keeps every key unique |
| UserDirectory.Directory.constructor | server/controllers/authController.js:1 | the User collection starts empty, and an empty directory satisfies the uniqueness invariant |
| UserDirectory.Directory.UserByEmployeeId | server/controllers/authController.js:218 | a found user holds that employee id; `None` exactly when no user does |
| UserDirectory.Directory.AllUsers | server/controllers/adminController.js:58 | every user without the password, newest first, as a permutation of the collection |
| UserDirectory.Directory.Register | server/controllers/authController.js:43-177 | rejected with every field's message exactly when a rule fails; else the first duplicate among employee id, e-mail and phone; else the normalised user is appended under the next id and welcomed; the collection stays unique |
| UserDirectory.Directory.Admit | server/controllers/authController.js:121-177 | the duplicate checks in source order, then the append and the welcome message |
| UserDirectory.Directory.Login | server/controllers/authController.js:192-257 | field errors first; an unknown id and a wrong password give the same 401; a deactivated account gets its own 401 before the password is checked; success only for an active holder of the id with a matching password |
| UserDirectory.Directory.ToggleUserStatus | server/controllers/adminController.js:68-86 | 404 exactly when no user has the id; otherwise only that user's flag flips and the new value is reported with its message |
| IncidentSchema.AllTypesListed | server/models/Incident.js:12 | the list of types holds every type |
| IncidentSchema.ParseType | server/controllers/incidentController.js:18 | a type is found only for its own name, and nothing is found exactly when no type has that name |
| IncidentSchema.ParseTypeName | server/models/Incident.js:10-14 | parsing a type's name gives the type back |
| IncidentSchema.AllSeveritiesListed | server/models/Incident.js:17 | the list of severities holds every severity |
| IncidentSchema.ParseSeverity | server/controllers/incidentController.js:25 | a severity is found only for its own name, and nothing is found exactly when no severity has that name |
| IncidentSchema.ParseSeverityName | server/models/Incident.js:15-19 | parsing a severity's name gives the severity back |
| IncidentSchema.AllStatusesListed | server/models/Incident.js:56 | the list of statuses holds every status |
| IncidentSchema.ParseStatus | server/models/Incident.js:54-58 | a status is found only for its own name, and nothing is found exactly when no status has that name |
| IncidentSchema.ParseStatusName | server/models/Incident.js:54-58 | parsing a status's name gives the status back |
| IncidentSchema.OrDefault | server/models/Incident.js:44-53 | a given value is kept; a missing one takes the default |
| IncidentSchema.NewIncident | server/models/Incident.js:44-72 | a new record: landmark and photo default to "", status Pending, team and notes "", no resolution time, creation time stamped |
| IncidentReports.ValidateReport | server/controllers/incidentController.js:13-59 | a field is in the error map exactly when one of its rules fails, with the message of its first failing rule |
| IncidentReports.TypeError | server/controllers/incidentController.js:16-20 | the type's messages: required, then not one of the seven names as given |
| IncidentReports.SeverityError | server/controllers/incidentController.js:23-27 | the severity's messages: required, then not one of the four names as given |
| IncidentReports.DescriptionError | server/controllers/incidentController.js:30-36 | the description's messages in source order: required, shorter than 10, longer than 500, on the trimmed text |
| IncidentReports.LatError | server/controllers/incidentController.js:39-43 | the latitude's messages: required when missing, invalid when not a number or outside -90 to 90 |
| IncidentReports.LngError | server/controllers/incidentController.js:45-49 | the longitude's messages: required when missing, invalid when not a number or outside -180 to 180 |
| IncidentReports.HighwayError | server/controllers/incidentController.js:51-53 | the highway is only required, not checked against a list |
| IncidentReports.KmError | server/controllers/incidentController.js:55-59 | the kilometre mark's messages: required when missing, invalid when not a number or negative |
| IncidentReports.ReportFieldError | server/controllers/incidentController.js:15-59 | the message of one field is that field's own check |
| IncidentReports.TypeErrorNone | server/controllers/incidentController.js:16-20 | no type message exactly when the untrimmed type is one of the seven names |
| IncidentReports.SeverityErrorNone | server/controllers/incidentController.js:23-27 | no severity message exactly when the untrimmed severity is one of the four names |
| IncidentReports.NamedNotBlank | server/controllers/incidentController.js:16 | a field holding a type or severity name is not blank |
| IncidentReports.DescriptionErrorNone | server/controllers/incidentController.js:30-36 | no description message exactly when the trimmed description has 10 to 500 characters |
| IncidentReports.ReportFieldErrorNone | server/controllers/incidentController.js:15-59 | a field has no message exactly when all of its rules hold, latitude, longitude, highway and kilometre mark included |
| IncidentReports.ReportAccepted | server/controllers/incidentController.js:62-68 | the error map is empty exactly when every rule of every field holds |
| IncidentReports.NamesTrimmed | server/controllers/incidentController.js:73-74 | no type or severity name has white space at either end |
| IncidentReports.BuildIncident | server/controllers/incidentController.js:71-84 | the created record has the caller as reporter, the trimmed landmark or "", the photo location or "", status Pending and no resolution time |
| IncidentReports.BuildIncidentWellFormed | server/controllers/incidentController.js:71-84 | the created record meets every report rule in its stored, trimmed form |
| IncidentReports.StoredDescription | server/controllers/incidentController.js:75 | the stored description is trimmed and 10 to 500 characters long |
| IncidentReports.StoredHighway | server/controllers/incidentController.js:79 | the stored highway is trimmed and not empty |
| IncidentReports.StoredPlace | server/controllers/incidentController.js:77-80 | the stored coordinates and kilometre mark lie in the accepted ranges |
| IncidentReports.BuildIncidentNames | server/controllers/incidentController.js:73-74 | the stored type and severity are the submitted ones trimmed |
| IncidentStore.ApplyUpdate | server/controllers/adminController.js:16-25 | the save fails exactly when a truthy status names no status of the enumeration |
| IncidentStore.UpdateFrame | server/controllers/adminController.js:16-23 | an update changes no field but status, team, notes and resolution time; the reporter stays |
| IncidentStore.UpdateOverwrites | server/controllers/adminController.js:16-18 | a truthy status, team or note is stored; an absent or empty one leaves the stored value, so a set team or note is never cleared |
| IncidentStore.UpdateStampsOnce | server/controllers/adminController.js:21-23 | the resolution time changes exactly when the request says "Resolved" and none is stored; it then becomes now; a stored one is never changed; a resolved record stays stamped |
| IncidentStore.UpdateKeepsWellFormed | server/controllers/adminController.js:16-25 | an update keeps a record that meets the report rules meeting them |
| IncidentStore.ApplyAllSettled | server/controllers/adminController.js:16-25 | over any series of updates the id, the reporter, the creation time and a stored resolution time stay, and a resolved record stays stamped |
| IncidentStore.Edit | server/controllers/adminController.js:16-25 | the field-by-field assignments produce exactly what `ApplyUpdate` specifies |
| IncidentStore.IndexOfIncident | server/controllers/adminController.js:11 | the position of the incident with that id; `None` exactly when no incident has it |
| IncidentStore.RemoveAt | server/controllers/adminController.js:43 | removing one record leaves one fewer, all of them from the input |
| IncidentStore.RemoveAtGone | server/controllers/adminController.js:43 | removing the record with an id keeps the store invariant, leaves no record with that id, and keeps every other record |
| IncidentStore.Store.constructor | server/models/Incident.js:79 | the Incident collection starts empty, and an empty store satisfies the store invariant |
| IncidentStore.Store.Report | server/controllers/incidentController.js:9-92 | rejected with every field's message exactly when a rule fails, nothing stored; otherwise the built pending record is appended under the next id |
| IncidentStore.Store.Record | server/controllers/incidentController.js:71-84 | appending a new pending record under the next id keeps the store invariant |
| IncidentStore.Store.GetById | server/controllers/incidentController.js:140-148 | a found record has that id; `None` (404) exactly when no record has it |
| IncidentStore.Store.Update | server/controllers/adminController.js:7-32 | 404 exactly when no record has the id; a failed save changes nothing; otherwise the record is replaced in place by `ApplyUpdate`'s result; the store invariant is kept |
| IncidentStore.Store.Delete | server/controllers/adminController.js:41-47 | 404 exactly when no record has the id; afterwards no record has it and every other record remains |
| IncidentStore.DeleteTwice | server/controllers/adminController.js:41-47 | a second delete of the same id finds nothing |
| Queries.GetIncidents | server/controllers/incidentController.js:105-131 | the result holds exactly the in-scope records that match every truthy filter and the inclusive date bounds, newest first, as a permutation of the matching records |
| Queries.InScope | server/controllers/incidentController.js:112-114 | a staff caller's scope is the incidents they reported; an admin's is every incident |
| Queries.FieldMatches | server/controllers/incidentController.js:116-119 | a falsy filter matches anything; a truthy one matches its exact value |
| Queries.InRange | server/controllers/incidentController.js:121-125 | the creation time is at or after a given start and at or before a given end |
| Queries.Matches | server/controllers/incidentController.js:109-125 | the whole filter: in scope, every truthy field filter met, creation time in range |
| Queries.StaffSeesOwn | server/controllers/incidentController.js:112-114 | a staff caller gets back only incidents they reported |
| Queries.AdminSeesAll | server/controllers/incidentController.js:109-129 | an admin with no filter gets every incident, each as often as it is stored |
| Queries.StatusFilterNarrows | server/controllers/incidentController.js:116 | adding a status filter keeps exactly the earlier results that have that status |
| Stats.TypeCounts | server/controllers/incidentController.js:164-166 | `byType` counts every type that occurs, each by its number of incidents, summing to the total |
| Stats.HighwayCounts | server/controllers/incidentController.js:168-171 | `byHighway` counts every highway that occurs, sums to the total, largest count first |
| Stats.RecentDays | server/controllers/incidentController.js:174 | the days of exactly the incidents created in the last seven days |
| Stats.DayOf | server/controllers/incidentController.js:175 | the day of a time is its whole-day quotient |
| Stats.Recent | server/controllers/incidentController.js:174 | created at or after seven days before now |
| Stats.DailyCounts | server/controllers/incidentController.js:173-177 | `last7Days` counts each day of a recent incident by its number of recent incidents, days in strictly increasing order |
| Stats.IncreasingDays | server/controllers/incidentController.js:176 | sorted earliest first with no day twice means strictly increasing |
| Stats.DailyCountsRecent | server/controllers/incidentController.js:174-175 | every day listed in `last7Days` is the day of an incident created in the last seven days |
| Stats.GetStats | server/controllers/incidentController.js:157-182 | the total is the number of incidents; the pending, resolved and critical counts are the numbers of positions holding a pending, a resolved and a critical incident; `byType` and `byHighway` sum to the total; `byHighway` is sorted largest count first; `last7Days` is strictly increasing by day |
| Stats.PendingAndResolved | server/controllers/incidentController.js:160-161 | pending and resolved together never exceed the total |
| AuthGate.BearerToken | server/middleware/authMiddleware.js:8-10 | "Bearer " followed by a non-empty run without spaces, then nothing or a space, yields that run as the token |
| AuthGate.ExtractedToken | server/middleware/authMiddleware.js:8-10 | an extracted token comes from a header starting with "Bearer" and is a non-empty run without spaces |
| AuthGate.ExtractToken | server/middleware/authMiddleware.js:8-10 | the second space-separated piece of a truthy header starting with "Bearer", when it exists and is not empty |
| AuthGate.Protect | server/middleware/authMiddleware.js:5-28 | no token gives 401 "no token"; a failing verification gives 401 "invalid"; a request goes on exactly when the token verifies and names an existing, active user, whose password-free record is attached; any other refusal is 401 "not found or deactivated" |
| AuthGate.OnlyHolder | server/middleware/authMiddleware.js:18 | with distinct ids, the user at a position is the only one holding its id |
| AuthGate.AdminOnly | server/middleware/authMiddleware.js:31-37 | the request goes on exactly when an admin is attached; otherwise 403 |
| AuthGate.AdminGate | server/routes/adminRoutes.js:12 | behind `protect` and `adminOnly`, the handler runs exactly when the token verifies for an existing, active admin; the answer is 403 exactly when it verifies for an existing, active staff member; every other request gets `protect`'s 401 |
| ClientRoutes.Landing | client/src/App.jsx:30 | an admin lands on the dashboard and a staff member on the report page |
| ClientRoutes.Guard | client/src/App.jsx:15-21 | a protected route shows only the page it wraps |
| ClientRoutes.PublicPage | client/src/App.jsx:30-34 | a public page is shown to a visitor; a signed-in user is sent to their landing page |
| ClientRoutes.Route | client/src/App.jsx:28-43 | the route table: three public pages, the report page for any signed-in user, dashboard and map for admins, and home for any other path |
| ClientRoutes.GuardDecision | client/src/App.jsx:15-21 | nothing while loading, the login page for a visitor, and the page exactly for a signed-in user who meets the admin requirement |
| ClientRoutes.RouteShowsAllowed | client/src/App.jsx:30-39 | a public page is shown only to a visitor, the report page only to a signed-in user, the dashboard and map only to an admin |
| ClientRoutes.UnknownPath | client/src/App.jsx:42 | any path outside the table redirects home |
| ClientRoutes.RoutesSettle | client/src/App.jsx:28-43 | once loading is over every path shows a page within two redirects; an admin lands on the dashboard (unless on /report or /map), a staff member on the report page |
| ClientRoutes.LandingSettles | client/src/App.jsx:30-38 | from home, login and the landing pages a signed-in user settles within one redirect on their landing page |
| DashboardView.Filtered | client/src/pages/Dashboard.jsx:173-179 | the rows kept are exactly those with a field containing the search text, ignoring case, in their original order |
| DashboardView.FieldHas | client/src/pages/Dashboard.jsx:175-178 | a present field contains the search text once both are lower-cased |
| DashboardView.Shown | client/src/pages/Dashboard.jsx:173-179 | a row is shown when any of its four searched fields contains the search text |
| DashboardView.ShownIff | client/src/pages/Dashboard.jsx:174-178 | a row is shown exactly when the lower-cased search text occurs at some position of one of its present, lower-cased fields |
| DashboardView.SearchIgnoresCase | client/src/pages/Dashboard.jsx:175-178 | lower- or upper-casing the search text keeps exactly the same rows |
| DashboardView.EmptySearch | client/src/pages/Dashboard.jsx:173-179 | an empty search keeps exactly the rows with some field present |
| DashboardView.BuildParams | client/src/pages/Dashboard.jsx:96-99 | the parameters are the drop-downs with a value, in the order status, type, severity |
| DashboardView.ParamsExactly | client/src/pages/Dashboard.jsx:96-99 | each drop-down with a value appears once, and no empty one does |

## Left out

- I/O, the HTTP layer and JSON bodies are not modelled. Every request is a typed input and every answer an outcome datatype. Response fields that only echo the record are not modelled either.
- The try/catch blocks that turn any thrown error into a 500 are not modelled, and neither are their messages. The one thrown error modelled is the enumeration check at `save`, as `UpdateFailed`.
- `populate` is not modelled: the reporter's profile joined into incident answers.
- JWT signing and verification are not modelled. `jwt.verify` is a parameter mapping a token to a user id or `None`, and the token in login and registration answers is dropped.
- Password hashing and `matchPassword` are not modelled. The login takes whether the password matches as an input. The User schema file is not part of this model.
- The photo upload to Cloudinary is not modelled. The report takes the uploaded file's location, if any, as an input.
- Number parsing is not modelled (`parseFloat`, `isNaN`, and the falsiness of a JSON numeric 0 in `!lat`, `!lng`, `!km`). A numeric field arrives already classified as missing, not a number, or a real.
- Date handling is not modelled: parsing `startDate`/`endDate` into times, `Date.now()`, and the `%Y-%m-%d` string of `$dateToString`. Times are millisecond integers and a day is the whole-day quotient of a UTC time, which orders days as the string does.
- String length is counted in characters, not UTF-16 code units. Case mapping covers ASCII letters only.
- Request fields of a non-string JSON type (numbers, arrays, objects) are not modelled.
- The database's order between records of equal sort key is not modelled, and neither is the order of `$group`'s output. The model fixes one order where the database promises none.
- `updatedAt` and the schema indexes are not modelled.
- MongoDB ObjectIds are not modelled: ids are natural numbers from a counter.
- `getIncidentById` lets any authenticated caller read any incident, as the code does; there is no staff scoping.
- The register and report validation are each a sequence of independent per-field blocks. They are modelled as one loop over the fields in source order, each step running that field's block.
- `WellFormedUser` and `WellFormedIncident` are proved of each newly created record and kept by updates. They are not part of the `Directory`/`Store` class invariants, which keep only id, key uniqueness and resolution stamping.
- React state, rendering, toasts and localStorage are not modelled. The signed-in user is represented by their role, and the dashboard rows by the four fields the search reads.
- The dashboard's calls to the server (`updateStatus`, `saveModal`, `deleteIncident`) are not modelled separately. They call the endpoints modelled by `Store.Update` and `Store.Delete`.
- `getMe` is not modelled: it only echoes the user `protect` attached.
- ClientRoutes.Route: react-router's path matching is not modelled. The router ignores case and tolerates a trailing slash, so "/Dashboard" and "/dashboard/" reach the dashboard route. The model matches a path only when it is spelled exactly as in the table.
- ClientRoutes.UnknownPath: holds only for that exact matching. In the program a path that differs from a table entry only in case or a trailing slash is not sent home.
- DashboardView.SearchIgnoresCase: holds for the model's ASCII case mapping only. In the program it fails for letters whose JavaScript case mapping changes length or does not round-trip: "ß" upper-cases to "SS" and "ı" to "I".
- Text.ToLowerOfUpper: holds for ASCII case mapping only, for the same reason. In JavaScript, lower-casing the upper-cased "ß" gives "ss" and lower-casing the upper-cased "ı" gives "i".
- Registration.NewUser: stores every new account as active. This assumes the User schema's default for `isActive` is true, because `register` does not set it and the User schema file is not part of this model.
- UserDirectory.Directory.AllUsers: sorts by `createdAt`. This assumes the User schema has timestamps enabled, because the User schema file is not part of this model.
