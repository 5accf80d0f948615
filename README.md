# Digital Shadow Verify Vault — a verified model of its core

Digital Shadow Verify Vault is a document-verification application. A React client keeps
its demo data in the browser's `localStorage`. A FastAPI back end stores users, documents
and verification records in three tables. This project models, in Dafny, the logic that
sits underneath both.

**Client.**
- The stored document list: a seeded first load, a case-insensitive search, and lookup by id.
- The verification history: fifteen generated entries, a status filter, and a stable date
  sort in a direction the user can toggle.
- Two upload flows, each with its own file-acceptance rule: PDF-only up to 5 MiB, and
  PDF-or-image up to 10 MiB. Each appends one pending record to the stored list.
- The form schemas (minimum lengths and password confirmation), the e-mail-prefix user
  name used at signup, the relative-time label on the dashboard, the dashboard's login gate,
  logout, and the profile merge.

**Server.**
- The file service: the extension and size rule, the save path, and the unit a size is
  shown in.
- The routes for registration, login and token refresh.
- Profile update (uniqueness checks and partial update), password change and account
  deactivation.
- Document upload, list, get, delete and hash verification, each scoped to the owner.
- Verification history (newest first and paged, with a full count), per-document history,
  blockchain verification and the per-user statistics.

**How the model is built.**
- `localStorage` is a map from keys to typed values. JSON text is not modelled.
- Timestamps are integer milliseconds. `Date.now()`, the `Math.random()` draws, password
  hashing and checking, token creation, MD5, SHA-256, IPFS and the blockchain are all
  parameters of the operations that use them.
- Views whose state updates in place are classes with `modifies` clauses. Each `setTimeout`
  callback is a separate method that receives what the callback captured.
- Route handlers are methods on a `Db` object that holds the three tables and their id
  counters. Its invariant `Valid()` says that e-mail addresses, user names, user ids and
  document ids are unique, and that every id lies below its counter. Each handler states
  how every counter moves: up by one for each row it writes, and not at all otherwise.
- The current user is an index into the users table. The caller must guarantee that this
  user exists and is active, as the authentication dependency does.
- Read-only queries are functions over the tables.

Each file is one module, and each module follows one source file. `common.dfy` holds the
shared helpers:
- `Filter`, modelling `Array.prototype.filter`;
- `SortByKey`, a stable sort, since `Array.prototype.sort` has been stable since ECMAScript 2019;
- ASCII lower-casing, substring search and decimal rendering.

## Model

| member | source | states |
|---|---|---|
| DocumentsPage.TypeName | src/pages/dashboard/Documents.tsx:45-53 | The four codes map to their display names; any other code is returned unchanged, and a name differs from its code exactly for the four known codes |
| Storage.AppendDocument | src/pages/dashboard/upload/useDocumentUpload.ts:49-50 | The stored list becomes the old list (empty when absent) followed by the record, and every other key keeps its value; the same read-append-write is at src/pages/dashboard/UploadDocument.tsx:110-112 |
| Storage.AppendAllOrder | src/pages/dashboard/upload/useDocumentUpload.ts:49-50 | After any series of appends the list is the earlier list followed by the records in call order, each exactly as supplied, and other keys are untouched |
| DocumentsPage.LoadDocuments | src/pages/dashboard/Documents.tsx:64-92 | The list shown is the list stored afterwards; keys other than `documents` are untouched; the `documents` key is present after the load |
| DocumentsPage.SeedDocuments | src/pages/dashboard/Documents.tsx:70-89 | Two records with different ids: a verified one, then a pending one uploaded earlier, both before now |
| DocumentsPage.SeedWhenAbsent | src/pages/dashboard/Documents.tsx:70-92 | With the key absent exactly doc-1 (pan, verified, ABCDE1234F, now−7 days) and doc-2 (aadhar, pending, 1234 5678 9012, now−14 days) are stored and shown, so the seed is newest first |
| DocumentsPage.LoadReadsStoredList | src/pages/dashboard/Documents.tsx:66-67 | With the key present the stored list is shown and the store is returned unchanged |
| DocumentsPage.LoadIdempotent | src/pages/dashboard/Documents.tsx:64-92 | A second load at any later time neither reseeds nor duplicates |
| DocumentsPage.Search | src/pages/dashboard/Documents.tsx:112-116 | The result is an order-preserving sublist of the documents. Every kept record matches, and every matching record is kept as often as it occurs, so duplicates are neither dropped nor added |
| DocumentsPage.Matches | src/pages/dashboard/Documents.tsx:113-115 | The empty term matches every record, and a term equal to the document number or the file name up to ASCII case matches |
| DocumentsPage.EmptyTermShowsAll | src/pages/dashboard/Documents.tsx:112-116 | The empty search term shows every record in order |
| DocumentsPage.SearchIgnoresTermCase | src/pages/dashboard/Documents.tsx:112-116 | Searching with the lower-cased term gives the same list as the term itself |
| DocumentsPage.DocumentsView.constructor | src/pages/dashboard/Documents.tsx:56-58 | The list starts empty, the search term is "" and loading is on |
| DocumentsPage.DocumentsView.FetchDocuments | src/pages/dashboard/Documents.tsx:62-96 | The view's list and the store afterwards are those of `LoadDocuments`; loading ends false; the search term is kept |
| DocumentsPage.DocumentsView.SetSearchTerm | src/pages/dashboard/Documents.tsx:112-116 | Changing the term leaves the documents as they were |
| DocumentDetailPage.FindById | src/pages/dashboard/DocumentDetail.tsx:66-67 | None exactly when no record has the id; otherwise the first record with it |
| DocumentDetailPage.MockVerification | src/pages/dashboard/DocumentDetail.tsx:73-81 | Network "Ethereum Mainnet", verifier "Digital Shadow Authority", ids that start with "0x" and are at most 12 and 66 characters long, and the given timestamp |
| DocumentDetailPage.DocumentDetailView.constructor | src/pages/dashboard/DocumentDetail.tsx:53-55 | No document and no verification data yet, and loading is on |
| DocumentDetailPage.DocumentDetailView.FetchDocument | src/pages/dashboard/DocumentDetail.tsx:55-85 | Without a route id nothing changes, and loading keeps its initial value. Otherwise loading ends false. A found record replaces the document, and verification data is made only when the record is verified. A miss keeps both fields. The store is only read |
| DocumentDetailPage.EndToEndScenario | src/pages/dashboard/DocumentDetail.tsx:63-83 | After seeding and one append, the appended record is found by its id and an unknown id is not found |
| DocumentDetailPage.MissIsNotFound | src/pages/dashboard/DocumentDetail.tsx:65-83 | An absent list, or no record with the id, gives no document and no error |
| HistoryPage.Pick | src/pages/dashboard/VerificationHistory.tsx:35-38 | `Math.floor(Math.random() * n)` lies in [0, n) |
| HistoryPage.GenerateMockHistory | src/pages/dashboard/VerificationHistory.tsx:28-54 | The loop's pushes followed by the sort give exactly `Generated`. Each iteration reads its own clock, as `new Date()` does inside the loop |
| HistoryPage.MakeEntry | src/pages/dashboard/VerificationHistory.tsx:35-46 | Entry i has id hist-(i+1) and document doc-(i+1), a known type, one of the three statuses, a date 0–59 whole days before that iteration's clock reading, and a name of the form `<TypeName>_<n>.pdf` with n < 10000 |
| HistoryPage.Generated | src/pages/dashboard/VerificationHistory.tsx:51-53 | Fifteen entries: a permutation of the fifteen pushed entries, each one of them, sorted newest first |
| HistoryPage.GeneratedWellFormed | src/pages/dashboard/VerificationHistory.tsx:29-46 | When every iteration read its clock in [lo, hi], every entry is well formed for that window, and its date lies in [lo − 59 days, hi] |
| HistoryPage.WidenWindow | src/pages/dashboard/VerificationHistory.tsx:36-37 | An entry well formed for a clock window stays well formed for any wider window |
| HistoryPage.WindowBoundsDate | src/pages/dashboard/VerificationHistory.tsx:36-37 | An entry well formed for [lo, hi] is dated between 59 days before lo and hi |
| HistoryPage.GeneratedIdsPresent | src/pages/dashboard/VerificationHistory.tsx:41-42 | Every id hist-1..hist-15 occurs in the generated history |
| HistoryPage.GeneratedIdsDistinct | src/pages/dashboard/VerificationHistory.tsx:41 | The fifteen ids are pairwise distinct |
| HistoryPage.Toggle | src/pages/dashboard/VerificationHistory.tsx:144-146 | Toggling always changes the direction |
| HistoryPage.ToggleTwice | src/pages/dashboard/VerificationHistory.tsx:144-146 | Toggling twice restores the direction |
| HistoryPage.FilterHistory | src/pages/dashboard/VerificationHistory.tsx:135-136 | "all" keeps every entry. A status keeps exactly the entries with it, in order, each as often as it is stored, and drops every other entry. Never more entries than stored |
| HistoryPage.Displayed | src/pages/dashboard/VerificationHistory.tsx:135-141 | The shown list is a permutation of the filtered entries, in date order for the chosen direction; entries with equal dates keep their stored order |
| HistoryPage.FilterSortScenario | src/pages/dashboard/VerificationHistory.tsx:135-141 | Verified, rejected, verified at increasing dates: the verified filter, newest first, shows the third entry and then the first |
| HistoryPage.LoadHistory | src/pages/dashboard/VerificationHistory.tsx:105-114 | A stored history is used as it is, and the store is unchanged. Otherwise the generated history is stored and shown, and exactly the history key is added. Other keys keep their values |
| HistoryPage.LoadHistoryIdempotent | src/pages/dashboard/VerificationHistory.tsx:105-114 | Later loads, with any draws, never regenerate |
| Common.SortByKeyCorrect | src/pages/dashboard/VerificationHistory.tsx:137-141 | The stable sort that `Array.prototype.sort` performs: a permutation, ordered by the key, with equal keys in their original relative order |
| Common.FilterMultiplicity | src/pages/dashboard/VerificationHistory.tsx:135-136 | `Array.prototype.filter` keeps each element satisfying the test exactly as often as it occurs, and no other |
| HistoryPage.HistoryView.constructor | src/pages/dashboard/VerificationHistory.tsx:93-96 | The history starts empty, loading is on, the filter is "all" and the direction "desc" |
| HistoryPage.HistoryView.FetchHistory | src/pages/dashboard/VerificationHistory.tsx:101-117 | The view's history and the store afterwards are those of `LoadHistory`; the filter and direction are kept |
| HistoryPage.HistoryView.SetFilterStatus | src/pages/dashboard/VerificationHistory.tsx:135-136 | Only the filter changes |
| HistoryPage.HistoryView.ToggleSortDirection | src/pages/dashboard/VerificationHistory.tsx:144-146 | Only the direction changes, to its toggle |
| UploadForm.ValidateUpload | src/pages/dashboard/upload/DocumentForm.tsx:9-15 | Valid exactly when documentId and issueDate are non-empty. documentType never gets an issue. An issue is raised for documentId, and one for issueDate, exactly when that field is empty. There are at most two issues. The schema at src/pages/dashboard/UploadDocument.tsx:15-21 is the same |
| UploadForm.ValidationIsMinimal | src/pages/dashboard/upload/DocumentForm.tsx:10-14 | An empty documentType, a whitespace-only documentId and a non-date issueDate all pass |
| UploadForm.DefaultsFailTwice | src/pages/dashboard/upload/DocumentForm.tsx:13-14 | All-empty defaults give the two required-field issues, in schema order |
| UploadDocumentPage.CheckPdfFile | src/pages/dashboard/UploadDocument.tsx:69-81 | Accepted exactly for type "application/pdf" and at most 5 MiB. The type check comes first, and each refusal carries its message |
| UploadDocumentPage.PdfLimitBoundary | src/pages/dashboard/UploadDocument.tsx:70-78 | Exactly 5 MiB passes, one byte more fails, and "application/x-pdf" fails |
| UploadDocumentPage.SubmittedRecord | src/pages/dashboard/UploadDocument.tsx:99-107 | The record is pending, has id "doc-" + now and upload date now, and carries the form's type, document number and issue date and the file name, with no size or type |
| UploadDocumentPage.SubmitAppendsOne | src/pages/dashboard/UploadDocument.tsx:100-112 | One record is appended at the end, and earlier records are unchanged. An absent list counts as empty. The new record is pending, has id "doc-" + now, and carries the form fields and the file name, with no size or type |
| UploadDocumentPage.SameInstantSameId | src/pages/dashboard/UploadDocument.tsx:101 | Two submits in one millisecond store two records with the same id |
| UploadDocumentPage.UploadDocumentView.constructor | src/pages/dashboard/UploadDocument.tsx:27-28 | No file is selected and loading is off |
| UploadDocumentPage.UploadDocumentView.HandleFile | src/pages/dashboard/UploadDocument.tsx:69-81 | An accepted file replaces the selection; a refused one leaves it |
| UploadDocumentPage.UploadDocumentView.OnSubmit | src/pages/dashboard/UploadDocument.tsx:83-89 | Without a file nothing changes and loading is not set; otherwise loading starts and the selected file is handed to the timer |
| UploadDocumentPage.UploadDocumentView.FinishSubmit | src/pages/dashboard/UploadDocument.tsx:92-115 | Loading ends, the store becomes the one-record append, and the page navigates to /dashboard/documents |
| UploadContext.CheckUploadFile | src/pages/dashboard/upload/UploadContext.tsx:19-33 | Accepted exactly when the type contains "pdf" or "image/" as a substring and the size is at most 10 MiB. The type check comes first, and each refusal carries its message |
| UploadContext.UploadLimitBoundary | src/pages/dashboard/upload/UploadContext.tsx:26 | Exactly 10 MiB passes; one byte more fails |
| UploadContext.TypeTestIsSubstring | src/pages/dashboard/upload/UploadContext.tsx:21 | "text/x-pdf-notes" passes and "text" fails: a substring test, not equality |
| UploadContext.PdfCheckIsStricter | src/pages/dashboard/upload/UploadContext.tsx:19-33 | Whatever the PDF-only check accepts this one accepts; a 6 MiB PDF and a PNG separate the two |
| UploadContext.UploadProvider.constructor | src/pages/dashboard/upload/UploadContext.tsx:16-17 | No file is selected and loading is off |
| UploadContext.UploadProvider.HandleFile | src/pages/dashboard/upload/UploadContext.tsx:19-33 | An accepted file becomes the selection exactly; a refused one leaves it |
| UploadContext.UploadProvider.SetSelectedFile | src/pages/dashboard/upload/UploadContext.tsx:16 | The setter the provider exposes replaces the selection only |
| UploadContext.UploadProvider.SetIsLoading | src/pages/dashboard/upload/UploadContext.tsx:17 | The setter the provider exposes replaces the loading flag only |
| DocumentUpload.UploadedRecord | src/pages/dashboard/upload/useDocumentUpload.ts:37-47 | The record is the other upload flow's record with the file's size and type added |
| DocumentUpload.UploadAppendsOne | src/pages/dashboard/upload/useDocumentUpload.ts:36-50 | One pending record is appended at the end, and earlier records are kept. An absent list counts as empty. The record carries the file name, size and type and the three form fields |
| DocumentUpload.FlowsDifferInFileMetadata | src/pages/dashboard/upload/useDocumentUpload.ts:36-46 | This flow's record is the other flow's record plus file size and type |
| DocumentUpload.HandleUpload | src/pages/dashboard/upload/useDocumentUpload.ts:12-18 | Without a file nothing changes; otherwise loading starts |
| DocumentUpload.CompleteUpload | src/pages/dashboard/upload/useDocumentUpload.ts:31-59 | The store becomes the one-record append, loading ends, and the page navigates to /dashboard/documents |
| Dashboard.ElapsedSeconds | src/pages/dashboard/Dashboard.tsx:79 | The whole seconds elapsed, floored: 1000·s ≤ now − stamp < 1000·s + 1000, negatives included |
| Dashboard.UnitWord | src/pages/dashboard/Dashboard.tsx:81-101 | The unit's name, singular exactly when the count is 1 and the unit is not seconds; the seconds word is always plural |
| Dashboard.FormatRelativeTime | src/pages/dashboard/Dashboard.tsx:76-102 | For every pair of times, the label is the reference label for the elapsed seconds: "<e> seconds ago" below 60, else the count of the largest unit reached (minute, hour, day under 30, month) taken straight from the seconds, singular exactly at 1 |
| Dashboard.BreakdownLabel | src/pages/dashboard/Dashboard.tsx:85-101 | The cascaded count and unit, written with their word, give the reference label |
| Dashboard.FloorTwice | src/pages/dashboard/Dashboard.tsx:85-100 | Flooring twice equals flooring once by the product, so the cascaded units are exact |
| Dashboard.Breakdown | src/pages/dashboard/Dashboard.tsx:76-102 | Each unit is used exactly on its range, and its count is the floor of the elapsed seconds by that unit. Seconds cover everything below 60, negatives included. Every count other than seconds is at least 1, and months have no upper bound |
| Dashboard.LastSecondsLabel | src/pages/dashboard/Dashboard.tsx:81-83 | 59.999 s gives "59 seconds ago" |
| Dashboard.FirstOfEachUnitIsSingular | src/pages/dashboard/Dashboard.tsx:85-101 | For any pair of times exactly 1 minute, 1 hour, 1 day or 30 days apart, the label is singular: "1 minute ago", "1 hour ago", "1 day ago", "1 month ago" |
| Dashboard.TwoDaysLabel | src/pages/dashboard/Dashboard.tsx:95-97 | Two days gives "2 days ago" |
| Dashboard.FutureTimestamp | src/pages/dashboard/Dashboard.tsx:79-83 | For any timestamp 5 s or 1 ms ahead the label is "-5 seconds ago" or "-1 seconds ago": still plural |
| DashboardLayout.LoggedIn | src/layouts/DashboardLayout.tsx:15-28 | The gate passes only when a user is stored and carries an isLoggedIn field |
| DashboardLayout.IsLinkActive | src/layouts/DashboardLayout.tsx:39-41 | A link is active for its own path, and never for a path of another length |
| DashboardLayout.ApiClientUserIsLoggedOut | src/layouts/DashboardLayout.tsx:24-28 | The user object the API client stores (src/lib/api.ts:117-121) has no isLoggedIn, so the gate refuses it |
| DashboardLayout.GateFollowsTruthiness | src/layouts/DashboardLayout.tsx:25 | The gate follows JavaScript truthiness: true and "yes" pass; 0, "" and null do not |
| DashboardLayout.SubPathIsNotActive | src/layouts/DashboardLayout.tsx:39-41 | A strict sub-path highlights no link |
| DashboardLayout.LayoutView.constructor | src/layouts/DashboardLayout.tsx:13-14 | Not logged in and the mobile menu closed |
| DashboardLayout.LayoutView.CheckAuth | src/layouts/DashboardLayout.tsx:17-31 | Redirects to /auth/login exactly when there is no logged-in user, keeping isLoggedIn. Otherwise isLoggedIn becomes true |
| DashboardLayout.LayoutView.HandleLogout | src/layouts/DashboardLayout.tsx:33-37 | Only the user key is removed, and an access token stays. Navigation goes to / |
| DashboardLayout.FreshViewWithoutUser | src/layouts/DashboardLayout.tsx:17-31 | With no stored user a fresh layout redirects and renders nothing |
| ProfilePage.ValidateProfile | src/pages/dashboard/Profile.tsx:13-16 | Valid exactly when the name has at least 2 characters and the e-mail check passes |
| ProfilePage.ValidatePassword | src/pages/dashboard/Profile.tsx:18-25 | Valid exactly when the current password is non-empty and the new and confirm passwords have at least 8 characters and are equal. A mismatch is reported on confirmPassword, even when a length check also fails |
| ProfilePage.PasswordExamples | src/pages/dashboard/Profile.tsx:18-25 | A sample of accepted and refused forms with their exact issues |
| ProfilePage.FieldOrEmpty | src/pages/dashboard/Profile.tsx:63-66 | A stored string is used, and a falsy or missing field becomes "" |
| ProfilePage.MergeProfile | src/pages/dashboard/Profile.tsx:85-90 | Only name and email are overwritten; every other field is kept |
| ProfilePage.ProfileSubmitKeepsLogin | src/pages/dashboard/Profile.tsx:83-92 | A profile submit keeps a logged-in user logged in |
| ProfilePage.ProfileView.constructor | src/pages/dashboard/Profile.tsx:31-50 | No user data, loading on, neither updating flag raised, and both forms at their empty defaults |
| ProfilePage.ProfileView.FetchUserData | src/pages/dashboard/Profile.tsx:55-70 | A stored user fills the form, with missing fields as "". Without one nothing changes. Loading ends |
| ProfilePage.ProfileView.StartProfileSubmit | src/pages/dashboard/Profile.tsx:75-76 | Only the profile-updating flag is raised |
| ProfilePage.ProfileView.StartPasswordSubmit | src/pages/dashboard/Profile.tsx:101-102 | Only the password-updating flag is raised |
| ProfilePage.ProfileView.FinishProfileSubmit | src/pages/dashboard/Profile.tsx:79-98 | With a stored user, the stored user becomes the merge. Without one nothing is written. The profile-updating flag ends, and the loading and password-updating flags keep their values |
| ProfilePage.ProfileView.FinishPasswordSubmit | src/pages/dashboard/Profile.tsx:105-117 | Storage is not touched, and all three password fields are reset to "" |
| SignupPage.ValidateSignup | src/pages/auth/Signup.tsx:17-21 | Valid exactly when the name has at least 2 characters, the e-mail check passes and the password has at least 8 characters |
| SignupPage.EmailPrefix | src/pages/auth/Signup.tsx:45 | A prefix of the e-mail without '@' that stops at the first '@' (the whole string when there is none) |
| SignupPage.EmailPrefixOfAddress | src/pages/auth/Signup.tsx:45 | For local@domain the user name is local |
| SignupPage.RegistrationRequest | src/pages/auth/Signup.tsx:43-48 | E-mail and password are passed unchanged, full_name is the form name, and the user name is the e-mail prefix |
| SignupPage.SignupView.constructor | src/pages/auth/Signup.tsx:27 | Loading starts off |
| SignupPage.SignupView.OnSubmit | src/pages/auth/Signup.tsx:39-62 | The request is sent. Navigation to /dashboard happens exactly when no error is shown. An error response with a non-empty (truthy) message shows it, and one with an empty message navigates as a success. A thrown call shows the fixed message. Loading ends false on every path |
| FileService.IsValidFile | services/file_service.py:25-36 | Valid exactly when the size is at most MAX_FILE_SIZE (10 MiB, core/config.py:43) and the lower-cased pathlib suffix is in ALLOWED_EXTENSIONS (core/config.py:44-47) |
| FileService.LastIndexOf | services/file_service.py:32 | None exactly when the character is absent; otherwise a position holding it with none after it |
| FileService.BaseName | services/file_service.py:32 | A slash-free tail of the path: pathlib's final component |
| FileService.Suffix | services/file_service.py:32 | pathlib's suffix: empty or a '.' followed by a dot-free, slash-free tail of the name |
| FileService.UpperCaseExtensionAccepted | services/file_service.py:27-36 | "SCAN.PDF" is accepted at exactly 10 MiB; one byte more is refused |
| FileService.DotEdgeCasesRefused | services/file_service.py:32-34 | ".pdf" and "scan." have no suffix and are refused |
| FileService.SavedSuffixKeepsCase | services/file_service.py:44-47 | The saved path ends in the original-case suffix |
| FileService.UsersSaveApart | services/file_service.py:41-47 | Different users never share a save path |
| FileService.SavePath | services/file_service.py:41-47 | The saved path lies in the user's directory: it starts with the upload directory, "/", the user id and "/" |
| FileService.UploadDirectory.SaveFile | services/file_service.py:38-53 | The contents are written at `SavePath`; no other file changes |
| FileService.ResaveOverwrites | services/file_service.py:38-53 | Two saves of the same name by the same user go to one path, where only the second upload's contents remain, and no other file changes |
| FileService.UnitIndex | services/file_service.py:121-125 | The unit index is min(4, the largest k with size ≥ 1024^k) |
| FileService.NoUnitBeyondTerabytes | services/file_service.py:121-125 | Sizes of 1024^4 or more are in TB |
| FileService.UnitThresholds | services/file_service.py:121-125 | 1023 is in B, 1024 in KB, 1024² in MB |
| FileService.FormatFileSize | services/file_service.py:116-127 | 0 gives "0B". Otherwise the loop stops at `UnitIndex` with the size divided by 1024 to that power |
| Database.Page | api/routes/documents.py:145 | `offset(skip).limit(limit)`: the rows from skip, at most limit of them |
| Database.PageBounds | api/routes/verification.py:48 | A page is an order-preserving part of the result, no longer than the limit |
| Database.PagesTile | api/routes/documents.py:145 | Consecutive pages concatenate to the longer page |
| Database.FindOwned | api/routes/documents.py:157-160 | The first row whose id and owner both match, or None when there is none |
| Database.OwnedBy | api/routes/documents.py:143-144 | `filter(owner_id == current_user.id)`: every row kept is the user's, and every row of the user is kept as often as it occurs |
| Database.Without | api/routes/documents.py:196-197 | Deleting row k leaves one row fewer, the others in their order |
| Database.Db.AddDocument | api/routes/documents.py:90-92 | One document row is appended with the next id, and nothing else changes |
| Database.Db.AddVerification | api/routes/verification.py:118-128 | One row is appended with the next id, and nothing else changes |
| AuthRoutes.Register | api/routes/auth.py:54-90 | An e-mail or user name already in use gives 400 and adds nothing. Otherwise exactly one active, unverified user is added, with the hashed password and the next user id, which advances by one. Its bearer token is returned with its id, e-mail and user name. The other id counters are unchanged |
| AuthRoutes.FindByEmail | api/routes/auth.py:97 | The first user with the e-mail (no earlier user has it), or None exactly when there is none |
| AuthRoutes.Login | api/routes/auth.py:93-120 | An unknown e-mail and a wrong password give the same 401. An inactive user gets 400 only after the password verified. Otherwise the login returns that user's token |
| AuthRoutes.InactiveNeedsRightPassword | api/routes/auth.py:98-109 | An inactive account with a wrong password still gets the 401 |
| AuthRoutes.FindByEmailUnique | api/routes/auth.py:97 | With unique e-mail addresses the lookup by a user's e-mail finds that user |
| AuthRoutes.Refresh | api/routes/auth.py:129-140 | A bearer token made from the current user's id, returned with that user's id, e-mail and user name |
| AuthRoutes.RefreshMatchesLogin | api/routes/auth.py:129-140 | A successful login and a refresh by the same user create their tokens from the same subject, the user's id, and return the same id, e-mail and user name |
| UserRoutes.Applied | api/routes/users.py:73-78 | Given fields are assigned and absent ones kept |
| UserRoutes.AppliedIdempotent | api/routes/users.py:73-78 | Applying an update twice is applying it once |
| UserRoutes.UpdateProfile | api/routes/users.py:48-83 | Checked in source order: an e-mail in use by another user gives 400, then a user name in use gives 400, then a commit that would break a unique column gives 500. Each refusal leaves the table unchanged. Otherwise the row is updated and returned |
| UserRoutes.ChecksSufficeForTruthyValues | api/routes/users.py:56-80 | With non-empty values the two checks are all the unique columns need, so the update commits |
| UserRoutes.EmptyUsernameReachesConstraint | api/routes/users.py:64-78 | An empty user name skips its check and is still written, so it can reach the unique constraint |
| UserRoutes.UpdateUserProfile | api/routes/users.py:48-83 | The response and the new users table are those of `UpdateProfile`; the other tables are unchanged |
| UserRoutes.ChangePassword | api/routes/users.py:86-104 | A wrong current password gives 400 and leaves the users unchanged. Otherwise only the hash is replaced |
| UserRoutes.PasswordChangeThenLogin | api/routes/users.py:94-101 | After a change the new password logs in and the old one gets 401 |
| UserRoutes.DeleteAccount | api/routes/users.py:107-117 | Only is_active becomes false; the row stays and the user is no longer a current user |
| UserRoutes.DeactivatedCannotLogIn | api/routes/users.py:114 | After deactivation the right password gets 400 "Inactive user" and a wrong one 401 |
| DocumentRoutes.UploadStatus | api/routes/documents.py:113-131 | "success" exactly when a truthy transaction hash came back |
| DocumentRoutes.UploadedRow | api/routes/documents.py:74-110 | The row has the next id, the owner, the saved path, the file's hash, size and type. is_verified is set whenever the blockchain call returns, even with None. A raised call leaves both the hash and the flag unset. A raised IPFS call leaves no IPFS hash |
| DocumentRoutes.UploadDocument | api/routes/documents.py:57-132 | An invalid file gives 400 with nothing saved or stored. Otherwise the file is saved at its path and one document row is added: owned by the user, with the upload's size and type, the saved file's hash and the IPFS and blockchain results. Then one "upload" record follows, whose status is the response's. The document and verification id counters each advance by one, and neither moves on a refusal |
| DocumentRoutes.ListDocuments | api/routes/documents.py:135-147 | Only the owner's rows, at most limit of them; a first page as long as the list holds all of them |
| DocumentRoutes.ListPagesTile | api/routes/documents.py:143-145 | Paging through the list misses and repeats nothing |
| DocumentRoutes.GetDocument | api/routes/documents.py:150-168 | 404 exactly when the user owns no row with the id; otherwise such a row |
| DocumentRoutes.OthersDocumentsHidden | api/routes/documents.py:157-166 | Another user's document is answered like a missing one |
| DocumentRoutes.GetAfterUpload | api/routes/documents.py:157-168 | A freshly added row is what get returns for its id |
| DocumentRoutes.DeleteDocument | api/routes/documents.py:171-199 | 404 unless owned, with nothing changed. Otherwise the file is removed (a missing file is ignored). When a verification row still references the document, the commit fails: 500, and both tables are unchanged. Otherwise only the matched row goes |
| DocumentRoutes.DeleteThenGet | api/routes/documents.py:178-197 | After a delete that succeeded, get answers 404 for that id |
| DocumentRoutes.UploadThenDeleteFails | api/routes/documents.py:196-197 | Uploading a file and then deleting it answers 500: the document row stays while its file is gone |
| DocumentRoutes.DeleteDocumentCascade | api/routes/documents.py:171-199 | The intended delete: 404 unless owned, with nothing changed. Otherwise the row and every verification row of the document go, no row references it afterwards, and the file is removed |
| DocumentRoutes.VerifyDocument | api/routes/documents.py:202-242 | 404 unless owned. Otherwise is_valid holds exactly when the file's current hash equals the stored hash, and one "verify" record with that outcome is appended. The document row is unchanged |
| DocumentRoutes.UploadedFileMatches | api/routes/documents.py:74-86 | An uploaded file verifies against its own row |
| DocumentRoutes.ReuploadBreaksEarlierDocument | api/routes/documents.py:221-222 | Re-uploading the same name with different contents makes the earlier document fail verification |
| VerificationRoutes.NewestFirst | api/routes/verification.py:46-48 | The selected rows, all of them and only them, sorted by created_at descending |
| VerificationRoutes.History | api/routes/verification.py:38-57 | Only the user's rows, newest first. The page holds min(limit, total − skip) rows, none when skip ≥ total. total_count counts all of the user's rows |
| VerificationRoutes.FirstPageIsWholeHistory | api/routes/verification.py:46-52 | A first page at least as long as the history holds every row of the user, each as often as it is stored |
| VerificationRoutes.HistoryPagesTile | api/routes/verification.py:46-48 | Consecutive pages of the history concatenate to the longer page, so paging misses and repeats nothing |
| VerificationRoutes.DocumentHistory | api/routes/verification.py:60-83 | 404 unless owned. Otherwise every record of the document, by any user, newest first |
| VerificationRoutes.ChainStatus | api/routes/verification.py:122-143 | "success" exactly when the blockchain verification answered true |
| VerificationRoutes.VerifyOnBlockchain | api/routes/verification.py:86-154 | 404 unless owned and 400 without a transaction hash, both writing nothing. Otherwise exactly one "blockchain_verify" record is written on both paths. The raised path then answers 500 with the error |
| VerificationRoutes.Rate | api/routes/verification.py:190-193 | part/whole·100 for a positive whole, 0 for an empty whole; a percentage in [0, 100], 100 for the whole |
| VerificationRoutes.Stats | api/routes/verification.py:157-194 | verified_documents counts exactly the user's verified documents. successful + failed ≤ total and verified ≤ documents. The two rates are the `Rate` of their counts |
| VerificationRoutes.StatsAfterRecord | api/routes/verification.py:163-175 | One more record moves the counts by exactly that record |
| VerificationRoutes.RaisedCheckCountsAsFailed | api/routes/verification.py:137-149 | A raised blockchain check adds one failed verification |

## Left out

- JSON text and `JSON.parse`. Storage holds typed values, so corrupted storage, which the source does not handle, is outside the model.
- The fields of a stored user are flat JSON values: null, booleans, integers and strings. Objects, arrays and non-integer numbers cannot be stored, so an `isLoggedIn` of `{}` or `0.5`, which is truthy in the source, is not represented.
- Lower-casing covers ASCII letters only.
- String lengths count characters. Zod's `min` counts UTF-16 code units, so "😀" (two code units) passes `min(2)` in the source while `ProfilePage.ValidateProfile` and `SignupPage.ValidateSignup` refuse it.
- The loop in `generateMockHistory` reads one clock per iteration, modelled as a field of that iteration's draw; how the readings relate to each other is not fixed beyond the window they fall in.
- Dates are integer milliseconds. `toISOString`, `toLocaleDateString`, ISO parsing and local-time `setDate` across daylight-saving changes are not modelled. A day is 86 400 000 ms.
- The upload record's `uploadDate` comes from a second clock read in the source. The model uses the same `now` as the id.
- `setTimeout` delays, toasts and navigation are presentation. A delayed callback is a separate method, and navigation is a returned path.
- `DocumentDetailPage.MockVerification`: the hexadecimal text of `Math.random().toString(16)` is a parameter, so only its "0x" prefix and the length bound are stated.
- Zod's e-mail validator is a parameter `isEmail` of the schemas.
- The null file that "Change File" passes in src/pages/dashboard/upload/FileUploadZone.tsx is outside `handleFile`'s domain, because `handleFile` reads `file.type` first.
- `ProfilePage.FieldOrEmpty`: a stored value that is truthy but not a string is rendered as "" rather than as its text.
- Python floats: `success_rate`, `verification_coverage` and `format_file_size` are computed as exact reals. Their one-decimal rendering and float rounding are not modelled.
- `FileService.FormatFileSize` returns the amount and unit, not the `:.1f` text.
- FileService.BaseName: pathlib's normalisation of the file name is not modelled. Trailing "/" and "/." components are kept, so "scan.pdf/" has no suffix and is refused, while pathlib gives ".pdf" and accepts it. Repeated or trailing slashes in the upload directory are not collapsed either. `FileService.SavePath`'s `uploadDir` stands for `str(Path(UPLOAD_DIR))`: the default "./uploads" (core/config.py:42) is stored as "uploads/<id>/…", without the leading "./", which the model keeps when given "./uploads".
- `cleanup_old_files`, `delete_file`, `copy_file`, `move_file`, `get_file_size` and `get_file_info` are file-system I/O.
- AuthRoutes.Register: the e-mail argument is the value pydantic's `EmailStr` has already validated and normalised (api/routes/auth.py:17). A malformed address, "" included, gets 422 before the handler runs, and the domain is lower-cased, so a@x.com and a@X.com are one address in the source and two in the model.
- AuthRoutes.Login: `formUsername` is the raw `OAuth2PasswordRequestForm` username (api/routes/auth.py:94-97), neither validated nor normalised, and it is compared exactly with the stored address, as the model does. So a malformed login name gets no 422, and logging in as a@X.com after registering it (stored as a@x.com) gets 401. The model does not show that second case, because it does not normalise at registration.
- UserRoutes.UpdateProfile and UserRoutes.UpdateUserProfile: a given e-mail is likewise the validated, normalised `EmailStr` value (api/routes/users.py:18); the 422 for a malformed one, `Some("")` included, is not modelled.
- AuthRoutes.RefreshMatchesLogin: `create_access_token` is a function of the subject only. The real token also encodes an expiry taken from the clock (ACCESS_TOKEN_EXPIRE_MINUTES, core/config.py:22), so a login and a later refresh return different token strings. The lemma states that both tokens come from the same subject, not that the strings are equal.
- Hashing, password hashing and checking, and token creation are parameters: MD5 in the save path, SHA-256 in `calculate_file_hash`, and `get_password_hash`, `verify_password` and `create_access_token`.
- core/security is not part of this model. The authentication dependency `get_current_active_user` is the precondition that the current user exists and is active.
- The IPFS and blockchain services are outcome parameters: a returned value, or a raised call. services/blockchain_service.py and services/ipfs_service.py are not modelled.
- Query order: rows without an `order_by` come in table order. Rows with equal `created_at` keep table order, where the database may use another.
- The ORM's flush is modelled only by its outcome for `delete_document`: a verification row that references the document makes the commit fail.
- The model has no rollback of its own: the two commits in `upload_document` are modelled as one final state, and a failing commit writes nothing.
- `DocumentRoutes.VerifyDocument`: the failure of `calculate_file_hash` on a missing file is modelled as a 500 that writes nothing, standing in for the unhandled exception.
- Negative `skip` or `limit` values are outside the model. Both are natural numbers.
- `UploadFile.size` and `content_type` are always present in the model; the source's `None` cases are not modelled.
- `get_user_profile` and `get_current_user_info` (api/routes/users.py:42-45, api/routes/auth.py:123-126) are not modelled. They return the current user unchanged, except that their `UserResponse` validation fails as the next line describes.
- Response serialisation is not modelled. The response models declare `created_at: str` (api/routes/documents.py:42, api/routes/users.py:36, api/routes/verification.py:26) for a `DateTime` column (core/database.py:31, :54, :74), and pydantic v2 does not turn a datetime into a string. So every path that returns a row answers 500 in the source, after any writes it made. For these members, `Ok` carries the value the handler intends to return:
  - DocumentRoutes.UploadDocument: the file, the document row and the "upload" record are all written first.
  - DocumentRoutes.ListDocuments: any non-empty page.
  - DocumentRoutes.GetDocument: any found row.
  - UserRoutes.UpdateProfile and UserRoutes.UpdateUserProfile: the update is committed first.
  - VerificationRoutes.History: any non-empty page.
  - VerificationRoutes.DocumentHistory: every owned document, since each has its "upload" record.
  Register, login, refresh and the handlers that return dictionaries are not affected.
- Display-only code:
  - rendering and JSX;
  - the MB display (`toFixed(2)`);
  - the static route table in src/App.tsx;
  - src/pages/Index.tsx and the Navbar, Footer and CyberCard components;
  - the upload page's drag state, info box and form wiring;
  - the `@/frontend` re-exports.
- The `@/frontend` UploadDocument page that src/App.tsx routes to is not part of this model. The two upload flows that are shown are modelled as written.
- Concurrency: requests run one at a time, and so do browser callbacks.

## Findings

| source | as written | input that shows it | evidently intended | confidence | as-written member | corrected member |
|---|---|---|---|---|---|---|
| api/routes/documents.py:196-197 | `db.delete(document)` without a delete cascade on `Document.verifications` (core/database.py:59) sets the NOT NULL `document_id` (core/database.py:67) of the document's verification rows to NULL, so the commit fails after the file was removed | upload a file, then DELETE the new document | the document's verification rows are deleted with it and the delete succeeds | not executed | DocumentRoutes.UploadThenDeleteFails | DocumentRoutes.DeleteDocumentCascade |
