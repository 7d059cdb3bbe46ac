# tsolmon admin front end, modelled in Dafny

The tsolmon admin front end is a Next.js site: a public home page and an
administration area over a hosted Postgres backend (tables `profiles`, `news`,
`files`, `vendors`, `announcements`, `procurements`, `audit_logs`, and a
storage bucket for uploaded files). The backend does the heavy lifting, and the
front end's own logic is a set of small decisions and list manipulations. This
project models that logic and proves what each piece promises:

- **Route guard** (`RouteGuard`). The edge middleware lets an admin-role
  session into `/admin…`. A request without a session goes to `/login`. A
  session without the admin role is signed out and then sent to `/login`. A
  signed-in visit to `/login` goes to `/admin`. A route matcher decides which
  paths reach the middleware at all.
- **Slugs** (`SlugText`, `NewsPanel`, `NewsEditor`). The two news editors
  build URL slugs from titles with two different chains of regular-expression
  replacements. One keeps a leading or trailing hyphen; the other trims it.
- **Local list mirrors** (`Mirror`, `FileList`, `RecentFiles`,
  `RecentAnnouncements`, `NewsPanel`). These are realtime INSERT/DELETE
  handlers, capped at five rows in the dashboard widgets, and the optimistic
  edit/create/delete of the news panel. The file list deletes in order: the
  storage object, then the row, then the local copy.
- **Classification and counting** (`FileKinds`, `FilesPage`, `NewsPage`,
  `MonthCounts`, `TenderStats`, `ProcurementStats`). These cover the MIME-type
  classifier and the three file buckets, the featured/regular split of news,
  and the per-month counters behind the two charts.
- **Validators and small state machines** (`FilesTable`, `FileUploader`,
  `Vendors`, `AnnouncementForm`, `Profiles`, `AuthCallback`,
  `SupabaseProvider`, `AuditLog`, `FeaturedNews`):
  - the 5 MiB PNG/PDF upload guard;
  - the multi-file upload loop that stops at the first failure;
  - vendor status transitions;
  - the announcement upsert;
  - profile provisioning on sign-in;
  - the audit-change formatter;
  - the featured-news selection.

Backend calls, the clock, randomness and locale formatting are parameters of
the model. A query's reply is an `Outcome` (`Pass`/`Fail`) or a
`Result<T>` (`Ok`/`Err`). A storage name's clock-and-random prefix is a
`stamp` string. A date's month key is a function argument. The `profiles` table
is a class holding a `map` from ids to profiles. Where a property is about
which backend calls are made, the method returns the calls it issued, in order.
A component whose source changes state step by step is a class whose methods
state the whole new state. A pure piece is a function with lemmas about it.

## Model

| member | source | states |
|---|---|---|
| Base.MessageOr | components/admin/file-uploader.tsx:47 | an `Error` yields its message; any other thrown value yields the fallback |
| Base.OrElse | app/admin/news/page.tsx:59-60 | a present non-empty string is kept; an absent or empty one gives the fallback |
| Base.ContainsIffWindow | components/admin/file-list.tsx:79-81 | the `includes` scan holds exactly when some window of the string equals the searched text |
| Lists.FilterMembers | components/admin/file-list.tsx:58 | an element survives a filter exactly when it was in the input and passes the test |
| Lists.FilterAppend | app/admin/files/page.tsx:55-62 | filtering a concatenation is concatenating the filtered parts, so survivors keep their order |
| Lists.FilterLength | components/admin/recent-files.tsx:30 | a filter never lengthens its input; it keeps all of it when every element passes and none when none does |
| Lists.FilterIdempotent | components/admin/file-list.tsx:58 | filtering twice with the same test is filtering once |
| Lists.FilterComplement | app/admin/news/page.tsx:64-65 | a test and its negation split the input into parts whose sizes add up to the whole |
| RouteGuard.Guard | middleware.ts:5-39 | an admin path without a session goes to login without sign-out; with a session but no admin profile it goes to login with sign-out; an admin path is allowed iff session and admin role; off the admin area only a signed-in `/login` is sent to `/admin`; sign-out only when the profile was looked up |
| RouteGuard.SignOutOnlyWhenNotAdmin | middleware.ts:27-30 | the sign-out happens iff the path is an admin path, there is a session and the role is not admin |
| RouteGuard.ProfileIrrelevantOutsideLookup | middleware.ts:14-24 | when the profile is not looked up, its value does not affect the decision |
| RouteGuard.PrefixIsGuarded | middleware.ts:14 | every path starting with `/admin` (e.g. `/administrator`) gets the same decision as `/admin` |
| RouteGuard.LoginPage | middleware.ts:33-38 | `/login` redirects a signed-in user to `/admin` and lets an anonymous one through |
| RouteGuard.Route | middleware.ts:41-43 | unmatched paths pass through untouched; matched ones get the middleware's decision |
| RouteGuard.RouteGuardsAdminArea | middleware.ts:14-31 | `/admin` and every path under `/admin/` is allowed iff there is a session with the admin role |
| RouteGuard.AdministratorNotMatched | middleware.ts:42 | `/administrator` is an admin path for the middleware body, but the matcher never routes it there, so it is always allowed |
| SlugText.SkipRun | components/admin/news-management.tsx:77 | skipping a leading run never lengthens the string and stops at a non-member |
| SlugText.SkipRunSuffix | components/admin/news-management.tsx:77 | what remains is a suffix, and everything skipped belongs to the class |
| SlugText.SkipRunAll | components/admin/news-management-panel.tsx:72 | a string made only of class members is skipped entirely |
| SlugText.SkipRunAlnums | components/admin/news-management.tsx:77 | skipping a run of a class without letters or digits loses none of them |
| SlugText.LowerAppend | components/admin/news-management.tsx:76 | lower-casing works character by character: the lower-cased concatenation is the concatenation of the lower-cased parts |
| SlugText.LowerFacts | components/admin/news-management.tsx:76 | lower-casing leaves no upper-case ASCII letter and never shortens a string; it keeps the length exactly when there is no U+0130, whose lower-case form is `i` plus a combining dot |
| SlugText.LowerIdentity | components/admin/news-management.tsx:76 | a string without A-Z, the Kelvin sign U+212A and the dotted capital I U+0130 is unchanged by lower-casing |
| SlugText.ReplaceRunsChars | components/admin/news-management.tsx:77 | every character a run replacement emits is a hyphen or a non-member taken from the input |
| SlugText.ReplaceRunsHead | components/admin/news-management-panel.tsx:72-73 | the first emitted character is `-` when the input starts inside a run, and the input's first character otherwise |
| SlugText.ReplaceRunsNoDoubleHyphen | components/admin/news-management-panel.tsx:73 | when the class contains `-`, the output never has two adjacent hyphens |
| SlugText.ReplaceRunsFixpoint | components/admin/news-management-panel.tsx:72-73 | a string whose class members are isolated hyphens is left unchanged |
| SlugText.ReplaceRunsAlnums | components/admin/news-management.tsx:77 | a replacement whose class has no letters or digits keeps every letter and digit, in order |
| SlugText.DropHyphensOfSlugChars | components/admin/news-management.tsx:75-78 | for a string over `[a-z0-9-]`, deleting hyphens leaves exactly its letters and digits |
| SlugText.AllHyphensWithoutAlnums | components/admin/news-management.tsx:77-78 | a string over `[a-z0-9-]` with no letter or digit is all hyphens |
| SlugText.SliceKeepsShape | components/admin/news-management.tsx:78 | slices keep the `[a-z0-9-]` alphabet and the absence of double hyphens |
| NewsPanel.SpacedSlugChars | components/admin/news-management-panel.tsx:70-72 | after dropping `[^a-z0-9 -]` and collapsing whitespace, only `[a-z0-9-]` remains |
| NewsPanel.GenerateSlugShape | components/admin/news-management-panel.tsx:68-74 | the slug uses only `a-z`, `0-9` and `-` and never has two hyphens in a row |
| NewsPanel.GenerateSlugAlnums | components/admin/news-management-panel.tsx:68-74 | deleting the hyphens of the slug gives exactly the ASCII letters and digits of the lower-cased title, in order |
| NewsPanel.KeptAlnums | components/admin/news-management-panel.tsx:71 | the character filter loses no letter or digit |
| NewsPanel.GenerateSlugIdempotent | components/admin/news-management-panel.tsx:68-74 | generating a slug from a slug gives it back |
| NewsPanel.GenerateSlugKeepsLeadingHyphen | components/admin/news-management-panel.tsx:70-73 | a title starting with a space or hyphen gives a slug starting with `-`: nothing is trimmed |
| NewsPanel.GenerateSlugOfNonAscii | components/admin/news-management-panel.tsx:70-73 | a title of spaces and non-ASCII letters other than U+212A and U+0130 (those lower-case outside ASCII) gives `-` if it has a space and the empty slug otherwise |
| NewsPanel.NonAsciiCapitalSlugs | components/admin/news-management-panel.tsx:70-73 | the Kelvin sign U+212A gives the slug `k` and the dotted capital I U+0130 gives `i` |
| NewsPanel.AllSpacesCollapse | components/admin/news-management-panel.tsx:72 | a non-empty run of blanks becomes exactly one hyphen |
| NewsPanel.MakePayload | components/admin/news-management-panel.tsx:79-83 | the payload copies the form fields, carries the title's slug and the clock's time |
| NewsPanel.ApplyEditSpec | components/admin/news-management-panel.tsx:86-89 | the optimistic edit keeps length and ids, merges the payload into the items with the id and leaves every other item as it was |
| NewsPanel.ApplyEditIdempotent | components/admin/news-management-panel.tsx:86-89 | applying the same edit again changes nothing |
| NewsPanel.ApplyCreateSpec | components/admin/news-management-panel.tsx:90-93 | the optimistic create adds exactly one item, first, with the fresh id and the payload's slug; the old items follow in order |
| NewsPanel.ApplyDeleteSpec | components/admin/news-management-panel.tsx:119 | the optimistic delete keeps exactly the items with another id, in order, and an absent id changes nothing |
| NewsPanel.Panel.FetchNews | components/admin/news-management-panel.tsx:46-62 | a successful read replaces the list, a failed one keeps it; loading ends false |
| NewsPanel.Panel.OpenDialog | components/admin/news-management-panel.tsx:157-178 | the dialog opens on the chosen item, or on a new one |
| NewsPanel.Utf16Length | components/admin/news-management-panel.tsx:16-17 | a string's JavaScript length lies between its number of characters and twice that, and equals it when every character is in the Basic Multilingual Plane |
| NewsPanel.TitleLengthInCodeUnits | components/admin/news-management-panel.tsx:16 | a title of three characters outside the Basic Multilingual Plane has length 6 and passes the title rule; a four-letter title does not |
| NewsPanel.Panel.BeginSubmit | components/admin/news-management-panel.tsx:76-97 | a write is issued iff the title has ≥ 5 and the content ≥ 10 UTF-16 code units and the URL is valid; it is an update of the selected id or an insert; the list becomes the optimistic edit or create; a rejected form changes nothing |
| NewsPanel.Panel.FinishSubmit | components/admin/news-management-panel.tsx:99-113 | success closes the dialog; success and failure both re-fetch, and the list is replaced only by a successful read |
| NewsPanel.Panel.BeginDelete | components/admin/news-management-panel.tsx:116-119 | the item leaves the list before the backend answers |
| NewsPanel.Panel.FinishDelete | components/admin/news-management-panel.tsx:121-130 | only a failed delete re-fetches the list |
| NewsEditor.TrimHyphensSlice | components/admin/news-management.tsx:78 | the trimmed string is a slice with at most one hyphen cut from each end |
| NewsEditor.TrimHyphensAlnums | components/admin/news-management.tsx:78 | trimming loses no letter or digit |
| NewsEditor.TrimHyphensSpec | components/admin/news-management.tsx:78 | trimming a string over `[a-z0-9-]` without double hyphens leaves one that neither starts nor ends with `-` |
| NewsEditor.SlugShape | components/admin/news-management.tsx:75-78 | the slug uses only `[a-z0-9-]`, never two hyphens in a row, and neither starts nor ends with `-` |
| NewsEditor.SlugAlnums | components/admin/news-management.tsx:75-78 | deleting the slug's hyphens gives exactly the ASCII letters and digits of the lower-cased title, in order |
| NewsEditor.SlugIdempotent | components/admin/news-management.tsx:75-78 | the slug of a slug is itself |
| NewsEditor.SlugOfNoAlnum | components/admin/news-management.tsx:75-78 | a title with no ASCII letter or digit and no character that lower-cases into one (a Cyrillic title) gives the empty slug |
| NewsEditor.NonAsciiCapitalSlugs | components/admin/news-management.tsx:75-78 | the Kelvin sign U+212A gives the slug `k`; the dotted capital I U+0130 gives `i`, its combining dot becoming a hyphen that the trim removes |
| NewsEditor.MakeNewsData | components/admin/news-management.tsx:80-89 | `newsData` copies title, excerpt, content, image, category and featured flag unchanged, adds the slug and the clock's time |
| NewsEditor.Editor.HandleSubmit | components/admin/news-management.tsx:70-117 | the write updates the edited id when it is non-empty and inserts otherwise; success resets the form to `INITIAL_FORM_DATA`, clears `editingId` and closes; failure leaves both; loading ends false |
| FileKinds.FileListIcon | components/admin/file-list.tsx:78-85 | spreadsheet icon iff the type names a spreadsheet or Excel; text icon iff not that but a document or PDF; generic icon otherwise |
| FileKinds.PageIcon | app/admin/files/page.tsx:127-134 | the page's icon is the icon of the classifier's kind |
| FileKinds.RecentIcon | components/admin/recent-files.tsx:39-44 | the widget never draws the generic icon |
| FileKinds.IconsAgree | app/admin/files/page.tsx:127-134 | the file list's and the page's icon functions agree with each other and with the classifier on every type |
| FileKinds.RecentIconAgrees | components/admin/recent-files.tsx:39-44 | the widget draws the spreadsheet icon exactly for spreadsheets and the text icon for every other type |
| FileKinds.SpreadsheetFirst | components/admin/file-list.tsx:79-81 | a type naming both a spreadsheet and a document is a spreadsheet |
| FileKinds.XlsxNamesDocument | components/admin/file-uploader.tsx:62 | the `.xlsx` MIME type contains `document` |
| FileKinds.XlsxIsSpreadsheet | components/admin/file-uploader.tsx:62 | the `.xlsx` MIME type names a document and is still classed as a spreadsheet |
| Mirror.WithoutId | components/admin/file-list.tsx:58 | the rows with another id survive, and a list without the id is unchanged |
| Mirror.Take | components/admin/recent-files.tsx:28 | `slice(0, cap)` is the prefix of length `min(len, cap)` |
| Mirror.InsertSpec | components/admin/recent-files.tsx:27-28 | an insert puts the new row first and keeps the old rows behind it, all of them without a cap and `min(old + 1, cap)` in total under one |
| Mirror.DeleteSpec | components/admin/recent-announcements.tsx:28-29 | a delete keeps exactly the rows with another id, in order, and an unknown id changes nothing |
| Mirror.DeleteIdempotent | components/admin/recent-announcements.tsx:29 | deleting an id twice is deleting it once |
| Mirror.ApplyBounded | components/admin/recent-announcements.tsx:26-29 | under the cap, no event takes a list past it |
| Mirror.ReplayBounded | components/admin/recent-announcements.tsx:26-29 | a list within the cap stays within it through any run of events |
| Mirror.DeletedStaysDeleted | components/admin/recent-files.tsx:27-30 | a deleted id does not come back unless a later insert brings it |
| FileList.Panel.OnChange | components/admin/file-list.tsx:53-61 | an insert prepends without a cap (length + 1), a delete keeps exactly the rows with another id, both notify the parent; other events change nothing |
| FileList.Panel.AskDelete | components/admin/file-list.tsx:40 | the file awaiting confirmation is recorded |
| FileList.Panel.HandleDelete | components/admin/file-list.tsx:113-142 | no pending file: nothing happens; storage failure: only the storage call is issued and the list is unchanged; otherwise the row delete follows, and only when it succeeds is the file removed from the list, the pending file cleared and the parent notified |
| FileList.DeleteTrace | components/admin/file-list.tsx:119-132 | the storage removal is always first, and the row delete is issued iff the storage removal succeeded |
| FileList.DeleteOrder | components/admin/file-list.tsx:119-132 | a row delete is always preceded by the removal of that file's storage object |
| FileList.DeleteFlow | components/admin/file-list.tsx:113-136 | a confirmed delete issues the calls of `DeleteTrace` in storage-first order and removes the file iff both replies succeed |
| RecentFiles.Widget.OnChange | components/admin/recent-files.tsx:26-31 | an insert puts the row first with length `min(old + 1, 5)`; a delete drops exactly the rows with that id; other events change nothing; a list within 5 stays within 5 |
| RecentAnnouncements.Widget.OnChange | components/admin/recent-announcements.tsx:25-31 | an insert puts the row first and keeps at most 5, followed by the old rows in order; a delete of an unknown id changes nothing; a list within 5 stays within 5 |
| RecentAnnouncements.Widget.OnChanges | components/admin/recent-announcements.tsx:25-31 | a run of events, handled one by one, leaves the replayed list and never exceeds 5 |
| FilesPage.FilesByType | app/admin/files/page.tsx:48-66 | the loop yields all three keys, even for no files, and each bucket is the files of its kind in input order, spreadsheet test first |
| FilesPage.BucketStep | app/admin/files/page.tsx:55-62 | one more file extends exactly the bucket of its kind |
| FilesPage.BucketSizes | app/admin/files/page.tsx:55-63 | the bucket sizes add up to the number of files |
| FilesPage.ExactlyOneBucket | app/admin/files/page.tsx:56-61 | a file is in the bucket of its kind and no other, and that kind's icon is the one the page draws |
| FilesPage.BucketsKeepOrder | app/admin/files/page.tsx:55-62 | buckets of a concatenation are the concatenated buckets: input order is kept |
| FilesTable.HandleFileUpload | components/admin/files-table.tsx:54-68 | larger than 5·1024·1024 bytes: the size alert; otherwise a type outside PNG/PDF: the type alert; the file is uploaded under its own name with upsert iff both checks pass |
| FilesTable.LimitIsInclusive | components/admin/files-table.tsx:54-58 | exactly 5 MiB passes the size check; one byte more is refused with the size message whatever the type |
| FilesTable.OnlyPngAndPdf | components/admin/files-table.tsx:59-62 | every uploaded file is a PNG or a PDF |
| FileUploader.ExtensionSpec | components/admin/file-uploader.tsx:22 | the extension is a dot-free suffix of the name, after its last dot, or the whole name when there is none |
| FileUploader.ExtensionAfterDot | components/admin/file-uploader.tsx:22-23 | the extension of `prefix.ext` with a dot-free `ext` is `ext` |
| FileUploader.StorageNameKeepsExtension | components/admin/file-uploader.tsx:22-23 | the generated storage name has the original file's extension |
| FileUploader.Record | components/admin/file-uploader.tsx:35-40 | the inserted row copies name, size and type, and its storage path is the generated name |
| FileUploader.Completed | components/admin/file-uploader.tsx:21-43 | `k` completed files issue `2k` calls |
| FileUploader.CompletedOrder | components/admin/file-uploader.tsx:26-42 | file `j` is stored (call `2j`) before it is recorded (call `2j+1`), with a row describing it |
| FileUploader.CompletedShift | components/admin/file-uploader.tsx:21 | the files are handled in input order: the first file's calls come before those of the rest |
| FileUploader.RunShape | components/admin/file-uploader.tsx:21-47 | files before the first failure are stored and recorded; the failing file gets only its calls up to the failure; later files are not touched; no failure means every file is processed |
| FileUploader.RunUnfold | components/admin/file-uploader.tsx:21-43 | the run from file `i` is that file's step followed, when it passes, by the run from `i + 1` |
| FileUploader.UploadAll | components/admin/file-uploader.tsx:21-43 | the loop issues exactly the calls of the run and reports the first failure |
| FileUploader.Uploader.OnDrop | components/admin/file-uploader.tsx:16-51 | the calls are the run's; a run without failure clears the error and refreshes once; a failure sets its message or `Error uploading file` and does not refresh; `uploading` ends false |
| NewsPage.FirstCategory | app/admin/news/page.tsx:59-60 | `categories?.[0]` is present iff the join returned a non-empty list, and is its first element |
| NewsPage.Format | app/admin/news/page.tsx:50-62 | each entry copies its row's columns, and the category name and slug default to `''` |
| NewsPage.FormatAll | app/admin/news/page.tsx:50-62 | one entry per row, same length and order |
| NewsPage.SplitSpec | app/admin/news/page.tsx:64-65 | each entry is in exactly one of the featured and regular lists, which together hold all entries |
| NewsPage.Page.FetchNews | app/admin/news/page.tsx:26-72 | a result replaces both lists with its regular and featured entries in order; an error or null result keeps them; loading ends false |
| NewsPage.Page.HandleDelete | app/admin/news/page.tsx:78-91 | the lists are re-read iff the delete succeeded, and otherwise nothing changes; a re-read result replaces both lists, an error or null result keeps them, and loading ends false |
| Vendors.Target | components/admin/vendor-admin-table.tsx:95-111 | a button writes approved or rejected, never pending |
| Vendors.Offered | components/admin/vendor-admin-table.tsx:95-111 | buttons are offered iff the vendor is pending, and then both |
| Vendors.StatusBadge | components/admin/vendor-admin-table.tsx:85-88 | approved → secondary, rejected → destructive, pending → default |
| Vendors.ApplyWrite | components/admin/vendor-admin-table.tsx:45-48 | the write keeps the length and every column but the status; rows with its id get its status, all other rows are unchanged |
| Vendors.WriteDecidesRow | components/admin/vendor-admin-table.tsx:85-111 | after a button's write, the vendor's rows show the button's status with a non-pending badge and offer no buttons; other vendors' rows are unchanged |
| Vendors.DecidedIsFinal | components/admin/vendor-admin-table.tsx:95-111 | clicks act only on offered buttons, so an approved or rejected vendor never changes, and a pending vendor is decided by its first click |
| Vendors.VendorTable.FetchVendors | components/admin/vendor-admin-table.tsx:27-41 | a result replaces the list, a null result empties it, an error keeps it; loading ends false |
| Vendors.VendorTable.UpdateVendorStatus | components/admin/vendor-admin-table.tsx:43-55 | the write targets the id with a non-pending status; the list is re-read iff the write succeeded, a re-read result replaces it, a null one empties it, an error keeps it, and loading ends false; when the re-read shows the write applied, the vendor's rows carry the new status and offer no buttons |
| AnnouncementForm.InitialForm | components/admin/announcement-form.tsx:27-31 | without initial data the form is `''`, `''`, draft; with it, the data's fields |
| AnnouncementForm.PayloadId | components/admin/announcement-form.tsx:44 | the payload carries an id iff the initial data has a non-empty one |
| AnnouncementForm.Form.constructor | components/admin/announcement-form.tsx:27-33 | the form starts from `InitialForm`, not loading, with no error |
| AnnouncementForm.Form.SetStatus | components/admin/announcement-form.tsx:88-92 | the status select changes only the status |
| AnnouncementForm.Form.BeginSubmit | components/admin/announcement-form.tsx:35-47 | a submit sets loading, clears the error, and upserts the form fields plus the id when editing and the clock's time |
| AnnouncementForm.Form.FinishSubmit | components/admin/announcement-form.tsx:49-57 | success navigates to the list and refreshes; failure sets the message or `Failed to save announcement`; loading ends false either way |
| Profiles.DefaultProfile | app/auth/callback/route.ts:31-35 | the provisioned profile has the user's email and the `user` role |
| Profiles.ProvisionedKeepsRows | app/auth/callback/route.ts:21-38 | provisioning never changes or removes an existing profile, only adds the user's default one, and never grants admin |
| Profiles.ProvisionedHasProfile | app/auth/callback/route.ts:21-38 | without faults the user ends with a profile: the old one if any, the default otherwise |
| Profiles.ProvisionedIdempotent | app/supabase-provider.tsx:29-44 | provisioning again after a successful provisioning changes nothing |
| Profiles.ProfileTable.Insert | app/auth/callback/route.ts:29-35 | the insert succeeds iff no fault and the id is free, and then adds exactly that row |
| Profiles.ProfileTable.EnsureProfile | app/auth/callback/route.ts:21-38 | the table becomes `Provisioned`; the insert is tried iff the lookup found nothing, and fails on a fault or a taken id |
| AuthCallback.Callback | app/auth/callback/route.ts:7-49 | no code: home with no backend contact; failed exchange: error URL; otherwise the user is provisioned and the redirect is the error URL iff the needed insert failed |
| AuthCallback.NewUserIsNotAdmin | app/auth/callback/route.ts:31-35 | a first-time user gets the `user` role and the route guard still refuses them `/admin` |
| SupabaseProvider.Provider.OnAuthStateChange | app/supabase-provider.tsx:28-51 | a session user is provisioned; `user` becomes the session's user or null; only SIGNED_OUT refreshes |
| SupabaseProvider.Provider.LoadInitialSession | app/supabase-provider.tsx:54-73 | the initial session gets the same provisioning and sets `user`, without a refresh |
| SupabaseProvider.UseSupabase | app/supabase-provider.tsx:87-93 | outside a provider the hook throws its error; inside it returns the context |
| MonthCounts.Tally | components/admin/tender-stats-chart.tsx:16-22 | the counter lists each key once and has an entry exactly for the keys counted |
| MonthCounts.BumpKeeps | components/admin/tender-stats-chart.tsx:21 | one increment keeps keys distinct and adds its key |
| MonthCounts.Entries | components/admin/tender-stats-chart.tsx:25 | `Object.entries` lists each key with its count, in first-seen order |
| MonthCounts.TallySpec | components/admin/tender-stats-chart.tsx:19-22 | each counted key carries its number of occurrences, which is at least one |
| MonthCounts.OccurrencesMissing | components/ProcurementStatsWidget.tsx:90-93 | a key that does not occur is counted zero times |
| MonthCounts.BumpSum | components/ProcurementStatsWidget.tsx:92 | one increment adds one to the total |
| MonthCounts.TallySum | components/admin/tender-stats-chart.tsx:19-22 | the counts add up to the number of items |
| MonthCounts.EntriesSum | components/ProcurementStatsWidget.tsx:94 | the entries sum to the same total as the counter |
| MonthCounts.CountByKey | components/ProcurementStatsWidget.tsx:89-93 | the counting loop builds the counter: consistent, summing to the number of items |
| TenderStats.LexTotal | components/admin/tender-stats-chart.tsx:30 | any two month keys are ordered one way or the other |
| TenderStats.LexAntisymmetric | components/admin/tender-stats-chart.tsx:30 | keys ordered both ways are equal |
| TenderStats.LexTransitive | components/admin/tender-stats-chart.tsx:30 | the key order is transitive |
| TenderStats.InsertByKey | components/admin/tender-stats-chart.tsx:30 | inserting adds exactly the entry (as a multiset) |
| TenderStats.SortByKey | components/admin/tender-stats-chart.tsx:30 | the sort is a permutation |
| TenderStats.InsertMembers | components/admin/tender-stats-chart.tsx:30 | insertion adds the entry and keeps every other |
| TenderStats.InsertSorted | components/admin/tender-stats-chart.tsx:30 | inserting into an ascending list keeps it ascending |
| TenderStats.ConsSorted | components/admin/tender-stats-chart.tsx:30 | an entry no larger than the head can go in front |
| TenderStats.SortSorted | components/admin/tender-stats-chart.tsx:30 | the series is ascending by month |
| TenderStats.SortSum | components/admin/tender-stats-chart.tsx:30 | sorting keeps the total |
| TenderStats.InsertSum | components/admin/tender-stats-chart.tsx:30 | insertion adds the entry's count to the total |
| TenderStats.MonthKeys | components/admin/tender-stats-chart.tsx:19-20 | one month key per tender, in order |
| TenderStats.ChartData | components/admin/tender-stats-chart.tsx:15-31 | `chartData` is the sorted entries of the month counter |
| TenderStats.SortMembers | components/admin/tender-stats-chart.tsx:30 | sorting keeps exactly the entries it is given |
| TenderStats.EntriesCoverKeys | components/admin/tender-stats-chart.tsx:25-29 | every month that occurs has an entry |
| TenderStats.ChartSpec | components/admin/tender-stats-chart.tsx:15-31 | the series is ascending by month, has one point per month that occurs, each carrying its number of tenders (≥ 1), sums to the number of tenders, and is empty for no tenders |
| ProcurementStats.CountOrZero | components/ProcurementStatsWidget.tsx:78-80 | a null count is 0, a present one is kept |
| ProcurementStats.ProcessMonthlyData | components/ProcurementStatsWidget.tsx:88-95 | the monthly series is the entries of the month-name counter |
| ProcurementStats.MonthlySpec | components/ProcurementStatsWidget.tsx:88-95 | months are distinct, each with its number of procurements (≥ 1), summing to the number of procurements |
| ProcurementStats.Widget.FetchStats | components/ProcurementStatsWidget.tsx:49-86 | null counts become 0; no monthly data gives an empty series; otherwise the series is the counter's entries |
| AuditLog.JoinAppend | components/admin/audit-log-viewer.tsx:56 | joining two non-empty lists is joining each with one separator between them |
| AuditLog.FormatChanges | components/admin/audit-log-viewer.tsx:51-61 | falsy changes give `No changes`; a value that cannot be stringified gives `Invalid changes format`; an empty object gives `''`; one entry gives `key: value` |
| AuditLog.FormatChangesAppend | components/admin/audit-log-viewer.tsx:54-56 | the entries appear in order, separated by `, ` |
| AuditLog.ActionBadge | components/admin/audit-log-viewer.tsx:91-95 | INSERT → secondary, UPDATE → default, anything else → destructive |
| AuditLog.UserLabel | components/admin/audit-log-viewer.tsx:99 | a missing user or email shows `Unknown`, and the label is never empty |
| FeaturedNews.Select | components/FeaturedNews.tsx:18-20 | fewer than 3 items render nothing; otherwise the main item is the first and the side items are the second and third |
| FeaturedNews.SelectIgnoresRest | components/FeaturedNews.tsx:45 | items after the third play no part |
| FeaturedNews.Href | components/FeaturedNews.tsx:26-46 | a missing or empty link becomes `#`, and the link is never empty |

The middleware body guards every path that starts with `/admin`, including
`/administrator` (`RouteGuard.PrefixIsGuarded`). The route matcher, however,
hands the middleware only `/admin`, paths under `/admin/`, and `/login`, so
`/administrator` is served without any check
(`RouteGuard.AdministratorNotMatched`). No such page exists in the
repository, so this has no effect today.

## Left out

- `formatFileSize` (components/admin/file-list.tsx:70-76, components/admin/files-table.tsx:46-52, components/admin/recent-files.tsx:71) is not modelled: it uses floating-point logarithms and `toFixed`.
- Clock, randomness and locale are inputs. The `Date.now()`/`Math.random()` prefix of a storage name is the `stamp` string. `new Date().toISOString()` is the `now` string. `crypto.randomUUID()` is the `freshId` string. date-fns' `yyyy-MM` formatting and `toLocaleString('mn-MN', { month: 'short' })` are uninterpreted functions. The six-month window of the procurement query is part of the backend read.
- TenderStats.LexLe: `localeCompare` is modelled as code-point order. On the `yyyy-MM` keys both orders agree.
- SlugText.Lower: `toLowerCase` is modelled exactly for the characters whose lower-case form holds an ASCII character: A-Z, U+212A (to `k`) and U+0130 (to `i` followed by U+0307). Every other character keeps its case in the model. Its real lower-case form also lies outside ASCII, so both slug rules drop it either way and no slug depends on it.
- NewsPanel.FormAccepted: zod's `.url()` check is the boolean input `imageIsUrl`. The validation messages are not modelled.
- Profiles.ProfileTable.Lookup: a stand-in for the backend's `select().eq('id', id).single()`. Its contract describes the stand-in (a profile comes back iff no fault and the row exists), not code of the repository. Its effect is stated through `Profiles.ProfileTable.EnsureProfile` and the `Provisioned` lemmas.
- AuditLog.FormatChanges: `JSON.stringify` of a value is the `rendered` field of an entry, `None` when it throws. `Object.entries`' placement of integer-like keys before the others is not modelled; entries are taken in the order given. A truthy non-object `changes` value (a number or string) is not distinguished from an object.
- Backend calls are replaced by their replies: Supabase queries, storage writes and removals, realtime subscriptions, `getSession`, `exchangeCodeForSession`, `signOut`. The `ProfileTable` stand-in assumes an insert for a taken id fails, as a primary-key violation does.
- ProcurementStats.Widget.FetchStats: the `try/catch` around the four reads is not modelled. Each read's reply is an input, and a thrown read (which keeps the old stats) is not represented.
- react-dropzone's 10 MB limit and accepted types (components/admin/file-uploader.tsx:53-64) are library behaviour and are not modelled. Only the `.xlsx` MIME type is used, by the classifier lemmas.
- `handleDownload` (components/admin/file-list.tsx:87-111) and the files table's initial fetch are not modelled. They are a browser download and a plain read.
- Rendering, navigation and styling are not modelled. This covers the home page components, the login page, the sign-out button, the stats cards and the announcements table.
- app/admin/announcements/page.tsx calls an undefined `handleDelete` and is not part of this model. Neither are app/admin/layout.tsx (a client-side repeat of the middleware's session check) and app/admin/page.tsx (two backend counts).
- Concurrency between optimistic updates, re-fetches and realtime events is not modelled. Each handler runs to completion before the next event. The awaited steps of a submit or delete are split into `Begin…`/`Finish…` methods around the backend reply.
- NewsEditor.Editor.HandleSubmit: the `categories` read that fills the category select is not modelled.
