# lenslabs back office, modelled in Dafny

The lenslabs back office is a set of React pages over a Supabase (Postgres)
backend. It moves product listings through a review pipeline:

- **CPV** (created, pending validation);
- **Assign**;
- **Worklist**;
- **NR** (needs review);
- then **PR** (passed review) or **NP** (not passed). From NP a listing can be resubmitted to NR.

Around the pipeline it also does the following:

- It soft-deletes, restores and purges listings.
- It deletes a category or brand after moving its listings to a replacement.
- It manages per-admin section permissions and freezes, activates and deletes admins.
- It guards every page behind an admin-role check.
- It shows dashboard and category statistics.

The model replaces the backend with one abstract `Store` class (module
`Backoffice`). The class holds the `listings`, `categories`, `brands`, `admins`,
`admin_permissions` and `admin_activity_log` tables as Dafny maps and
sequences. Each page has a module of its own:

- the page's queries are pure view functions;
- its zod schemas are pure parsers returning `Parsed<T>` (the value, or the first issue's message);
- its mutations are `Store` methods that change exactly the tables named in their `modifies` frame.

Every method `ensures` that the new table equals a pure function of the old one (module
`ListingTable`). The pure functions are then the subject of the lemmas:

- views and soft delete;
- restore round trips;
- the pipeline's edges;
- status counts that partition the table;
- the permissions save/fetch round trip.

Components with dialog state of their own are classes in module `Dialogs`:

- the listing delete button;
- the permanent-delete dialog;
- the category and brand delete dialogs;
- the permissions dialog.

The route guard is the class `ProtectedRoute.RouteGuard`.

The backend, the clock and the signed-in user are parameters:

- The backend's answer to each statement is a boolean (`updateOk`, `insertOk`, `deleteOk`, `queryOk`, `logOk`). A failed statement changes nothing. The statements of one handler are not one transaction, so a later failure does not undo an earlier write.
- Generated ids, `now`, the signed-in user, and the admin the activity logger resolves are plain parameters.
- Each method returns the toast the page shows as an `Outcome`: `Done`, `Rejected`, `Failed` or `Unreported`.

Behaviour of the code worth noting:

- Among the modelled pages, only the NR review writes to the activity log; creating a listing does not. The admin-creation function, which is left out, also writes one entry.
- No page moves a listing to `published`. The status exists only as a badge label. `pr` has no outgoing edge. Every `Store` method that writes `listings` ensures `ListingTable.NoNewPublished(old(listings), listings)`, stale rows included. `ListingTable.HistoryNeverPublishes` carries that property along any sequence of such writes.
- Status updates filter by id only. The pipeline edge holds for rows taken from the page's own view (the conditional `ensures` of each method). `Backoffice.StaleDetailsEditLeavesPipeline` shows a stale form sending an `nr` row back to `assign`.
- The NP view has no `deleted_at` filter. The dashboard counts soft-deleted rows.

## Model

| member | source | states |
|---|---|---|
| `Types.StatusNameInjective` | src/components/StatusBadge.tsx:8-26 | distinct stages are stored as distinct texts of the `status` column |
| `Text.Trim` | src/pages/CreateNew.tsx:16 | zod's `.trim()` leaves no whitespace at either end, and is empty exactly when the input is all whitespace |
| `Text.TrimUnique` | src/pages/CreateNew.tsx:16 | trimming whitespace + m + whitespace, where m has no whitespace end, gives exactly m |
| `Text.TrimIdempotent` | src/pages/CPV.tsx:20 | trimming twice is trimming once |
| `Text.Utf16Length` | src/pages/CreateNew.tsx:17-18 | `.min`/`.max` count UTF-16 units: between |s| and 2|s|, zero only for the empty text |
| `CreateNew.ParseListing` | src/pages/CreateNew.tsx:14-20 | accepted iff the trimmed product name has 1..200 units and the category is a UUID; on success it returns the trimmed name; on failure it returns the first issue's message, name before category |
| `CreateNew.ParseListingStable` | src/pages/CreateNew.tsx:14-20 | re-parsing an accepted product name gives the same result |
| `CreateNew.ParseCategoryName` | src/pages/CreateNew.tsx:22-27 | accepted iff the trimmed name has 1..100 units; the message of each failure |
| `CreateNew.ParseCategoryNameIgnoresPadding` | src/pages/CreateNew.tsx:22-27 | surrounding whitespace never changes the outcome of the category schema |
| `CreateNew.NewListingRow` | src/pages/CreateNew.tsx:59-64 | the inserted row is at `cpv`, not deleted, unassigned, with the validated name, category and the creating user |
| `CreateNew.NewCategoryRow` | src/pages/CreateNew.tsx:86-88 | a created category has no parent, so it is top-level |
| `Backoffice.Store.CreateListing` | src/pages/CreateNew.tsx:46-78 | a schema failure, a missing user or a failed insert writes nothing and reports the page's message; a success adds exactly the new `cpv` row, which then appears in the CPV view |
| `Backoffice.Store.CreateCategory` | src/pages/CreateNew.tsx:80-103 | a schema failure or a failed insert writes nothing; a success adds exactly the new top-level category |
| `Cpv.View` | src/pages/CPV.tsx:38-48 | the rows with status `cpv` and no `deleted_at` |
| `Cpv.ParseDetails` | src/pages/CPV.tsx:18-27 | accepted iff the trimmed title has 1..300 units and a non-empty description trims to at most 5000; "" becomes no description; the first issue's message |
| `Cpv.ParseDetailsStable` | src/pages/CPV.tsx:52-55 | re-submitting stored details reproduces them, except that a whitespace-only description now reads as none |
| `Cpv.BlankDescriptionStoredEmpty` | src/pages/CPV.tsx:23-26 | every non-empty whitespace-only description passes (whenever the title does) and is written as "" |
| `Backoffice.Store.SubmitDetails` | src/pages/CPV.tsx:50-81 | the parse runs before the update; a success writes title, description (kept when none was given) and `assign` into that row only; a row from the CPV view moves along the `cpv`→`assign` edge |
| `Assign.View` | src/pages/Assign.tsx:23-33 | the rows with status `assign` and no `deleted_at` |
| `Assign.Candidates` | src/pages/Assign.tsx:35-42 | every admin is offered, whatever its status |
| `Assign.FrozenAdminsOffered` | src/pages/Assign.tsx:117-121 | a frozen admin is among the choices |
| `Backoffice.Store.AssignListing` | src/pages/Assign.tsx:44-61 | writes the chosen admin id (possibly the initial "") and `worklist` into that row only; a failure is not reported |
| `Worklist.View` | src/pages/Worklist.tsx:18-31 | the rows with status `worklist` and no `deleted_at` |
| `Worklist.AssigneeLabel` | src/pages/Worklist.tsx:80-86 | the assigned admin's code, or "Unassigned" when no admin matches or the code is empty |
| `Backoffice.Store.SubmitWork` | src/pages/Worklist.tsx:42-54 | sets only `status = nr` on that row, so `assigned_to` is kept; moves along `worklist`→`nr` |
| `Nr.View` | src/pages/NR.tsx:18-29 | the rows with status `nr` and no `deleted_at` |
| `Nr.ReviewEntry` | src/pages/NR.tsx:39-43 | the log entry: `LISTING_PASSED` exactly for `pr`, `LISTING_REJECTED` exactly for `np`, section `nr`, the listing id and new status |
| `Backoffice.Store.Review` | src/pages/NR.tsx:31-52 | a failed update writes neither table; a success writes the decision and appends one entry exactly when the logger finds an admin and its insert succeeds |
| `Np.View` | src/pages/NP.tsx:16-26 | the rows with status `np`, soft-deleted ones included |
| `Np.ViewIncludesDeleted` | src/pages/NP.tsx:19-22 | the NP view is the live `np` rows plus the deleted `np` rows |
| `Backoffice.Store.Resubmit` | src/pages/NP.tsx:28-40 | sets only `status = nr` on that row and does not touch the log; moves along `np`→`nr` |
| `Pr.View` | src/pages/PR.tsx:14-25 | the rows with status `pr` and no `deleted_at` |
| `Pipeline.OnlyBackwardEdgeIsResubmit` | src/pages/NP.tsx:30-33 | among the page actions' edges only `np`→`nr` does not move forward |
| `Pipeline.PassedIsFinal` | src/pages/PR.tsx:11-25 | `pr` has no outgoing edge and no edge reaches `published` |
| `Pipeline.RunNeverPublishes` | src/components/StatusBadge.tsx:15 | no run of pipeline edges turns an unpublished listing into a published one |
| `ListingTable.UpdatesNeverPublish` | src/pages/NR.tsx:33-36 | the id-filtered updates (status to a stage other than `published`, details, assignee, `deleted_at`) publish no row, whatever the row's current status |
| `ListingTable.BulkWritesNeverPublish` | src/components/DeleteCategoryButton.tsx:59-73 | the delete and the category and brand reassignments publish no row |
| `ListingTable.HistoryNeverPublishes` | src/pages/PR.tsx:11-25 | along any sequence of table states where no step publishes a new row, a row published at the end was published at the start |
| `Pipeline.RejectedThenPassedScenario` | src/pages/NR.tsx:89-97 | reject, resubmit, pass is a run of page actions |
| `Backoffice.StaleDetailsEditLeavesPipeline` | src/pages/CPV.tsx:57-64 | the id-only update moves a row that is no longer at `cpv` off the pipeline's edges |
| `ListingTable.SetStatus` | src/pages/Worklist.tsx:44-47 | an id-filtered status update changes that row's status only; no row appears or disappears |
| `ListingTable.SetDetails` | src/pages/CPV.tsx:57-64 | title, `assign` and, when given, the description on that row only |
| `ListingTable.SetAssignee` | src/pages/Assign.tsx:46-52 | `assigned_to` and `worklist` on that row only |
| `ListingTable.SetDeletedAt` | src/components/DeleteListingButton.tsx:30-33 | `deleted_at` on that row only; status and other fields are kept |
| `ListingTable.Purge` | src/pages/DeletedListings.tsx:54 | exactly that row is removed |
| `ListingTable.ReassignCategory` | src/components/DeleteCategoryButton.tsx:59-63 | every row of the old category, soft-deleted or not, now has the replacement; none has the old one |
| `ListingTable.ReassignBrand` | src/components/DeleteBrandButton.tsx:59-63 | every row with the old brand now has the replacement; rows without a brand are untouched |
| `ListingTable.StageView` | src/pages/PR.tsx:17-21 | a stage view never lists a soft-deleted row |
| `ListingTable.DeletedIds` | src/pages/DeletedListings.tsx:22-25 | the deleted view is disjoint from every stage view |
| `ListingTable.EveryRowHasOnePlace` | src/pages/DeletedListings.tsx:42-48 | each row is in the deleted view or in its own status's stage view, and in no other stage view |
| `ListingTable.SoftDeleteHides` | src/components/DeleteListingButton.tsx:30-33 | soft delete removes the row from every stage view and adds it to the deleted view |
| `ListingTable.RestoreRejoins` | src/pages/DeletedListings.tsx:34-37 | restore puts the row back in the view of its unchanged status |
| `ListingTable.SoftDeleteThenRestore` | src/pages/DeletedListings.tsx:34-37 | soft delete then restore gives the table back |
| `ListingTable.RestoreThenSoftDelete` | src/pages/DeletedListings.tsx:34-37 | restore then soft delete at the old time gives the table back |
| `ListingTable.SetStatusMovesRow` | src/pages/NR.tsx:33-36 | a status write moves a listed row into the view of the new status and leaves the other rows where they were |
| `Backoffice.Store.SoftDelete` | src/components/DeleteListingButton.tsx:28-44 | a success sets `deleted_at` on that row, which leaves every stage view; a failure writes nothing and is reported |
| `Backoffice.Store.Restore` | src/pages/DeletedListings.tsx:32-50 | clears `deleted_at`; the row is back in the view of its old status |
| `Backoffice.Store.PurgeListing` | src/pages/DeletedListings.tsx:52-62 | removes exactly that row on success |
| `DeletedListings.DeletedAtKey` | src/pages/DeletedListings.tsx:25-26 | the sort key is the `deleted_at` of exactly the deleted rows |
| `DeletedListings.View` | src/pages/DeletedListings.tsx:19-30 | every soft-deleted row once, later deletions first |
| `DeletedListings.BadgeStatus` | src/pages/DeletedListings.tsx:93 | a null or empty status is shown as `cpv`, any other text as itself |
| `DeletedListings.StoredStatusShown` | src/pages/DeletedListings.tsx:93 | a status a page wrote is never empty, so the badge shows it as itself |
| `Ordering.InsertDesc` | src/components/AdminList.tsx:47 | insertion keeps the elements, their distinctness and the descending key order |
| `Ordering.SortDesc` | src/components/AdminList.tsx:47 | `.order(column, descending)`: every id once, keys non-increasing |
| `DeleteCategoryButton.OnDeleteClick` | src/components/DeleteCategoryButton.tsx:88-94 | the click deletes at once exactly when the count is 0, otherwise it opens the dialog |
| `DeleteCategoryButton.Candidates` | src/components/DeleteCategoryButton.tsx:45 | the replacement choices are every other category, never the one being deleted |
| `Backoffice.Store.DeleteCategory` | src/components/DeleteCategoryButton.tsx:53-86 | the missing-replacement guard and a failed reassignment change nothing. Otherwise the rows are reassigned first, then the category is deleted; a failed delete leaves the rows reassigned. After a success no row references it |
| `DeleteBrandButton.Candidates` | src/components/DeleteBrandButton.tsx:45 | the replacement choices are every other brand |
| `Backoffice.Store.DeleteBrand` | src/components/DeleteBrandButton.tsx:53-86 | the same steps for brands; with a count of 0 no listing is touched |
| `Dialogs.DeleteListingButton.Click` | src/components/DeleteListingButton.tsx:51 | the first click only opens the dialog |
| `Dialogs.DeleteListingButton.Confirm` | src/components/DeleteListingButton.tsx:36-43 | the soft delete runs from the dialog's action; only a success closes the dialog |
| `Dialogs.DeletedListingsPage.AskPurge` | src/pages/DeletedListings.tsx:113 | "Delete Forever" only records the row to confirm |
| `Dialogs.DeletedListingsPage.ConfirmPurge` | src/pages/DeletedListings.tsx:134-145 | with no recorded row nothing happens; a success purges the recorded row and clears it |
| `Dialogs.CategoryDeleteDialog.Click` | src/components/DeleteCategoryButton.tsx:88-94 | a count of 0 deletes without reassigning, with the success toast exactly when the delete succeeds, and a success closes and clears the dialog; any other count only opens the dialog |
| `Dialogs.CategoryDeleteDialog.Confirm` | src/components/DeleteCategoryButton.tsx:96-102 | a positive count without a replacement stops with a toast and changes nothing; otherwise the listings are reassigned exactly when a replacement is due and the update succeeds, the toast is the success one exactly when every step succeeds, and a failure keeps the categories, the open dialog and the choice |
| `Dialogs.CategoryDeleteDialog.Run` | src/components/DeleteCategoryButton.tsx:75-82 | a success closes the dialog and clears the choice; a failure keeps both |
| `Dialogs.CategoryDeleteDialog.Cancel` | src/components/DeleteCategoryButton.tsx:151-154 | cancel closes and clears the choice |
| `Dialogs.BrandDeleteDialog.Confirm` | src/components/DeleteBrandButton.tsx:92-98 | a positive count without a replacement stops with a toast and changes nothing; otherwise the listings are reassigned exactly when a replacement is due and the update succeeds, a success deletes the brand and closes and clears the dialog, and a failure keeps the brands, the open dialog and the choice |
| `Dialogs.BrandDeleteDialog.Cancel` | src/components/DeleteBrandButton.tsx:132-174 | cancel closes; the replacement dialog's cancel also clears the choice |
| `AdminPermissions.FindAccess` | src/components/AdminPermissionsDialog.tsx:77 | `find` gives nothing exactly when no row names the section |
| `AdminPermissions.Fetched` | src/components/AdminPermissionsDialog.tsx:75-79 | one entry per available section; a stored row wins, otherwise `true` |
| `AdminPermissions.BuildPermissionsMap` | src/components/AdminPermissionsDialog.tsx:75-79 | the `forEach` loop builds exactly the map `Fetched` describes |
| `AdminPermissions.DefaultAllow` | src/components/AdminPermissionsDialog.tsx:78 | an admin with no rows may access every section |
| `AdminPermissions.Toggle` | src/components/AdminPermissionsDialog.tsx:127-132 | flips one switch, a missing one reading as false, and keeps the rest |
| `AdminPermissions.ToggleTwice` | src/components/AdminPermissionsDialog.tsx:127-132 | toggling the same section twice restores the map |
| `AdminPermissions.RowsToInsert` | src/components/AdminPermissionsDialog.tsx:96-102 | each inserted row belongs to the admin, names a section of the walk that the map has, and carries the map's value |
| `AdminPermissions.RowsToInsertCovers` | src/components/AdminPermissionsDialog.tsx:96-102 | every section of the walk that the map has gets a row |
| `AdminPermissions.RowsToInsertNoRepeat` | src/components/AdminPermissionsDialog.tsx:96-102 | over a duplicate-free walk no section gets two rows |
| `AdminPermissions.InsertedRowsMatchMap` | src/components/AdminPermissionsDialog.tsx:96-106 | for a map over the section list, a section has an inserted row exactly when it is a key, at most one, with the entry's value and the admin's id |
| `AdminPermissions.WithDefaults` | src/components/AdminPermissionsDialog.tsx:75-79 | what a fetch shows for stored values: the value where stored, `true` elsewhere; a full map is shown as itself |
| `AdminPermissions.SaveThenFetch` | src/components/AdminPermissionsDialog.tsx:93-106 | saving any map and fetching again yields its values, with `true` for the sections it lacks; a full map comes back unchanged |
| `AdminPermissions.FetchInserted` | src/components/AdminPermissionsDialog.tsx:75-106 | fetching only the inserted rows gives the saved values with the default elsewhere |
| `AdminPermissions.SaveKeepsOtherAdmins` | src/components/AdminPermissionsDialog.tsx:93 | a save leaves every other admin's rows as they were |
| `AdminPermissions.StaleAfterFailedDelete` | src/components/AdminPermissionsDialog.tsx:92-93 | when the ignored delete fails and the old rows come back first, the next fetch still returns the old map |
| `AdminPermissions.FreshRowsFirstAfterFailedDelete` | src/components/AdminPermissionsDialog.tsx:68-106 | when the ignored delete fails and the new rows come back first, the next fetch returns the saved full map, so the unordered select decides the outcome |
| `Backoffice.Store.SavePermissions` | src/components/AdminPermissionsDialog.tsx:89-125 | for a map over the section list (the dialog's only kind): delete (result ignored) then insert; when both succeed, the next fetch shows the map's values with the default elsewhere, and in every case other admins' rows are unchanged |
| `Dialogs.PermissionsDialog.Fetch` | src/components/AdminPermissionsDialog.tsx:65-87 | a successful fetch sets the switches to the fetched map over all sections |
| `Dialogs.PermissionsDialog.Toggle` | src/components/AdminPermissionsDialog.tsx:149-157 | a rendered switch flips and the switches stay within the section list |
| `Dialogs.PermissionsDialog.Save` | src/components/AdminPermissionsDialog.tsx:89-125 | the stored rows become the kept rows plus the inserted ones as in the store's save, the toast follows the insert, a success closes the dialog, other admins' rows never change, and a fully successful save is read back with the default for missing switches, and unchanged after a fetch |
| `AdminList.NextStatus` | src/components/AdminList.tsx:67 | `frozen` exactly when the shown status is `active`, otherwise `active` |
| `AdminList.ToggleTwice` | src/components/AdminList.tsx:67-73 | two toggles return `active` to `active` and `frozen` to `frozen` |
| `AdminList.CreatedAtKey` | src/components/AdminList.tsx:47 | the sort key is each admin's `created_at` |
| `AdminList.ListOrder` | src/components/AdminList.tsx:44-47 | every admin once, newest first |
| `Backoffice.Store.ToggleAdminStatus` | src/components/AdminList.tsx:66-90 | writes the next status into that admin only, and only its status |
| `Backoffice.Store.DeleteAdmin` | src/components/AdminList.tsx:92-118 | with no admin picked nothing happens; a success removes exactly that admin |
| `ProtectedRoute.Decide` | src/components/ProtectedRoute.tsx:60-76 | loading first, then no session redirects to `/auth`, `isAdmin === false` to `/unauthorized`, otherwise the children |
| `ProtectedRoute.HasAdminRole` | src/components/ProtectedRoute.tsx:44-51 | true iff an `admin` role row exists for the user |
| `ProtectedRoute.AdmittedIffAdmin` | src/components/ProtectedRoute.tsx:51-76 | after the role check, the children render exactly for admins |
| `ProtectedRoute.UncheckedSessionAdmitted` | src/components/ProtectedRoute.tsx:72 | with the check still pending and loading off, the children render |
| `ProtectedRoute.RouteGuard.constructor` | src/components/ProtectedRoute.tsx:11-13 | starts loading with no session |
| `ProtectedRoute.RouteGuard.OnAuthStateChange` | src/components/ProtectedRoute.tsx:17-27 | no session ends loading with a redirect to `/auth`; a session starts a role check |
| `ProtectedRoute.RouteGuard.OnInitialSession` | src/components/ProtectedRoute.tsx:30-37 | the same, except that `isAdmin` is left alone |
| `ProtectedRoute.RouteGuard.CompleteRoleCheck` | src/components/ProtectedRoute.tsx:42-58 | `isAdmin` is the lookup's answer, false on error; loading ends |
| `Dashboard.StatusIds` | src/pages/Dashboard.tsx:43-49 | the rows of one status, soft-deleted ones included |
| `Dashboard.ComputeStats` | src/pages/Dashboard.tsx:34-57 | `listed` counts every row; the five counts plus `worklist` and `published` add up to `listed` |
| `Dashboard.StatusCountsPartition` | src/pages/Dashboard.tsx:43-52 | the seven status counts add up to the number of rows |
| `Dashboard.WorkloadIds` | src/pages/Dashboard.tsx:62-72 | an admin's workload is worklist rows assigned to it |
| `Dashboard.Workloads` | src/pages/Dashboard.tsx:69-72 | one entry per loaded admin with its code and count, none when no admins are loaded |
| `Dashboard.WorkloadsWithinWorklist` | src/pages/Dashboard.tsx:59-77 | the workloads of distinct admins add up to at most the worklist count |
| `DataBlock.SearchResults` | src/pages/DataBlock.tsx:19-34 | no data for a blank query or a failed query; otherwise exactly the matching non-deleted rows |
| `DataBlock.FailedSearchShowsNothing` | src/pages/DataBlock.tsx:24-31 | a query the backend rejects shows neither the table nor the "no products" notice |
| `DataBlock.Panel` | src/pages/DataBlock.tsx:107-147 | the results table exactly for a non-empty query with results, the empty notice exactly for none |
| `DataBlock.BlankQueryShowsNothing` | src/pages/DataBlock.tsx:22-33 | a whitespace-only query shows neither table nor notice |
| `DataBlock.SearchSkipsDeleted` | src/pages/DataBlock.tsx:27 | a soft-deleted row is never a search result |
| `DataBlock.TopLevel` | src/pages/DataBlock.tsx:39-42 | the categories without a parent |
| `DataBlock.SubCategories` | src/pages/DataBlock.tsx:63-66 | the categories with a parent |
| `DataBlock.TabsPartition` | src/pages/DataBlock.tsx:36-82 | the two tabs partition all categories |
| `DataBlock.ProductCount` | src/pages/DataBlock.tsx:46-55 | the count of non-deleted rows of the category is at most the table size |
| `DataBlock.ZeroCountOnlyDeletedRefs` | src/pages/DataBlock.tsx:46-55 | a count of 0 iff every row still referencing the category is soft-deleted |
| `DataBlock.SoftDeleteLowersCount` | src/pages/DataBlock.tsx:46-55 | soft-deleting a live row lowers its category's count by one and no other |
| `DataBlock.CategoryStats` | src/pages/DataBlock.tsx:53-56 | one count per top-level category |
| `DataBlock.SubcategoryStats` | src/pages/DataBlock.tsx:77-80 | one count per subcategory |
| `DataBlock.ParentLabel` | src/pages/DataBlock.tsx:206 | the parent's name, or "N/A" when there is none or it is empty |
| `StatusBadge.ColorClass` | src/components/StatusBadge.tsx:30 | the table's class for a known status, "" for any other |
| `StatusBadge.Label` | src/components/StatusBadge.tsx:18-31 | the table's label for a known status; no text for a name inherited from `Object.prototype`; the upper-cased text for any other |
| `StatusBadge.TablesCoverStatuses` | src/components/StatusBadge.tsx:8-26 | both tables have the same keys: the seven stage texts |
| `StatusBadge.LabelOfStage` | src/components/StatusBadge.tsx:18-26 | each stage's label and a non-empty colour class |
| `StatusBadge.UnknownStatusShownUpperCased` | src/components/StatusBadge.tsx:30-31 | an unknown status has no colour class; it has an upper-cased label unless it is an inherited object member, which shows no text |

## Left out

- The Supabase client, its filter language and PostgREST row limits. Each query is a set comprehension over the table; each statement's success is a boolean parameter.
- The `ilike` search patterns of the Data Block page. They are the parameter `matches` of `DataBlock.SearchResults`, because `%` and `_` in user input are database pattern semantics. Which query texts break the unescaped `.or(...)` filter (`,`, `(`, `)`) is not modelled either; the backend's answer is the parameter `queryOk`.
- The activity logger's lookups (`getUser`, the admin row by e-mail). The admin it finds is the parameter `actor` of `Backoffice.Store.Review`.
- React Query caching, invalidation and refetching, toasts beyond their text, JSX, routing and the `loading`/`saving` spinners. Concurrency and interleaving between operators are out too.
- The dialog library's own behaviour. An alert-dialog action button also closes its dialog, and that is not modelled; the dialog classes follow only the component code.
- `Backoffice.Store.DeleteCategory`: it does not model the backend's error text after the "Failed to delete category: " prefix. It also does not model whether the database refuses to delete a category that soft-deleted rows still reference: the `deleteOk` parameter stands for that.
- `Backoffice.Store.DeleteBrand`: it shows `BrandDeleteFailed` for a backend error. The component shows the error's own message when the error is an `Error` instance.
- `StatusBadge.Label`: upper-cases ASCII letters only. JavaScript's `toUpperCase` also maps other letters. An inherited `Object.prototype` name gives `None`. The model does not tell a function, which renders nothing, from `__proto__`, for which React refuses to render the badge.
- `Text.IsUuid`: it checks only the 8-4-4-4-12 hexadecimal shape. zod's UUID pattern also checks the version and variant digits.
- `AdminPermissions.RowsToInsert`: it emits rows in section-list order, not the object's key order. While each section has at most one row for the admin, `find` reads that row, so the order does not change what is fetched. The rows come from a walk over the section list, so `Backoffice.Store.SavePermissions` requires the map's keys to lie in that list. The dialog's `Valid()` keeps that invariant, because the map is filled from the list and only listed switches are rendered.
- `DeletedListings.BadgeStatus`: it takes the raw `status` text, because the column is plain text in the database. The rows the modelled pages write always hold a non-empty stage name, so the `cpv` fallback applies only to rows written elsewhere.
- `AdminPermissions.StaleAfterFailedDelete`: the permissions table is a sequence fetched in insertion order. The select has no `.order` and the database promises none. After a failed delete each section has two rows, so the lemma covers only the old-rows-first order. `AdminPermissions.FreshRowsFirstAfterFailedDelete` covers the opposite order; other interleavings are not modelled.
- Timestamps are opaque integers (`Stamp`). They are only compared and never formatted.
- The `create-admin` function, admin privileges and activity pages, the trend analysis, draft, unauthorized and card components. These are forms, display or foreign API calls.
- The move to `published` is out because no page in the repository performs it.
