/**
 * The backend tables the back office reads and writes, and the mutation each
 * page runs against them. Each method is one handler or `mutationFn` of a
 * page: the backend's answer to each statement is a boolean parameter
 * (`...Ok`), and so are the signed-in user, the clock and the ids the backend
 * generates. A statement that fails changes nothing; the statements of one
 * handler are not one transaction, so a later failure does not undo an
 * earlier write. The returned `Outcome` is the toast the page shows.
 */
module Backoffice {
  import opened Types
  import opened Pipeline
  import ListingTable
  import CreateNew
  import Cpv
  import Assign
  import Worklist
  import Nr
  import Np
  import DeleteCategoryButton
  import DeleteBrandButton
  import AdminPermissions
  import AdminList

  /** The toast a handler ends with. */
  datatype Outcome =
    | Done(message: string)       // the success toast
    | Rejected(message: string)   // a validation message; nothing was written
    | Failed(message: string)     // the page's error toast after a backend error
    | Unreported                  // a backend error the page shows nothing for

  /** The Create New toasts of `handleCreateListing`. */
  const SignInRequired := "Authentication error"
  const ListingCreateFailed := "Error creating listing"
  const ListingCreated := "Listing created and moved to CPV"

  /** The category toast's prefix; the error's own text follows it. */
  const CategoryDeleteFailed := "Failed to delete category: "

  /** The brand toast for an error without a message of its own. */
  const BrandDeleteFailed := "Failed to delete brand"

  /** The success toast of a category delete. */
  function CategoryDeleted(categoryName: string): string
  {
    "Category \"" + categoryName + "\" deleted successfully"
  }

  /** The success toast of a brand delete. */
  function BrandDeleted(brandName: string): string
  {
    "Brand \"" + brandName + "\" deleted successfully"
  }

  /**
   * Updates filter by id alone. A CPV form still open on a row that has
   * meanwhile reached `nr` sends it back to `assign`, which is no edge of the
   * pipeline: the edges hold only for rows taken from the page's own view.
   */
  lemma StaleDetailsEditLeavesPipeline(t: Listings, id: Id, title: string, description: Option<string>)
    requires id in t && t[id].status == nr
    ensures ListingTable.SetDetails(t, id, title, description)[id].status == assign
    ensures !Edge(nr, assign)
  {
  }

  class Store {
    var listings: Listings
    var categories: map<Id, Category>
    var brands: map<Id, Brand>
    var admins: map<Id, Admin>
    var permissions: seq<PermissionRow>
    var activityLog: seq<LogEntry>

    constructor()
      ensures listings == map[] && categories == map[] && brands == map[]
      ensures admins == map[] && permissions == [] && activityLog == []
    {
      listings := map[];
      categories := map[];
      brands := map[];
      admins := map[];
      permissions := [];
      activityLog := [];
    }

    /**
     * Create New, `handleCreateListing`: validate, require a signed-in user,
     * insert a `cpv` row. `newId` is the id the backend generates; an insert
     * whose id is taken fails like any other insert.
     */
    method CreateListing(productName: string, categoryId: string, user: Option<Id>, newId: Id, insertOk: bool)
      returns (o: Outcome)
      modifies this`listings
      ensures ListingTable.NoNewPublished(old(listings), listings)
      ensures var p := CreateNew.ParseListing(productName, categoryId);
        p.Invalid? ==> o == Rejected(p.message) && listings == old(listings)
      ensures CreateNew.ParseListing(productName, categoryId).Valid? && user.None? ==>
        o == Failed(SignInRequired) && listings == old(listings)
      ensures CreateNew.ParseListing(productName, categoryId).Valid? && user.Some? && (!insertOk || newId in old(listings)) ==>
        o == Failed(ListingCreateFailed) && listings == old(listings)
      ensures var p := CreateNew.ParseListing(productName, categoryId);
        p.Valid? && user.Some? && insertOk && newId !in old(listings) ==>
          o == Done(ListingCreated)
          && listings == old(listings)[newId := CreateNew.NewListingRow(p.value, user.value)]
      ensures o.Done? ==> newId in Cpv.View(listings) && newId !in old(listings)
    {
      var p := CreateNew.ParseListing(productName, categoryId);
      if p.Invalid? {
        return Rejected(p.message);
      }
      if user.None? {
        return Failed(SignInRequired);
      }
      if !insertOk || newId in listings {
        return Failed(ListingCreateFailed);
      }
      var row := CreateNew.NewListingRow(p.value, user.value);
      listings := listings[newId := row];
      assert listings[newId].status == cpv && listings[newId].deletedAt.None?;
      assert newId in Cpv.View(listings);
      forall k | k in listings && listings[k].status == published
        ensures k in old(listings) && old(listings)[k].status == published
      {
        assert k != newId;
      }
      o := Done(ListingCreated);
    }

    /** Create New, `handleCreateCategory`: validate the name and insert a top-level category. */
    method CreateCategory(name: string, newId: Id, insertOk: bool) returns (o: Outcome)
      modifies this`categories
      ensures var p := CreateNew.ParseCategoryName(name);
        if p.Invalid? then o == Rejected(p.message) && categories == old(categories)
        else if !insertOk || newId in old(categories) then o == Failed("Error creating category") && categories == old(categories)
        else o == Done("Category created successfully")
             && categories == old(categories)[newId := CreateNew.NewCategoryRow(p.value)]
    {
      var p := CreateNew.ParseCategoryName(name);
      if p.Invalid? {
        return Rejected(p.message);
      }
      if !insertOk || newId in categories {
        return Failed("Error creating category");
      }
      categories := categories[newId := CreateNew.NewCategoryRow(p.value)];
      o := Done("Category created successfully");
    }

    /**
     * CPV, `updateMutation`: validate the details form, then write title,
     * description and `status = assign` into the row with that id.
     */
    method SubmitDetails(id: Id, title: string, description: string, updateOk: bool) returns (o: Outcome)
      modifies this`listings
      ensures ListingTable.NoNewPublished(old(listings), listings)
      ensures var p := Cpv.ParseDetails(title, description);
        if p.Invalid? then o == Rejected(p.message) && listings == old(listings)
        else if !updateOk then o == Failed("Error updating listing") && listings == old(listings)
        else o == Done("Listing updated and moved to Assign")
             && listings == ListingTable.SetDetails(old(listings), id, p.value.title, p.value.description)
      ensures o.Done? && id in old(Cpv.View(listings)) ==>
        Edge(cpv, listings[id].status) && id in Assign.View(listings)
    {
      var p := Cpv.ParseDetails(title, description);
      if p.Invalid? {
        return Rejected(p.message);
      }
      if !updateOk {
        return Failed("Error updating listing");
      }
      listings := ListingTable.SetDetails(listings, id, p.value.title, p.value.description);
      o := Done("Listing updated and moved to Assign");
    }

    /**
     * Assign, `assignMutation`: write the chosen admin and `status = worklist`.
     * The button is not disabled, so `adminId` may still be the empty initial value.
     */
    method AssignListing(id: Id, adminId: string, updateOk: bool) returns (o: Outcome)
      modifies this`listings
      ensures ListingTable.NoNewPublished(old(listings), listings)
      ensures !updateOk ==> o == Unreported && listings == old(listings)
      ensures updateOk ==> o == Done("Listing assigned to admin's worklist")
                           && listings == ListingTable.SetAssignee(old(listings), id, adminId)
      ensures o.Done? && id in old(Assign.View(listings)) ==>
        Edge(assign, listings[id].status) && id in Worklist.View(listings)
    {
      if !updateOk {
        return Unreported;
      }
      listings := ListingTable.SetAssignee(listings, id, adminId);
      o := Done("Listing assigned to admin's worklist");
    }

    /** Worklist, `submitMutation`: `status = nr`. */
    method SubmitWork(id: Id, updateOk: bool) returns (o: Outcome)
      modifies this`listings
      ensures ListingTable.NoNewPublished(old(listings), listings)
      ensures !updateOk ==> o == Unreported && listings == old(listings)
      ensures updateOk ==> o == Done("Listing submitted to NR for review")
                           && listings == ListingTable.SetStatus(old(listings), id, nr)
      ensures o.Done? && id in old(Worklist.View(listings)) ==>
        Edge(worklist, listings[id].status) && id in Nr.View(listings)
    {
      if !updateOk {
        return Unreported;
      }
      listings := ListingTable.SetStatus(listings, id, nr);
      o := Done("Listing submitted to NR for review");
    }

    /**
     * NR, `reviewMutation`: write the decision, then log it. The logger
     * resolves the acting admin (`actor`, None when there is no signed-in user
     * or no admin row for the user's e-mail) and swallows its own failures,
     * so the review succeeds whether or not an entry was written.
     */
    method Review(id: Id, decision: Status, actor: Option<Id>, updateOk: bool, logOk: bool) returns (o: Outcome)
      requires Nr.IsDecision(decision)
      modifies this`listings, this`activityLog
      ensures ListingTable.NoNewPublished(old(listings), listings)
      ensures !updateOk ==> o == Unreported && listings == old(listings) && activityLog == old(activityLog)
      ensures updateOk ==> listings == ListingTable.SetStatus(old(listings), id, decision)
      ensures updateOk ==> o == Done(if decision == pr then "Listing passed review" else "Listing rejected, moved to NP")
      ensures updateOk && actor.Some? && logOk ==>
        activityLog == old(activityLog) + [Nr.ReviewEntry(actor.value, id, decision)]
      ensures !(updateOk && actor.Some? && logOk) ==> activityLog == old(activityLog)
      ensures o.Done? && id in old(Nr.View(listings)) ==> Edge(nr, listings[id].status)
    {
      if !updateOk {
        return Unreported;
      }
      listings := ListingTable.SetStatus(listings, id, decision);
      if actor.Some? && logOk {
        activityLog := activityLog + [Nr.ReviewEntry(actor.value, id, decision)];
      }
      o := Done(if decision == pr then "Listing passed review" else "Listing rejected, moved to NP");
    }

    /** NP, `resubmitMutation`: `status = nr` again. */
    method Resubmit(id: Id, updateOk: bool) returns (o: Outcome)
      modifies this`listings
      ensures ListingTable.NoNewPublished(old(listings), listings)
      ensures !updateOk ==> o == Unreported && listings == old(listings)
      ensures updateOk ==> o == Done("Listing resubmitted to NR for review")
                           && listings == ListingTable.SetStatus(old(listings), id, nr)
      ensures o.Done? && id in old(Np.View(listings)) ==> Edge(np, listings[id].status)
    {
      if !updateOk {
        return Unreported;
      }
      listings := ListingTable.SetStatus(listings, id, nr);
      o := Done("Listing resubmitted to NR for review");
    }

    /** `DeleteListingButton`'s mutation: `deleted_at = now`. */
    method SoftDelete(id: Id, now: Stamp, updateOk: bool) returns (o: Outcome)
      modifies this`listings
      ensures ListingTable.NoNewPublished(old(listings), listings)
      ensures !updateOk ==> o == Failed("Error deleting listing") && listings == old(listings)
      ensures updateOk ==> o == Done("Listing moved to deleted listings")
                           && listings == ListingTable.SetDeletedAt(old(listings), id, Some(now))
      ensures updateOk && id in old(listings) ==>
        id in ListingTable.DeletedIds(listings) && forall s :: id !in ListingTable.StageView(listings, s)
    {
      if !updateOk {
        return Failed("Error deleting listing");
      }
      listings := ListingTable.SetDeletedAt(listings, id, Some(now));
      o := Done("Listing moved to deleted listings");
    }

    /** Deleted Listings, `restoreMutation`: `deleted_at = null`; the status is untouched. */
    method Restore(id: Id, updateOk: bool) returns (o: Outcome)
      modifies this`listings
      ensures ListingTable.NoNewPublished(old(listings), listings)
      ensures !updateOk ==> o == Unreported && listings == old(listings)
      ensures updateOk ==> o == Done("Listing restored successfully")
                           && listings == ListingTable.SetDeletedAt(old(listings), id, None)
      ensures updateOk && id in old(listings) ==>
        id in ListingTable.StageView(listings, old(listings[id].status))
    {
      if !updateOk {
        return Unreported;
      }
      listings := ListingTable.SetDeletedAt(listings, id, None);
      o := Done("Listing restored successfully");
    }

    /** Deleted Listings, `permanentDeleteMutation`: the row is removed. */
    method PurgeListing(id: Id, deleteOk: bool) returns (o: Outcome)
      modifies this`listings
      ensures ListingTable.NoNewPublished(old(listings), listings)
      ensures !deleteOk ==> o == Unreported && listings == old(listings)
      ensures deleteOk ==> o == Done("Listing permanently deleted")
                           && listings == ListingTable.Purge(old(listings), id)
    {
      if !deleteOk {
        return Unreported;
      }
      listings := ListingTable.Purge(listings, id);
      o := Done("Listing permanently deleted");
    }

    /**
     * `DeleteCategoryButton`'s `deleteMutation`. Its own guard throws when a
     * positive count comes without a replacement. With a replacement, every
     * row of the category is moved to it first; the category row is deleted
     * next, and a failure there leaves the rows moved.
     */
    method DeleteCategory(categoryId: Id, categoryName: string, productCount: int, replacement: string,
                          updateOk: bool, deleteOk: bool) returns (o: Outcome)
      modifies this`listings, this`categories
      ensures ListingTable.NoNewPublished(old(listings), listings)
      ensures DeleteCategoryButton.MissingReplacement(productCount, replacement) ==>
        o == Failed(CategoryDeleteFailed + DeleteCategoryButton.SelectReplacement)
        && listings == old(listings) && categories == old(categories)
      ensures DeleteCategoryButton.Reassigns(productCount, replacement) && !updateOk ==>
        o == Failed(CategoryDeleteFailed) && listings == old(listings) && categories == old(categories)
      ensures var moved := DeleteCategoryButton.Reassigns(productCount, replacement);
        !DeleteCategoryButton.MissingReplacement(productCount, replacement) && (!moved || updateOk) ==>
          listings == (if moved then ListingTable.ReassignCategory(old(listings), categoryId, replacement) else old(listings))
          && (deleteOk ==> o == Done(CategoryDeleted(categoryName))
                           && categories == old(categories) - {categoryId})
          && (!deleteOk ==> o == Failed(CategoryDeleteFailed) && categories == old(categories))
      ensures o.Done? && DeleteCategoryButton.Reassigns(productCount, replacement) && replacement != categoryId ==>
        categoryId !in categories && forall k :: k in listings ==> listings[k].categoryId != categoryId
    {
      if DeleteCategoryButton.MissingReplacement(productCount, replacement) {
        return Failed(CategoryDeleteFailed + DeleteCategoryButton.SelectReplacement);
      }
      if DeleteCategoryButton.Reassigns(productCount, replacement) {
        if !updateOk {
          return Failed(CategoryDeleteFailed);
        }
        listings := ListingTable.ReassignCategory(listings, categoryId, replacement);
      }
      if !deleteOk {
        return Failed(CategoryDeleteFailed);
      }
      categories := categories - {categoryId};
      o := Done(CategoryDeleted(categoryName));
    }

    /** `DeleteBrandButton`'s delete: the same steps against `brand_id` and `brands`. */
    method DeleteBrand(brandId: Id, brandName: string, productCount: int, replacement: string,
                       updateOk: bool, deleteOk: bool) returns (o: Outcome)
      modifies this`listings, this`brands
      ensures ListingTable.NoNewPublished(old(listings), listings)
      ensures DeleteBrandButton.MissingReplacement(productCount, replacement) ==>
        o == Failed(DeleteBrandButton.SelectReplacement)
        && listings == old(listings) && brands == old(brands)
      ensures DeleteBrandButton.Reassigns(productCount, replacement) && !updateOk ==>
        o == Failed(BrandDeleteFailed) && listings == old(listings) && brands == old(brands)
      ensures var moved := DeleteBrandButton.Reassigns(productCount, replacement);
        !DeleteBrandButton.MissingReplacement(productCount, replacement) && (!moved || updateOk) ==>
          listings == (if moved then ListingTable.ReassignBrand(old(listings), brandId, replacement) else old(listings))
          && (deleteOk ==> o == Done(BrandDeleted(brandName))
                           && brands == old(brands) - {brandId})
          && (!deleteOk ==> o == Failed(BrandDeleteFailed) && brands == old(brands))
      ensures o.Done? && DeleteBrandButton.Reassigns(productCount, replacement) && replacement != brandId ==>
        brandId !in brands && forall k :: k in listings ==> listings[k].brandId != Some(brandId)
    {
      if DeleteBrandButton.MissingReplacement(productCount, replacement) {
        return Failed(DeleteBrandButton.SelectReplacement);
      }
      if DeleteBrandButton.Reassigns(productCount, replacement) {
        if !updateOk {
          return Failed(BrandDeleteFailed);
        }
        listings := ListingTable.ReassignBrand(listings, brandId, replacement);
      }
      if !deleteOk {
        return Failed(BrandDeleteFailed);
      }
      brands := brands - {brandId};
      o := Done(BrandDeleted(brandName));
    }

    /**
     * `AdminList.handleToggleStatus`: the new status is computed from
     * `shownStatus`, the status in the list as last fetched, and written by id.
     */
    method ToggleAdminStatus(id: Id, shownStatus: string, updateOk: bool) returns (o: Outcome)
      modifies this`admins
      ensures !updateOk ==> o == Failed("Error updating admin status") && admins == old(admins)
      ensures updateOk ==> admins.Keys == old(admins).Keys
      ensures updateOk && id in old(admins) ==>
        admins == old(admins)[id := old(admins)[id].(status := AdminList.NextStatus(shownStatus))]
      ensures updateOk && id !in old(admins) ==> admins == old(admins)
      ensures updateOk ==> o == Done(if AdminList.NextStatus(shownStatus) == AdminList.Frozen
                                     then "Admin frozen" else "Admin activated")
    {
      if !updateOk {
        return Failed("Error updating admin status");
      }
      var next := AdminList.NextStatus(shownStatus);
      if id in admins {
        admins := admins[id := admins[id].(status := next)];
      }
      o := Done(if next == AdminList.Frozen then "Admin frozen" else "Admin activated");
    }

    /** `AdminList.handleDeleteAdmin`: nothing happens while no admin is picked. */
    method DeleteAdmin(adminToDelete: Option<Id>, deleteOk: bool) returns (o: Option<Outcome>)
      modifies this`admins
      ensures adminToDelete.None? ==> o.None? && admins == old(admins)
      ensures adminToDelete.Some? && !deleteOk ==> o == Some(Failed("Error removing admin")) && admins == old(admins)
      ensures adminToDelete.Some? && deleteOk ==> o == Some(Done("Admin removed"))
                                                  && admins == old(admins) - {adminToDelete.value}
    {
      if adminToDelete.None? {
        return None;
      }
      if !deleteOk {
        return Some(Failed("Error removing admin"));
      }
      admins := admins - {adminToDelete.value};
      o := Some(Done("Admin removed"));
    }

    /**
     * `handleSavePermissions`: delete the admin's rows, ignoring the result,
     * then insert one row per entry of `m`. Only the insert's error is reported.
     */
    method SavePermissions(adminId: Id, m: map<string, bool>, deleteOk: bool, insertOk: bool) returns (o: Outcome)
      requires m.Keys <= AdminPermissions.SectionSet
      modifies this`permissions
      ensures var kept := if deleteOk then AdminPermissions.RowsNotOf(old(permissions), adminId) else old(permissions);
        permissions == kept + (if insertOk then AdminPermissions.RowsToInsert(adminId, AdminPermissions.AvailableSections, m) else [])
      ensures o == if insertOk then Done("Permissions updated") else Failed("Error updating permissions")
      ensures deleteOk && insertOk ==>
        AdminPermissions.Fetched(AdminPermissions.RowsOf(permissions, adminId)) == AdminPermissions.WithDefaults(m)
      ensures deleteOk && insertOk && m.Keys == AdminPermissions.SectionSet ==>
        AdminPermissions.Fetched(AdminPermissions.RowsOf(permissions, adminId)) == m
      ensures forall other :: other != adminId ==>
        AdminPermissions.RowsOf(permissions, other) == AdminPermissions.RowsOf(old(permissions), other)
    {
      ghost var before := permissions;
      if deleteOk {
        permissions := AdminPermissions.RowsNotOf(permissions, adminId);
        forall other | other != adminId
          ensures AdminPermissions.RowsOf(permissions, other) == AdminPermissions.RowsOf(before, other)
        {
          AdminPermissions.RowsOfRowsNotOf(before, adminId, other);
        }
      }
      if !insertOk {
        return Failed("Error updating permissions");
      }
      ghost var kept := permissions;
      var inserted := AdminPermissions.RowsToInsert(adminId, AdminPermissions.AvailableSections, m);
      permissions := permissions + inserted;
      forall other | other != adminId
        ensures AdminPermissions.RowsOf(permissions, other) == AdminPermissions.RowsOf(before, other)
      {
        AdminPermissions.RowsOfAppend(kept, inserted, other);
        AdminPermissions.RowsOfForeignRows(inserted, other);
      }
      if deleteOk {
        assert permissions == AdminPermissions.SavedRows(before, adminId, m);
        AdminPermissions.SaveThenFetch(before, adminId, m);
      }
      o := Done("Permissions updated");
    }
  }
}
