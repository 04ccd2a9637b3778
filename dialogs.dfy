/**
 * The components that keep dialog state of their own and run a store
 * mutation from it: the listing delete button, the permanent-delete dialog of
 * the Deleted Listings page, the category and brand delete dialogs, and the
 * permissions dialog.
 */
module Dialogs {
  import opened Types
  import opened Backoffice
  import ListingTable
  import DeleteCategoryButton
  import DeleteBrandButton
  import AdminPermissions

  /** `DeleteListingButton`: a trash button that asks before soft-deleting. */
  class DeleteListingButton {
    const listingId: Id
    var showDialog: bool

    constructor(listingId: Id)
      ensures this.listingId == listingId && !showDialog
    {
      this.listingId := listingId;
      showDialog := false;
    }

    method Click()
      modifies this
      ensures showDialog
    {
      showDialog := true;
    }

    /** The dialog's Cancel, through `onOpenChange`. */
    method Cancel()
      modifies this
      ensures !showDialog
    {
      showDialog := false;
    }

    /** The dialog's Delete: soft delete; only a success closes the dialog. */
    method Confirm(store: Store, now: Stamp, updateOk: bool) returns (o: Outcome)
      requires showDialog
      modifies this, store`listings
      ensures updateOk ==> store.listings == ListingTable.SetDeletedAt(old(store.listings), listingId, Some(now))
                           && !showDialog && o.Done?
      ensures !updateOk ==> store.listings == old(store.listings) && showDialog == old(showDialog) && o.Failed?
    {
      o := store.SoftDelete(listingId, now, updateOk);
      if o.Done? {
        showDialog := false;
      }
    }
  }

  /** The Deleted Listings page's `deleteId`: the row whose permanent delete awaits confirmation. */
  class DeletedListingsPage {
    var deleteId: Option<Id>

    constructor()
      ensures deleteId == None
    {
      deleteId := None;
    }

    /** "Delete Forever" on a row opens the dialog for it. */
    method AskPurge(id: Id)
      modifies this
      ensures deleteId == Some(id)
    {
      deleteId := Some(id);
    }

    /** `onOpenChange={() => setDeleteId(null)}` */
    method Dismiss()
      modifies this
      ensures deleteId == None
    {
      deleteId := None;
    }

    /** `deleteId && permanentDeleteMutation.mutate(deleteId)`; a success clears `deleteId`. */
    method ConfirmPurge(store: Store, deleteOk: bool)
      modifies this, store`listings
      ensures old(deleteId).None? ==> store.listings == old(store.listings) && deleteId == None
      ensures old(deleteId).Some? && deleteOk ==>
        store.listings == ListingTable.Purge(old(store.listings), old(deleteId).value) && deleteId == None
      ensures old(deleteId).Some? && !deleteOk ==> store.listings == old(store.listings) && deleteId == old(deleteId)
    {
      if deleteId.Some? {
        var o := store.PurgeListing(deleteId.value, deleteOk);
        if o.Done? {
          deleteId := None;
        }
      }
    }
  }

  /** `DeleteCategoryButton`: the button, its replacement dialog and the chosen replacement. */
  class CategoryDeleteDialog {
    const categoryId: Id
    const categoryName: string
    const productCount: int
    var isOpen: bool
    var replacement: string

    constructor(categoryId: Id, categoryName: string, productCount: int)
      ensures this.categoryId == categoryId && this.categoryName == categoryName
      ensures this.productCount == productCount
      ensures !isOpen && replacement == ""
    {
      this.categoryId := categoryId;
      this.categoryName := categoryName;
      this.productCount := productCount;
      isOpen := false;
      replacement := "";
    }

    /** `handleDelete`: a count of exactly 0 deletes at once; any other count opens the dialog. */
    method Click(store: Store, deleteOk: bool) returns (o: Option<Outcome>)
      modifies this, store`listings, store`categories
      ensures productCount != 0 ==> o.None? && isOpen && replacement == old(replacement)
                                    && unchanged(store)
      ensures productCount == 0 ==> o.Some? && store.listings == old(store.listings)
      ensures productCount == 0 ==> (o == Some(Done(CategoryDeleted(categoryName))) <==> deleteOk)
      ensures productCount == 0 && deleteOk ==> store.categories == old(store.categories) - {categoryId}
                                                && !isOpen && replacement == ""
      ensures productCount == 0 && !deleteOk ==> o == Some(Failed(CategoryDeleteFailed))
                                                 && store.categories == old(store.categories)
                                                 && isOpen == old(isOpen) && replacement == old(replacement)
    {
      if DeleteCategoryButton.OnDeleteClick(productCount) == DeleteCategoryButton.DeleteNow {
        var r := Run(store, true, deleteOk);
        o := Some(r);
      } else {
        isOpen := true;
        o := None;
      }
    }

    method Choose(c: Id)
      modifies this
      ensures replacement == c && isOpen == old(isOpen)
    {
      replacement := c;
    }

    /** The dialog's Cancel: close and forget the choice. */
    method Cancel()
      modifies this
      ensures !isOpen && replacement == ""
    {
      isOpen := false;
      replacement := "";
    }

    /**
     * `handleConfirmWithReplacement`: stop with a toast while no replacement is
     * chosen, else delete. The dialog's "Replace & Delete" button is disabled
     * while no replacement is chosen, so the toast is only reachable by a call
     * that bypasses that button.
     */
    method Confirm(store: Store, updateOk: bool, deleteOk: bool) returns (o: Outcome)
      modifies this, store`listings, store`categories
      ensures DeleteCategoryButton.MissingReplacement(productCount, old(replacement)) ==>
        o == Rejected(DeleteCategoryButton.SelectReplacement) && unchanged(store) && unchanged(this)
      ensures var moved := DeleteCategoryButton.Reassigns(productCount, old(replacement));
        !DeleteCategoryButton.MissingReplacement(productCount, old(replacement)) ==>
          store.listings == (if moved && updateOk then ListingTable.ReassignCategory(old(store.listings), categoryId, old(replacement))
                             else old(store.listings))
          && o == (if (updateOk || !moved) && deleteOk then Done(CategoryDeleted(categoryName)) else Failed(CategoryDeleteFailed))
      ensures o.Done? ==> store.categories == old(store.categories) - {categoryId} && !isOpen && replacement == ""
      ensures !o.Done? ==> store.categories == old(store.categories) && isOpen == old(isOpen)
                           && replacement == old(replacement)
    {
      if replacement == "" && productCount > 0 {
        return Rejected(DeleteCategoryButton.SelectReplacement);
      }
      o := Run(store, updateOk, deleteOk);
    }

    /** `deleteMutation.mutate()` with its `onSuccess`, which closes the dialog and clears the choice. */
    method Run(store: Store, updateOk: bool, deleteOk: bool) returns (o: Outcome)
      requires !DeleteCategoryButton.MissingReplacement(productCount, replacement)
      modifies this, store`listings, store`categories
      ensures var moved := DeleteCategoryButton.Reassigns(productCount, old(replacement));
        store.listings == (if moved && updateOk then ListingTable.ReassignCategory(old(store.listings), categoryId, old(replacement))
                           else old(store.listings))
      ensures o == if (updateOk || !DeleteCategoryButton.Reassigns(productCount, old(replacement))) && deleteOk
                   then Done(CategoryDeleted(categoryName)) else Failed(CategoryDeleteFailed)
      ensures o.Done? ==> store.categories == old(store.categories) - {categoryId} && !isOpen && replacement == ""
      ensures !o.Done? ==> store.categories == old(store.categories) && isOpen == old(isOpen)
                           && replacement == old(replacement)
    {
      o := store.DeleteCategory(categoryId, categoryName, productCount, replacement, updateOk, deleteOk);
      if o.Done? {
        isOpen := false;
        replacement := "";
      }
    }
  }

  /** `DeleteBrandButton`: the button always opens the dialog, which deletes or asks for a replacement. */
  class BrandDeleteDialog {
    const brandId: Id
    const brandName: string
    const productCount: int
    var isOpen: bool
    var replacement: string

    constructor(brandId: Id, brandName: string, productCount: int)
      ensures this.brandId == brandId && this.brandName == brandName
      ensures this.productCount == productCount
      ensures !isOpen && replacement == ""
    {
      this.brandId := brandId;
      this.brandName := brandName;
      this.productCount := productCount;
      isOpen := false;
      replacement := "";
    }

    method Click()
      modifies this
      ensures isOpen && replacement == old(replacement)
    {
      isOpen := true;
    }

    method Choose(b: Id)
      modifies this
      ensures replacement == b && isOpen == old(isOpen)
    {
      replacement := b;
    }

    /** The dialog's Cancel: with a count of 0 it only closes; with a replacement list it also forgets the choice. */
    method Cancel()
      modifies this
      ensures !isOpen
      ensures replacement == if productCount == 0 then old(replacement) else ""
    {
      isOpen := false;
      if productCount != 0 {
        replacement := "";
      }
    }

    /**
     * `handleConfirmWithReplacement`; with a count of 0 the dialog's other
     * button runs the same mutation unguarded. The "Replace & Delete" button
     * is disabled while no replacement is chosen, so the guard's toast is only
     * reachable by a call that bypasses that button.
     */
    method Confirm(store: Store, updateOk: bool, deleteOk: bool) returns (o: Outcome)
      modifies this, store`listings, store`brands
      ensures DeleteBrandButton.MissingReplacement(productCount, old(replacement)) ==>
        o == Rejected(DeleteBrandButton.SelectReplacement) && unchanged(store) && unchanged(this)
      ensures var moved := DeleteBrandButton.Reassigns(productCount, old(replacement));
        !DeleteBrandButton.MissingReplacement(productCount, old(replacement)) ==>
          store.listings == (if moved && updateOk then ListingTable.ReassignBrand(old(store.listings), brandId, old(replacement))
                             else old(store.listings))
          && o == (if (updateOk || !moved) && deleteOk then Done(BrandDeleted(brandName)) else Failed(BrandDeleteFailed))
      ensures o.Done? ==> store.brands == old(store.brands) - {brandId} && !isOpen && replacement == ""
      ensures !o.Done? ==> store.brands == old(store.brands) && isOpen == old(isOpen)
                           && replacement == old(replacement)
    {
      if productCount > 0 && replacement == "" {
        return Rejected(DeleteBrandButton.SelectReplacement);
      }
      o := store.DeleteBrand(brandId, brandName, productCount, replacement, updateOk, deleteOk);
      if o.Done? {
        isOpen := false;
        replacement := "";
      }
    }
  }

  /**
   * `AdminPermissionsDialog`: the switch states of one admin, loaded from the
   * stored rows, toggled one by one and written back with a save.
   */
  class PermissionsDialog {
    const adminId: Id
    var permissions: map<string, bool>
    var loading: bool
    var open: bool

    /** The switches only ever name sections of the fixed list. */
    predicate Valid()
      reads this
    {
      permissions.Keys <= AdminPermissions.SectionSet
    }

    constructor(adminId: Id)
      ensures this.adminId == adminId && permissions == map[] && loading && open
      ensures Valid()
    {
      this.adminId := adminId;
      permissions := map[];
      loading := true;
      open := true;
    }

    /** `fetchPermissions`; a failed query leaves the switches as they were. */
    method Fetch(store: Store, queryOk: bool)
      requires Valid()
      modifies this`permissions, this`loading
      ensures Valid() && !loading
      ensures queryOk ==> permissions == AdminPermissions.Fetched(AdminPermissions.RowsOf(store.permissions, adminId))
      ensures queryOk ==> permissions.Keys == AdminPermissions.SectionSet
      ensures !queryOk ==> permissions == old(permissions)
    {
      loading := true;
      if queryOk {
        permissions := AdminPermissions.BuildPermissionsMap(AdminPermissions.RowsOf(store.permissions, adminId));
      }
      loading := false;
    }

    /** A switch of the rendered list flips. */
    method Toggle(section: string)
      requires Valid() && section in AdminPermissions.SectionSet
      modifies this`permissions
      ensures Valid()
      ensures permissions == AdminPermissions.Toggle(old(permissions), section)
      ensures permissions.Keys == old(permissions).Keys + {section}
    {
      permissions := AdminPermissions.Toggle(permissions, section);
    }

    /**
     * `handleSavePermissions`; a success closes the dialog. A save whose two
     * statements succeed makes the next fetch return these switches, with
     * any section they lack allowed; after a fetch they cover every section
     * and come back exactly.
     */
    method Save(store: Store, deleteOk: bool, insertOk: bool) returns (o: Outcome)
      requires Valid()
      modifies this`open, store`permissions
      ensures Valid() && permissions == old(permissions)
      ensures var kept := if deleteOk then AdminPermissions.RowsNotOf(old(store.permissions), adminId)
                          else old(store.permissions);
        store.permissions == kept + (if insertOk then AdminPermissions.RowsToInsert(adminId, AdminPermissions.AvailableSections, permissions)
                                     else [])
      ensures o == if insertOk then Done("Permissions updated") else Failed("Error updating permissions")
      ensures o.Done? ==> !open
      ensures !o.Done? ==> open == old(open)
      ensures forall other :: other != adminId ==>
        AdminPermissions.RowsOf(store.permissions, other) == AdminPermissions.RowsOf(old(store.permissions), other)
      ensures deleteOk && insertOk ==>
        AdminPermissions.Fetched(AdminPermissions.RowsOf(store.permissions, adminId)) == AdminPermissions.WithDefaults(permissions)
      ensures deleteOk && insertOk && permissions.Keys == AdminPermissions.SectionSet ==>
        AdminPermissions.Fetched(AdminPermissions.RowsOf(store.permissions, adminId)) == permissions
    {
      o := store.SavePermissions(adminId, permissions, deleteOk, insertOk);
      if o.Done? {
        open := false;
      }
    }
  }
}
