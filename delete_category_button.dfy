/**
 * The delete button of a category row. `productCount` is a number its caller
 * passes in; the component never counts the listings itself.
 */
module DeleteCategoryButton {
  import opened Types

  const SelectReplacement := "Please select a replacement category"

  /** What a click on the trash button does. */
  datatype ClickEffect = DeleteNow | OpenReplacementDialog

  /** `handleDelete`: with a count of exactly zero the mutation runs at once, with no dialog. */
  function OnDeleteClick(productCount: int): (e: ClickEffect)
    ensures e == DeleteNow <==> productCount == 0
  {
    if productCount == 0 then DeleteNow else OpenReplacementDialog
  }

  /** `.neq("id", categoryId)` and `.filter(cat => cat.id !== categoryId)`. */
  function Candidates(categories: map<Id, Category>, categoryId: Id): (c: set<Id>)
    ensures categoryId !in c
    ensures forall k :: k in c <==> k in categories && k != categoryId
  {
    categories.Keys - {categoryId}
  }

  /** The guard at the top of the mutation (and in `handleConfirmWithReplacement`). */
  predicate MissingReplacement(productCount: int, replacement: string) {
    productCount > 0 && replacement == ""
  }

  /** Whether the mutation reassigns listings before deleting. */
  predicate Reassigns(productCount: int, replacement: string) {
    productCount > 0 && replacement != ""
  }
}
