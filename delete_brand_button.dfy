/**
 * The delete button of a brand row. The click always opens the dialog; with
 * a count of zero the dialog offers a plain delete, otherwise a replacement.
 */
module DeleteBrandButton {
  import opened Types

  const SelectReplacement := "Please select a replacement brand"

  /** `.neq("id", brandId)` and `.filter(brand => brand.id !== brandId)`. */
  function Candidates(brands: map<Id, Brand>, brandId: Id): (c: set<Id>)
    ensures brandId !in c
    ensures forall k :: k in c <==> k in brands && k != brandId
  {
    brands.Keys - {brandId}
  }

  /** The guard at the top of the mutation (and in `handleConfirmWithReplacement`). */
  predicate MissingReplacement(productCount: int, replacement: string) {
    productCount > 0 && replacement == ""
  }

  /** Whether the mutation reassigns listings before deleting. */
  predicate Reassigns(productCount: int, replacement: string) {
    productCount > 0 && replacement != ""
  }
}
