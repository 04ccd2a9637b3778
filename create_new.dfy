/**
 * The Create New page: the zod schemas for a new listing and a new category,
 * and the rows the two handlers insert.
 */
module CreateNew {
  import opened Types
  import opened Text

  const ProductNameRequired := "Product name is required"
  const ProductNameTooLong := "Product name must be less than 200 characters"
  const InvalidCategory := "Invalid category selected"
  const CategoryNameRequired := "Category name is required"
  const CategoryNameTooLong := "Category name must be less than 100 characters"

  datatype NewListing = NewListing(productName: string, categoryId: Id)

  /**
   * `listingSchema.parse`: the product name is trimmed and must then be 1 to
   * 200 UTF-16 units long; the category must be a UUID. The first issue is
   * the product name's when it has one, the category's otherwise.
   */
  function ParseListing(productName: string, categoryId: string): (r: Parsed<NewListing>)
    ensures r.Valid? <==> !AllTrimmable(productName) && Utf16Length(Trim(productName)) <= 200 && IsUuid(categoryId)
    ensures r.Valid? ==> r.value == NewListing(Trim(productName), categoryId) && IsTrimmed(r.value.productName)
    ensures AllTrimmable(productName) ==> r == Invalid(ProductNameRequired)
    ensures !AllTrimmable(productName) && Utf16Length(Trim(productName)) > 200 ==> r == Invalid(ProductNameTooLong)
    ensures !AllTrimmable(productName) && Utf16Length(Trim(productName)) <= 200 && !IsUuid(categoryId)
            ==> r == Invalid(InvalidCategory)
  {
    var name := Trim(productName);
    if Utf16Length(name) < 1 then Invalid(ProductNameRequired)
    else if Utf16Length(name) > 200 then Invalid(ProductNameTooLong)
    else if !IsUuid(categoryId) then Invalid(InvalidCategory)
    else Valid(NewListing(name, categoryId))
  }

  /** Parsing what the schema produced gives it back: the output is a fixed point. */
  lemma ParseListingStable(productName: string, categoryId: string)
    requires ParseListing(productName, categoryId).Valid?
    ensures ParseListing(Trim(productName), categoryId) == ParseListing(productName, categoryId)
  {
    TrimIdempotent(productName);
  }

  /** `categorySchema.parse`: the trimmed name must be 1 to 100 UTF-16 units long. */
  function ParseCategoryName(name: string): (r: Parsed<string>)
    ensures r.Valid? <==> !AllTrimmable(name) && Utf16Length(Trim(name)) <= 100
    ensures r.Valid? ==> r.value == Trim(name) && IsTrimmed(r.value)
    ensures AllTrimmable(name) ==> r == Invalid(CategoryNameRequired)
    ensures !AllTrimmable(name) && Utf16Length(Trim(name)) > 100 ==> r == Invalid(CategoryNameTooLong)
  {
    var n := Trim(name);
    if Utf16Length(n) < 1 then Invalid(CategoryNameRequired)
    else if Utf16Length(n) > 100 then Invalid(CategoryNameTooLong)
    else Valid(n)
  }

  /** A category name the schema accepts is also accepted with surrounding blanks, and trims to the same. */
  lemma {:induction false} ParseCategoryNameIgnoresPadding(p: string, name: string, q: string)
    requires AllTrimmable(p) && AllTrimmable(q) && IsTrimmed(name)
    ensures ParseCategoryName(p + name + q) == ParseCategoryName(name)
  {
    TrimUnique(p, name, q);
    TrimOfTrimmed(name);
    assert Trim(p + name + q) == Trim(name);
  }

  /** The row `handleCreateListing` inserts: the validated fields, `status = cpv` and the creator. */
  function NewListingRow(v: NewListing, user: Id): (l: Listing)
    ensures l.status == cpv && l.deletedAt == None && l.assignedTo == None
    ensures l.productName == v.productName && l.categoryId == v.categoryId && l.createdBy == user
    ensures l.title == None && l.description == None && l.brandId == None
  {
    Listing(v.productName, None, None, v.categoryId, None, cpv, None, None, user)
  }

  /** The row `handleCreateCategory` inserts carries only a name, so it is a top-level category. */
  function NewCategoryRow(name: string): (c: Category)
    ensures c.name == name && c.parentId == None
  {
    Category(name, None)
  }
}
