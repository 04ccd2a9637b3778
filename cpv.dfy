/**
 * The CPV page: listings created and pending validation, and the details
 * form that moves one of them to `assign`.
 */
module Cpv {
  import opened Types
  import opened Text
  import ListingTable

  const TitleRequired := "Title is required"
  const TitleTooLong := "Title must be less than 300 characters"
  const DescriptionTooLong := "Description must be less than 5000 characters"

  /** The validated form; `description` is None where zod's output holds `undefined`. */
  datatype Details = Details(title: string, description: Option<string>)

  /** `.eq("status", "cpv").is("deleted_at", null)` */
  function View(t: Listings): (v: set<Id>)
    ensures forall k :: k in v <==> k in t && t[k].status == cpv && t[k].deletedAt.None?
  {
    ListingTable.StageView(t, cpv)
  }

  /**
   * `listingDetailsSchema.parse({ title, description: description || undefined })`:
   * the trimmed title must be 1 to 300 UTF-16 units long; an empty description
   * field becomes `undefined` and passes, any other is trimmed and may be at
   * most 5000 units long. The title's issue comes first.
   */
  function ParseDetails(title: string, description: string): (r: Parsed<Details>)
    ensures r.Valid? <==> !AllTrimmable(title) && Utf16Length(Trim(title)) <= 300
                          && (description == [] || Utf16Length(Trim(description)) <= 5000)
    ensures r.Valid? ==> r.value.title == Trim(title) && IsTrimmed(r.value.title)
    ensures r.Valid? ==> (r.value.description == None <==> description == [])
    ensures r.Valid? && description != [] ==> r.value.description == Some(Trim(description))
    ensures AllTrimmable(title) ==> r == Invalid(TitleRequired)
    ensures !AllTrimmable(title) && Utf16Length(Trim(title)) > 300 ==> r == Invalid(TitleTooLong)
    ensures (!AllTrimmable(title) && Utf16Length(Trim(title)) <= 300
             && description != [] && Utf16Length(Trim(description)) > 5000)
            ==> r == Invalid(DescriptionTooLong)
  {
    var t := Trim(title);
    var d := if description == [] then None else Some(Trim(description));
    if Utf16Length(t) < 1 then Invalid(TitleRequired)
    else if Utf16Length(t) > 300 then Invalid(TitleTooLong)
    else if d.Some? && Utf16Length(d.value) > 5000 then Invalid(DescriptionTooLong)
    else Valid(Details(t, d))
  }

  /**
   * Editing a listing again with the details it was given reproduces them,
   * except that a description made only of blanks was stored as "" and now
   * reads as no description.
   */
  lemma ParseDetailsStable(title: string, description: string)
    requires ParseDetails(title, description).Valid?
    ensures var d := ParseDetails(title, description).value;
            ParseDetails(d.title, d.description.GetOr("")) ==
              Valid(if d.description == Some([]) then d.(description := None) else d)
  {
    TrimIdempotent(title);
    TrimIdempotent(description);
  }

  /** Any whitespace-only description passes and is written as the empty text. */
  lemma BlankDescriptionStoredEmpty(title: string, description: string)
    requires ParseDetails(title, "").Valid?
    requires description != [] && AllTrimmable(description)
    ensures ParseDetails(title, description) == Valid(Details(Trim(title), Some([])))
  {
    TrimEmptyIff(description);
  }
}
