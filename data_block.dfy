/**
 * The Data Block page: product search and the per-category product counts.
 * Both count and search only rows that are not soft-deleted.
 */
module DataBlock {
  import opened Types
  import opened Text

  /**
   * The search query's data. The query is disabled while `query.trim()` is
   * empty, so no data is loaded (None). Otherwise the rows that are not
   * soft-deleted and that `matches` accepts. `matches` is the backend's
   * case-insensitive pattern match of the query against product name, title
   * and description. The query text goes unescaped into the `.or(...)`
   * filter, so a query the backend cannot parse (one with `,`, `(` or `)`)
   * fails; `queryOk` is the backend's answer, and a failed query throws and
   * leaves no data (None).
   */
  function SearchResults(query: string, t: Listings, matches: Listing -> bool, queryOk: bool): (r: Option<set<Id>>)
    ensures r.None? <==> AllTrimmable(query) || !queryOk
    ensures r.Some? ==> forall k :: k in r.value <==> k in t && t[k].deletedAt.None? && matches(t[k])
  {
    if Trim(query) == [] || !queryOk then None
    else Some(set k | k in t && t[k].deletedAt.None? && matches(t[k]))
  }

  datatype SearchPanel = Hidden | ResultTable(ids: set<Id>) | NoMatches

  /** `searchQuery && searchResults && searchResults.length > 0` shows the table; `... === 0` shows the empty notice. */
  function Panel(query: string, results: Option<set<Id>>): (p: SearchPanel)
    ensures p.ResultTable? <==> query != [] && results.Some? && results.value != {}
    ensures p.NoMatches? <==> query != [] && results == Some({})
    ensures p.ResultTable? ==> p.ids == results.value
  {
    if query == [] || results.None? then Hidden
    else if results.value != {} then ResultTable(results.value)
    else NoMatches
  }

  /** A blank or whitespace-only query shows neither a table nor the "No products found" notice. */
  lemma BlankQueryShowsNothing(query: string, t: Listings, matches: Listing -> bool, queryOk: bool)
    requires AllTrimmable(query)
    ensures Panel(query, SearchResults(query, t, matches, queryOk)) == Hidden
  {
  }

  /** A failed search shows neither a table nor the notice, even when rows would match. */
  lemma FailedSearchShowsNothing(query: string, t: Listings, matches: Listing -> bool)
    ensures Panel(query, SearchResults(query, t, matches, false)) == Hidden
  {
  }

  /** A soft-deleted row never appears among the search results. */
  lemma SearchSkipsDeleted(query: string, t: Listings, matches: Listing -> bool, queryOk: bool, k: Id)
    requires k in t && t[k].deletedAt.Some?
    ensures !Panel(query, SearchResults(query, t, matches, queryOk)).ResultTable?
            || k !in Panel(query, SearchResults(query, t, matches, queryOk)).ids
  {
  }

  /** The Categories tab: `.is("parent_id", null)`. */
  function TopLevel(cats: map<Id, Category>): (ids: set<Id>)
    ensures forall c :: c in ids <==> c in cats && cats[c].parentId.None?
  {
    set c | c in cats && cats[c].parentId.None?
  }

  /** The Subcategories tab: `.not("parent_id", "is", null)`. */
  function SubCategories(cats: map<Id, Category>): (ids: set<Id>)
    ensures forall c :: c in ids <==> c in cats && cats[c].parentId.Some?
  {
    set c | c in cats && cats[c].parentId.Some?
  }

  /** Every category is on exactly one of the two tabs. */
  lemma TabsPartition(cats: map<Id, Category>)
    ensures TopLevel(cats) !! SubCategories(cats)
    ensures TopLevel(cats) + SubCategories(cats) == cats.Keys
  {
  }

  /** The rows of category `c` that are not soft-deleted. */
  function LiveRowsOf(t: Listings, c: Id): (rows: set<Id>) {
    set k | k in t && t[k].categoryId == c && t[k].deletedAt.None?
  }

  /** `listings.filter(l => l.category_id === cat.id).length` over the rows with `deleted_at` null. */
  function ProductCount(t: Listings, c: Id): (n: nat)
    ensures n <= |t|
  {
    var live := LiveRowsOf(t, c);
    assert t.Keys == live + (t.Keys - live);
    |live|
  }

  /** A count of zero means, and only means, that every row still referencing the category is soft-deleted. */
  lemma ZeroCountOnlyDeletedRefs(t: Listings, c: Id)
    ensures ProductCount(t, c) == 0 <==> forall k :: k in t && t[k].categoryId == c ==> t[k].deletedAt.Some?
  {
    if ProductCount(t, c) != 0 {
      var k :| k in LiveRowsOf(t, c);
      assert k in t && t[k].categoryId == c && t[k].deletedAt.None?;
    } else {
      forall k | k in t && t[k].categoryId == c ensures t[k].deletedAt.Some? {
        assert t[k].deletedAt.None? ==> k in LiveRowsOf(t, c);
      }
    }
  }

  /** Soft-deleting a listed row lowers its category's count by one and no other count. */
  lemma SoftDeleteLowersCount(t: Listings, id: Id, now: Stamp, c: Id)
    requires id in t && t[id].deletedAt.None?
    ensures var t' := t[id := t[id].(deletedAt := Some(now))];
      ProductCount(t', c) == if c == t[id].categoryId then ProductCount(t, c) - 1 else ProductCount(t, c)
  {
    var t' := t[id := t[id].(deletedAt := Some(now))];
    if c == t[id].categoryId {
      assert LiveRowsOf(t', c) == LiveRowsOf(t, c) - {id};
    } else {
      assert LiveRowsOf(t', c) == LiveRowsOf(t, c);
    }
  }

  /** `categories.map(cat => ({ ...cat, productCount }))` for the top-level categories. */
  function CategoryStats(cats: map<Id, Category>, t: Listings): (m: map<Id, nat>)
    ensures m.Keys == TopLevel(cats)
    ensures forall c :: c in m ==> m[c] == ProductCount(t, c)
  {
    map c | c in TopLevel(cats) :: ProductCount(t, c)
  }

  /** The same for the subcategories. */
  function SubcategoryStats(cats: map<Id, Category>, t: Listings): (m: map<Id, nat>)
    ensures m.Keys == SubCategories(cats)
    ensures forall c :: c in m ==> m[c] == ProductCount(t, c)
  {
    map c | c in SubCategories(cats) :: ProductCount(t, c)
  }

  /** `subcategory.parent?.name || "N/A"` */
  function ParentLabel(cats: map<Id, Category>, c: Id): (shown: string)
    requires c in cats
    ensures shown == "N/A" <==>
      (cats[c].parentId.None? || cats[c].parentId.value !in cats || cats[cats[c].parentId.value].name in {"", "N/A"})
    ensures shown != "N/A" ==> shown == cats[cats[c].parentId.value].name
  {
    match cats[c].parentId
    case Some(p) => if p in cats && cats[p].name != "" then cats[p].name else "N/A"
    case None => "N/A"
  }
}
