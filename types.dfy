/** Row types of the back-office tables and the listing status enumeration. */
module Types {

  datatype Option<+T> = None | Some(value: T) {
    /** `x ?? default` */
    function GetOr(default: T): T {
      if Some? then value else default
    }
  }

  /** A zod parse: the validated value, or the message of the first issue. */
  datatype Parsed<+T> = Valid(value: T) | Invalid(message: string)

  /** Row identifiers are the backend's UUID strings. */
  type Id = string

  /** An opaque point in time; only compared, to order rows by a timestamp column. */
  type Stamp = int

  /** The stages of the listing pipeline, as stored in the `status` column. */
  datatype Status = cpv | assign | worklist | nr | pr | np | published

  /** The text the `status` column holds for each stage. */
  function StatusName(s: Status): (name: string) {
    match s
    case cpv => "cpv"
    case assign => "assign"
    case worklist => "worklist"
    case nr => "nr"
    case pr => "pr"
    case np => "np"
    case published => "published"
  }

  /** Distinct stages are stored as distinct texts, so the column round-trips. */
  lemma StatusNameInjective(s: Status, t: Status)
    ensures StatusName(s) == StatusName(t) <==> s == t
  {
  }

  /** A row of `listings`, restricted to the columns the pipeline reads or writes. */
  datatype Listing = Listing(
    productName: string,
    title: Option<string>,
    description: Option<string>,
    categoryId: Id,
    brandId: Option<Id>,
    status: Status,
    assignedTo: Option<string>,
    deletedAt: Option<Stamp>,
    createdBy: Id)

  /** The `listings` table, keyed by id. */
  type Listings = map<Id, Listing>

  /** A row of `categories`; `parentId` is None for a top-level category. */
  datatype Category = Category(name: string, parentId: Option<Id>)

  /** A row of `brands`. */
  datatype Brand = Brand(name: string)

  /** A row of `admins`; `status` is free text, "active" or "frozen" in practice. */
  datatype Admin = Admin(adminCode: string, name: string, status: string, createdAt: Stamp)

  /** A row of `admin_permissions`. */
  datatype PermissionRow = PermissionRow(adminId: Id, section: string, canAccess: bool)

  /** A row of `admin_activity_log`; the details payload is the reviewed listing and its new status. */
  datatype LogEntry = LogEntry(adminId: Id, action: string, section: string, listingId: Id, newStatus: string)
}
