/** The status badge: a colour class and a label for a status text. */
module StatusBadge {
  import opened Types
  import opened Text

  const StatusColors: map<string, string> := map[
    "cpv" := "bg-warning text-warning-foreground",
    "assign" := "bg-accent text-accent-foreground",
    "worklist" := "bg-primary text-primary-foreground",
    "nr" := "bg-warning text-warning-foreground",
    "np" := "bg-destructive text-destructive-foreground",
    "pr" := "bg-success text-success-foreground",
    "published" := "bg-muted text-muted-foreground"]

  const StatusLabels: map<string, string> := map[
    "cpv" := "CPV",
    "assign" := "Assign",
    "worklist" := "Worklist",
    "nr" := "NR",
    "np" := "NP",
    "pr" := "PR",
    "published" := "Published"]

  /**
   * `statusColors[status] || ""`. An inherited object member found by the
   * lookup is not text, and `cn` drops it, so those names get no class either.
   */
  function ColorClass(status: string): (cls: string)
    ensures status in StatusColors ==> cls == StatusColors[status]
    ensures status !in StatusColors ==> cls == ""
  {
    if status in StatusColors then StatusColors[status] else ""
  }

  /**
   * The names a plain JavaScript object literal inherits from
   * `Object.prototype`: indexing the tables with one of them finds a function
   * (or, for `__proto__`, the prototype object) instead of `undefined`.
   */
  const ObjectPrototypeNames: set<string> := {
    "constructor", "hasOwnProperty", "isPrototypeOf", "propertyIsEnumerable",
    "toLocaleString", "toString", "valueOf", "__proto__",
    "__defineGetter__", "__defineSetter__", "__lookupGetter__", "__lookupSetter__"}

  /**
   * `statusLabels[status] || status.toUpperCase()`. Every table label is
   * non-empty, so the fallback is for texts the table does not name. An
   * inherited name finds a truthy non-text value, so no label text is shown
   * (None): a function renders nothing, and the prototype object makes React
   * refuse to render the badge.
   */
  function Label(status: string): (shown: Option<string>)
    ensures status in StatusLabels ==> shown == Some(StatusLabels[status])
    ensures status !in StatusLabels && status in ObjectPrototypeNames ==> shown == None
    ensures status !in StatusLabels && status !in ObjectPrototypeNames ==> shown == Some(AsciiUpper(status))
  {
    if status in StatusLabels && StatusLabels[status] != "" then Some(StatusLabels[status])
    else if status in ObjectPrototypeNames then None
    else Some(AsciiUpper(status))
  }

  /** Both tables cover exactly the stored texts of the seven stages. */
  lemma TablesCoverStatuses()
    ensures StatusColors.Keys == StatusLabels.Keys
    ensures forall k :: k in StatusLabels <==> exists s: Status :: StatusName(s) == k
  {
    forall k | k in StatusLabels ensures exists s: Status :: StatusName(s) == k {
      if k == "cpv" { assert StatusName(cpv) == k; }
      else if k == "assign" { assert StatusName(assign) == k; }
      else if k == "worklist" { assert StatusName(worklist) == k; }
      else if k == "nr" { assert StatusName(nr) == k; }
      else if k == "np" { assert StatusName(np) == k; }
      else if k == "pr" { assert StatusName(pr) == k; }
      else { assert StatusName(published) == k; }
    }
  }

  /** A stage's label is its stored text upper-cased, except `assign`, `worklist` and `published`, which are capitalised. */
  lemma LabelOfStage(s: Status)
    ensures Label(StatusName(s)) == Some(if s in {assign, worklist, published} then StatusLabels[StatusName(s)]
                                         else AsciiUpper(StatusName(s)))
    ensures ColorClass(StatusName(s)) != ""
  {
    match s
    case cpv => assert StatusLabels["cpv"] == "CPV" == AsciiUpper("cpv");
    case assign => assert StatusLabels["assign"] == "Assign";
    case worklist => assert StatusLabels["worklist"] == "Worklist";
    case nr => assert StatusLabels["nr"] == "NR" == AsciiUpper("nr");
    case pr => assert StatusLabels["pr"] == "PR" == AsciiUpper("pr");
    case np => assert StatusLabels["np"] == "NP" == AsciiUpper("np");
    case published => assert StatusLabels["published"] == "Published";
  }

  /**
   * A status text that names no stage gets no colour class, and is shown
   * upper-cased unless it is an inherited object member, which shows no text.
   */
  lemma UnknownStatusShownUpperCased(status: string)
    requires forall s: Status :: StatusName(s) != status
    ensures ColorClass(status) == ""
    ensures status !in ObjectPrototypeNames ==> Label(status) == Some(AsciiUpper(status))
    ensures status in ObjectPrototypeNames ==> Label(status) == None
  {
    assert status != StatusName(cpv) && status != StatusName(assign) && status != StatusName(worklist);
    assert status != StatusName(nr) && status != StatusName(np) && status != StatusName(pr);
    assert status != StatusName(published);
  }
}
