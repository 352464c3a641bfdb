/** The issue record held by the store, and the wire names of its fields. */
module IssueRecord {
  import opened Wrappers

  /** A reading of the server clock. The server stamps records with the
      current time; here that time is an abstract, totally ordered instant
      supplied by the caller. */
  type Clock = nat

  datatype Issue = Issue(
    id: string,
    issueTitle: string,
    issueText: string,
    createdBy: string,
    assignedTo: string,
    statusText: string,
    createdOn: Clock,
    updatedOn: Clock,
    open: bool)

  // Field names as they appear in request bodies, query strings and responses.
  const IdKey: string := "_id"
  const TitleKey: string := "issue_title"
  const TextKey: string := "issue_text"
  const CreatedByKey: string := "created_by"
  const AssignedToKey: string := "assigned_to"
  const StatusTextKey: string := "status_text"
  const CreatedOnKey: string := "created_on"
  const UpdatedOnKey: string := "updated_on"
  const OpenKey: string := "open"

  /** Every field name an issue record carries. */
  const FieldKeys: set<string> :=
    {IdKey, TitleKey, TextKey, CreatedByKey, AssignedToKey, StatusTextKey,
     CreatedOnKey, UpdatedOnKey, OpenKey}

  /** The three fields that creation insists on are non-empty. */
  predicate RequiredFilled(issue: Issue) {
    issue.issueTitle != "" && issue.issueText != "" && issue.createdBy != ""
  }

  /** What every stored issue satisfies: an id, its required fields, and an
      update stamp no earlier than its creation stamp. */
  predicate WellFormed(issue: Issue) {
    issue.id != "" && RequiredFilled(issue) && issue.createdOn <= issue.updatedOn
  }

  /** The textual value of field `key` as a client sees it, with timestamps
      shown through `render`; None for `open` (a boolean) and for names that
      are not fields of an issue. */
  function TextField(issue: Issue, key: string, render: Clock -> string): (r: Option<string>)
    ensures r.Some? <==> key in FieldKeys && key != OpenKey
  {
    if key == IdKey then Some(issue.id)
    else if key == TitleKey then Some(issue.issueTitle)
    else if key == TextKey then Some(issue.issueText)
    else if key == CreatedByKey then Some(issue.createdBy)
    else if key == AssignedToKey then Some(issue.assignedTo)
    else if key == StatusTextKey then Some(issue.statusText)
    else if key == CreatedOnKey then Some(render(issue.createdOn))
    else if key == UpdatedOnKey then Some(render(issue.updatedOn))
    else None
  }
}
