/** Request bodies and response payloads of the issues resource. Every
    response travels with HTTP status 200; success and failure differ only in
    the payload. */
module Protocol {
  import opened Wrappers
  import opened IssueRecord
  import opened IssueStore

  /** JavaScript truthiness of an optional text field: present and non-empty. */
  predicate Truthy(v: Option<string>) {
    v.Some? && v.value != ""
  }

  /** `v || ''`: the text when truthy, otherwise the empty string. */
  function OrEmpty(v: Option<string>): string {
    if Truthy(v) then v.value else ""
  }

  /** The value of `open` in an update body: a JSON boolean or a string. */
  datatype OpenValue = OpenFlag(flag: bool) | OpenText(text: string)

  /** Body of a create (POST) request. */
  datatype CreateBody = CreateBody(
    issueTitle: Option<string>,
    issueText: Option<string>,
    createdBy: Option<string>,
    assignedTo: Option<string>,
    statusText: Option<string>)

  /** Body of an update (PUT) request: the target id and the whitelisted
      fields. */
  datatype UpdateBody = UpdateBody(
    id: Option<string>,
    issueTitle: Option<string>,
    issueText: Option<string>,
    createdBy: Option<string>,
    assignedTo: Option<string>,
    statusText: Option<string>,
    open: Option<OpenValue>)

  /** Body of a delete (DELETE) request. */
  datatype DeleteBody = DeleteBody(id: Option<string>)

  /** A response payload. The error cases carry the `error` text of the
      payload; the three of them that name an issue echo its `_id`. */
  datatype Response =
    | IssueList(issues: seq<Issue>)
    | Created(issue: Issue)
    | Updated(id: string)
    | Deleted(id: string)
    | RequiredFieldsMissing
    | MissingId
    | CouldNotUpdate(id: string)
    | NoUpdateFields(id: string)
    | CouldNotDelete(id: string)
  {
    /** The `error` or `result` text of the payload; None for payloads that
        are issue data. */
    function Message(): Option<string> {
      match this
      case IssueList(_) => None
      case Created(_) => None
      case Updated(_) => Some("successfully updated")
      case Deleted(_) => Some("successfully deleted")
      case RequiredFieldsMissing => Some("required field(s) missing")
      case MissingId => Some("missing _id")
      case CouldNotUpdate(_) => Some("could not update")
      case NoUpdateFields(_) => Some("no update field(s) sent")
      case CouldNotDelete(_) => Some("could not delete")
    }
  }

  /** What a handler produces: the payload and the store after the request. */
  datatype Reply = Reply(response: Response, store: Store)
}
