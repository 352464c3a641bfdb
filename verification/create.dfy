/** The create (POST) handler: validate the required fields, build a record
    with defaults, append it to the project. */
module CreateHandler {
  import opened IssueRecord
  import opened IssueStore
  import opened Protocol

  /** Title, text and author are all truthy. */
  predicate HasRequired(body: CreateBody) {
    Truthy(body.issueTitle) && Truthy(body.issueText) && Truthy(body.createdBy)
  }

  /** The POST handler. `freshId` stands for the generated id; the id is
      non-empty and new to the project. The clock is read twice, once for
      each stamp, so `createdAt` and `updatedAt` are two successive readings.
      The project is materialised before validation, so even a rejected
      request makes it visible. */
  function Create(store: Store, project: string, body: CreateBody, freshId: string,
                  createdAt: Clock, updatedAt: Clock): (reply: Reply)
    requires createdAt <= updatedAt
    requires freshId != ""
    requires !HasId(ProjectIssues(store, project), freshId)
    ensures reply.store.Keys == store.Keys + {project}
    ensures forall p :: p != project ==> ProjectIssues(reply.store, p) == ProjectIssues(store, p)
    ensures reply.response.RequiredFieldsMissing? <==> !HasRequired(body)
    ensures !HasRequired(body) ==> ProjectIssues(reply.store, project) == ProjectIssues(store, project)
    ensures HasRequired(body) ==>
      && reply.response.Created?
      && ProjectIssues(reply.store, project) == ProjectIssues(store, project) + [reply.response.issue]
    ensures reply.response.Created? ==>
      var issue := reply.response.issue;
      && issue.id == freshId
      && issue.issueTitle == body.issueTitle.value
      && issue.issueText == body.issueText.value
      && issue.createdBy == body.createdBy.value
      && (Truthy(body.assignedTo) ==> issue.assignedTo == body.assignedTo.value)
      && (!Truthy(body.assignedTo) ==> issue.assignedTo == "")
      && (Truthy(body.statusText) ==> issue.statusText == body.statusText.value)
      && (!Truthy(body.statusText) ==> issue.statusText == "")
      && issue.createdOn == createdAt && issue.updatedOn == updatedAt
      && issue.open
      && WellFormed(issue)
  {
    var st := Materialise(store, project);
    if !HasRequired(body) then Reply(RequiredFieldsMissing, st)
    else
      var issue := Issue(
        freshId,
        body.issueTitle.value,
        body.issueText.value,
        body.createdBy.value,
        OrEmpty(body.assignedTo),
        OrEmpty(body.statusText),
        createdAt,
        updatedAt,
        true);
      Reply(Created(issue), st[project := st[project] + [issue]])
  }

  /** A successful create keeps the project valid: the new issue is well
      formed and its id is unique. */
  lemma CreateKeepsProjectValid(store: Store, project: string, body: CreateBody, freshId: string,
                                createdAt: Clock, updatedAt: Clock)
    requires createdAt <= updatedAt
    requires freshId != ""
    requires !HasId(ProjectIssues(store, project), freshId)
    requires ValidProject(ProjectIssues(store, project))
    ensures ValidProject(ProjectIssues(Create(store, project, body, freshId, createdAt, updatedAt).store, project))
  {
  }
}
