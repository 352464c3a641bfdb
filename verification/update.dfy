/** The update (PUT) handler: an ordered chain of checks, then a
    whitelisted partial patch of the first issue carrying the id. */
module UpdateHandler {
  import opened Wrappers
  import opened IssueRecord
  import opened IssueStore
  import opened Protocol

  /** The patch changes something: `open` counts just by being present, any
      other whitelisted field only with a non-empty value. */
  predicate Effective(body: UpdateBody) {
    || body.open.Some?
    || Truthy(body.issueTitle)
    || Truthy(body.issueText)
    || Truthy(body.createdBy)
    || Truthy(body.assignedTo)
    || Truthy(body.statusText)
  }

  /** `open` is set to true only by the boolean true or the string "true". */
  function OpenFrom(v: OpenValue): bool {
    v == OpenFlag(true) || v == OpenText("true")
  }

  /** A text field keeps its value unless the patch carries a non-empty one. */
  function Assign(current: string, v: Option<string>): string {
    if Truthy(v) then v.value else current
  }

  /** The patch applied to one issue, stamped with `now`. */
  function ApplyPatch(issue: Issue, body: UpdateBody, now: Clock): (r: Issue)
    ensures r.id == issue.id && r.createdOn == issue.createdOn && r.updatedOn == now
    ensures RequiredFilled(issue) ==> RequiredFilled(r)
    ensures !Effective(body) ==> r == issue.(updatedOn := now)
    ensures Truthy(body.issueTitle) ==> r.issueTitle == body.issueTitle.value
    ensures !Truthy(body.issueTitle) ==> r.issueTitle == issue.issueTitle
    ensures Truthy(body.issueText) ==> r.issueText == body.issueText.value
    ensures !Truthy(body.issueText) ==> r.issueText == issue.issueText
    ensures Truthy(body.createdBy) ==> r.createdBy == body.createdBy.value
    ensures !Truthy(body.createdBy) ==> r.createdBy == issue.createdBy
    ensures Truthy(body.assignedTo) ==> r.assignedTo == body.assignedTo.value
    ensures !Truthy(body.assignedTo) ==> r.assignedTo == issue.assignedTo
    ensures Truthy(body.statusText) ==> r.statusText == body.statusText.value
    ensures !Truthy(body.statusText) ==> r.statusText == issue.statusText
    ensures body.open.None? ==> r.open == issue.open
    ensures body.open.Some? ==> (r.open <==> body.open.value in {OpenFlag(true), OpenText("true")})
  {
    issue.(
      issueTitle := Assign(issue.issueTitle, body.issueTitle),
      issueText := Assign(issue.issueText, body.issueText),
      createdBy := Assign(issue.createdBy, body.createdBy),
      assignedTo := Assign(issue.assignedTo, body.assignedTo),
      statusText := Assign(issue.statusText, body.statusText),
      open := if body.open.Some? then OpenFrom(body.open.value) else issue.open,
      updatedOn := now)
  }

  /** Applying the same patch again changes nothing but the update stamp. */
  lemma PatchIdempotent(issue: Issue, body: UpdateBody, t1: Clock, t2: Clock)
    ensures ApplyPatch(ApplyPatch(issue, body, t1), body, t2) == ApplyPatch(issue, body, t2)
  {
  }

  /** The effectiveness check is exactly "the patch can change some issue
      beyond its update stamp": a patch that fails it changes nothing, and
      one that passes it changes at least one possible issue. */
  lemma {:induction false} EffectiveIffChanges(body: UpdateBody)
    ensures Effective(body) <==> exists issue :: ApplyPatch(issue, body, 0) != issue.(updatedOn := 0)
  {
    if Effective(body) {
      var blank := Issue("", "", "", "", "", "", 0, 0, false);
      var sample :=
        if body.open.Some? then blank.(open := !OpenFrom(body.open.value))
        else blank;
      assert ApplyPatch(sample, body, 0) != sample.(updatedOn := 0) by {
        if body.open.Some? {
          assert ApplyPatch(sample, body, 0).open != sample.open;
        } else if Truthy(body.issueTitle) {
          assert ApplyPatch(sample, body, 0).issueTitle != sample.issueTitle;
        } else if Truthy(body.issueText) {
          assert ApplyPatch(sample, body, 0).issueText != sample.issueText;
        } else if Truthy(body.createdBy) {
          assert ApplyPatch(sample, body, 0).createdBy != sample.createdBy;
        } else if Truthy(body.assignedTo) {
          assert ApplyPatch(sample, body, 0).assignedTo != sample.assignedTo;
        } else {
          assert ApplyPatch(sample, body, 0).statusText != sample.statusText;
        }
      }
    }
  }

  /** The PUT handler. Checks, in order: a truthy `_id`; an issue carrying
      it; an effective patch. Only then is the first issue carrying the id
      patched and stamped. The project is materialised only once the id
      check has passed. */
  function Update(store: Store, project: string, body: UpdateBody, now: Clock): (reply: Reply)
    ensures !Truthy(body.id) ==> reply == Reply(MissingId, store)
    ensures Truthy(body.id) ==> reply.store.Keys == store.Keys + {project}
    ensures forall p :: p != project ==> ProjectIssues(reply.store, p) == ProjectIssues(store, p)
    ensures Truthy(body.id) && !HasId(ProjectIssues(store, project), body.id.value) ==>
      reply.response == CouldNotUpdate(body.id.value)
    ensures Truthy(body.id) && HasId(ProjectIssues(store, project), body.id.value) && !Effective(body) ==>
      reply.response == NoUpdateFields(body.id.value)
    ensures reply.response.Updated? <==>
      Truthy(body.id) && HasId(ProjectIssues(store, project), body.id.value) && Effective(body)
    ensures reply.response.Updated? ==> reply.response.id == body.id.value
    ensures !reply.response.Updated? ==> ProjectIssues(reply.store, project) == ProjectIssues(store, project)
    ensures reply.response.Updated? ==>
      var s, s' := ProjectIssues(store, project), ProjectIssues(reply.store, project);
      && |s'| == |s|
      && (forall j :: 0 <= j < |s| ==> s'[j].id == s[j].id && s'[j].createdOn == s[j].createdOn)
      && (forall j :: 0 <= j < |s| ==>
            s'[j] == if FirstMatch(s, body.id.value, j) then ApplyPatch(s[j], body, now) else s[j])
  {
    if !Truthy(body.id) then Reply(MissingId, store)
    else
      var id := body.id.value;
      var st := Materialise(store, project);
      var s := st[project];
      match FindIndex(s, id)
      case None => Reply(CouldNotUpdate(id), st)
      case Some(i) =>
        if !Effective(body) then Reply(NoUpdateFields(id), st)
        else
          assert forall j :: FirstMatch(s, id, j) <==> j == i by {
            forall j ensures FirstMatch(s, id, j) <==> j == i {
              FindIndexExact(s, id, j);
            }
          }
          Reply(Updated(id), st[project := s[i := ApplyPatch(s[i], body, now)]])
  }

  /** A successful update keeps the project valid when the clock has not gone
      backwards: ids are untouched, required fields stay non-empty, and the
      new stamp is no earlier than the creation stamp. */
  lemma UpdateKeepsProjectValid(store: Store, project: string, body: UpdateBody, now: Clock)
    requires ValidProject(ProjectIssues(store, project))
    requires ClockNotBehind(store, now)
    ensures ValidProject(ProjectIssues(Update(store, project, body, now).store, project))
  {
  }

  /** Repeating a successful update yields the same fields: the second
      request succeeds too and changes only the update stamp of the issue
      the first one patched. */
  lemma UpdateRepeated(store: Store, project: string, body: UpdateBody, t1: Clock, t2: Clock)
    requires Truthy(body.id) && HasId(ProjectIssues(store, project), body.id.value) && Effective(body)
    ensures var first := Update(store, project, body, t1);
      var second := Update(first.store, project, body, t2);
      var s1 := ProjectIssues(first.store, project);
      && second.response == first.response
      && forall j :: FirstMatch(s1, body.id.value, j) ==>
           ProjectIssues(second.store, project) == s1[j := s1[j].(updatedOn := t2)]
  {
  }
}
