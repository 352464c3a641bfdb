/** The delete (DELETE) handler: find the first issue carrying the id and
    splice it out. */
module DeleteHandler {
  import opened Wrappers
  import opened IssueRecord
  import opened IssueStore
  import opened Protocol

  /** `s` without its element at position `i`. */
  function RemoveAt(s: seq<Issue>, i: nat): (r: seq<Issue>)
    requires i < |s|
    ensures |r| == |s| - 1
    ensures forall k :: 0 <= k < i ==> r[k] == s[k]
    ensures forall k :: i <= k < |r| ==> r[k] == s[k + 1]
  {
    s[..i] + s[i + 1..]
  }

  /** The DELETE handler. Checks a truthy `_id`, then materialises the
      project and removes the first issue carrying the id, if any. */
  function Delete(store: Store, project: string, body: DeleteBody): (reply: Reply)
    ensures !Truthy(body.id) ==> reply == Reply(MissingId, store)
    ensures Truthy(body.id) ==> reply.store.Keys == store.Keys + {project}
    ensures forall p :: p != project ==> ProjectIssues(reply.store, p) == ProjectIssues(store, p)
    ensures Truthy(body.id) && !HasId(ProjectIssues(store, project), body.id.value) ==>
      && reply.response == CouldNotDelete(body.id.value)
      && ProjectIssues(reply.store, project) == ProjectIssues(store, project)
    ensures reply.response.Deleted? <==>
      Truthy(body.id) && HasId(ProjectIssues(store, project), body.id.value)
    ensures reply.response.Deleted? ==>
      var s, s' := ProjectIssues(store, project), ProjectIssues(reply.store, project);
      && reply.response.id == body.id.value
      && |s'| == |s| - 1
      && exists j :: FirstMatch(s, body.id.value, j) && s' == s[..j] + s[j + 1..]
  {
    if !Truthy(body.id) then Reply(MissingId, store)
    else
      var id := body.id.value;
      var st := Materialise(store, project);
      var s := st[project];
      match FindIndex(s, id)
      case None => Reply(CouldNotDelete(id), st)
      case Some(i) => Reply(Deleted(id), st[project := RemoveAt(s, i)])
  }

  /** Removing an issue keeps the project valid. */
  lemma DeleteKeepsProjectValid(store: Store, project: string, body: DeleteBody)
    requires ValidProject(ProjectIssues(store, project))
    ensures ValidProject(ProjectIssues(Delete(store, project, body).store, project))
  {
  }

  /** With unique ids, a deleted id is gone from the project, so deleting it
      again fails. */
  lemma DeleteTwiceFails(store: Store, project: string, body: DeleteBody)
    requires UniqueIds(ProjectIssues(store, project))
    requires Delete(store, project, body).response.Deleted?
    ensures !HasId(ProjectIssues(Delete(store, project, body).store, project), body.id.value)
    ensures Delete(Delete(store, project, body).store, project, body).response ==
      CouldNotDelete(body.id.value)
  {
  }
}
