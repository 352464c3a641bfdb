/** Properties of sequences of requests against one store. */
module Sessions {
  import opened Wrappers
  import opened IssueRecord
  import opened IssueStore
  import opened Protocol
  import opened ListHandler
  import opened CreateHandler
  import opened UpdateHandler
  import opened DeleteHandler

  /** The store's data-model invariants hold and the clock reads no earlier
      than any stamp in it. */
  predicate Consistent(store: Store, now: Clock) {
    ValidStore(store) && ClockNotBehind(store, now)
  }

  /** Create keeps every invariant of the store. */
  lemma CreateKeepsConsistent(store: Store, project: string, body: CreateBody, freshId: string,
                              createdAt: Clock, now: Clock)
    requires createdAt <= now
    requires freshId != ""
    requires !HasId(ProjectIssues(store, project), freshId)
    requires Consistent(store, now)
    ensures Consistent(Create(store, project, body, freshId, createdAt, now).store, now)
  {
  }

  /** Update keeps every invariant of the store. */
  lemma UpdateKeepsConsistent(store: Store, project: string, body: UpdateBody, now: Clock)
    requires Consistent(store, now)
    ensures Consistent(Update(store, project, body, now).store, now)
  {
  }

  /** Delete keeps every invariant of the store. */
  lemma DeleteKeepsConsistent(store: Store, project: string, body: DeleteBody, now: Clock)
    requires Consistent(store, now)
    ensures Consistent(Delete(store, project, body).store, now)
  {
  }

  /** After a successful create, listing shows what it showed before plus
      the new issue at the end when it passes the query. */
  lemma CreateThenList(store: Store, project: string, body: CreateBody, freshId: string,
                       createdAt: Clock, updatedAt: Clock, query: Query, render: Clock -> string)
    requires createdAt <= updatedAt
    requires freshId != ""
    requires !HasId(ProjectIssues(store, project), freshId)
    requires HasRequired(body)
    ensures var created := Create(store, project, body, freshId, createdAt, updatedAt);
      var issue := created.response.issue;
      List(created.store, project, query, render).response.issues ==
        List(store, project, query, render).response.issues +
        (if MatchesAll(issue, query, render) then [issue] else [])
  {
    var created := Create(store, project, body, freshId, createdAt, updatedAt);
    var issue := created.response.issue;
    var s := ProjectIssues(store, project);
    FilterAppend(s, [issue], query, render);
    assert [issue][1..] == [];
  }

  /** Deleting the issue just created restores the project: the round trip
      succeeds and leaves the earlier issues exactly as they were. */
  lemma CreateThenDelete(store: Store, project: string, body: CreateBody, freshId: string,
                         createdAt: Clock, updatedAt: Clock)
    requires createdAt <= updatedAt
    requires freshId != ""
    requires !HasId(ProjectIssues(store, project), freshId)
    requires HasRequired(body)
    ensures var created := Create(store, project, body, freshId, createdAt, updatedAt);
      var deleted := Delete(created.store, project, DeleteBody(Some(freshId)));
      && deleted.response == Deleted(freshId)
      && ProjectIssues(deleted.store, project) == ProjectIssues(store, project)
  {
    var s := ProjectIssues(store, project);
    var created := Create(store, project, body, freshId, createdAt, updatedAt);
    var s1 := ProjectIssues(created.store, project);
    assert FirstMatch(s1, freshId, |s|);
    var deleted := Delete(created.store, project, DeleteBody(Some(freshId)));
    var j :| FirstMatch(s1, freshId, j) && ProjectIssues(deleted.store, project) == s1[..j] + s1[j + 1..];
    FirstMatchUnique(s1, freshId, j, |s|);
    assert s1[..|s|] == s;
  }

  /** With unique ids, once an issue is deleted no query on its id lists
      anything. */
  lemma DeleteThenList(store: Store, project: string, body: DeleteBody, render: Clock -> string)
    requires UniqueIds(ProjectIssues(store, project))
    requires Delete(store, project, body).response.Deleted?
    ensures List(Delete(store, project, body).store, project, map[IdKey := body.id.value], render).response.issues == []
  {
  }

  // Every request of the functional test suite, in the suite's order, replayed
  // from an empty store. The two successful creates get the ids "a" and "b"
  // and read the clock twice each (1, 1 and 2, 2); the rejected create fails
  // before any id or clock reading is taken, so its id and clock arguments are
  // unused. The two updates read the clock at 4 and 5. Each lemma starts from
  // the store the previous one ends with.

  const IssueA: Issue := Issue("a", "Title", "text", "Functional Test - Every field filled in", "Chai and Mocha", "In QA", 1, 1, true)
  const IssueB: Issue := Issue("b", "Title", "text", "Functional Test - Required fields only", "", "", 2, 2, true)
  const IssueATextUpdated: Issue := IssueA.(issueText := "updated text", updatedOn := 4)
  const IssueAUpdated: Issue := IssueA.(issueTitle := "Updated Title", issueText := "Updated text", updatedOn := 5)

  /** Creating with every field, with the required fields only, and with
      fields missing. */
  lemma ScenarioCreate()
    ensures
      var c1 := Create(EmptyStore, "test",
        CreateBody(Some("Title"), Some("text"), Some("Functional Test - Every field filled in"), Some("Chai and Mocha"), Some("In QA")), "a", 1, 1);
      var c2 := Create(c1.store, "test",
        CreateBody(Some("Title"), Some("text"), Some("Functional Test - Required fields only"), None, None), "b", 2, 2);
      var c3 := Create(c2.store, "test", CreateBody(Some("Title"), None, None, None, None), "c", 3, 3);
      && c1.response == Created(IssueA)
      && c2.response == Created(IssueB)
      && c3.response == RequiredFieldsMissing
      && c3.store == map["test" := [IssueA, IssueB]]
  {
    var c1 := Create(EmptyStore, "test",
      CreateBody(Some("Title"), Some("text"), Some("Functional Test - Every field filled in"), Some("Chai and Mocha"), Some("In QA")), "a", 1, 1);
    assert c1.store.Keys == {"test"};
    assert c1.store["test"] == ProjectIssues(c1.store, "test") == [IssueA];
    assert c1.store == map["test" := [IssueA]];
    assert !HasId([IssueA], "b");
    var c2 := Create(c1.store, "test",
      CreateBody(Some("Title"), Some("text"), Some("Functional Test - Required fields only"), None, None), "b", 2, 2);
    assert c2.store.Keys == {"test"};
    assert c2.store["test"] == ProjectIssues(c2.store, "test") == [IssueA, IssueB];
    assert c2.store == map["test" := [IssueA, IssueB]];
    assert !HasId([IssueA, IssueB], "c");
  }

  /** Listing with no filter, with `open=true`, and with `open=true` plus an
      author. */
  lemma ScenarioList(render: Clock -> string)
    ensures var store := map["test" := [IssueA, IssueB]];
      && List(store, "test", map[], render).response.issues == [IssueA, IssueB]
      && List(store, "test", map[OpenKey := "true"], render).response.issues == [IssueA, IssueB]
      && List(store, "test", map[OpenKey := "true", CreatedByKey := "Functional Test - Every field filled in"], render).response.issues
           == [IssueA]
  {
    FilterNoQuery([IssueA, IssueB], render);
    var open := map[OpenKey := "true"];
    assert MatchesAll(IssueA, open, render) && MatchesAll(IssueB, open, render);
    assert Filter([IssueB], open, render) == [IssueB] + Filter([], open, render);
    assert Filter([IssueA, IssueB], open, render) == [IssueA] + Filter([IssueB], open, render);
    var q := map[OpenKey := "true", CreatedByKey := "Functional Test - Every field filled in"];
    assert MatchesAll(IssueA, q, render);
    assert !Matches(IssueB, CreatedByKey, q[CreatedByKey], render);
    assert Filter([IssueB], q, render) == [];
    assert Filter([IssueA, IssueB], q, render) == [IssueA] + Filter([IssueB], q, render);
  }

  /** Updating one field, then two fields, of the first issue. */
  lemma ScenarioUpdate()
    ensures var store := map["test" := [IssueA, IssueB]];
      var u1 := Update(store, "test", UpdateBody(Some("a"), None, Some("updated text"), None, None, None, None), 4);
      var u2 := Update(u1.store, "test",
        UpdateBody(Some("a"), Some("Updated Title"), Some("Updated text"), None, None, None, None), 5);
      && u1.response == Updated("a")
      && u1.store == map["test" := [IssueATextUpdated, IssueB]]
      && u2.response == Updated("a")
      && u2.store == map["test" := [IssueAUpdated, IssueB]]
  {
    var store := map["test" := [IssueA, IssueB]];
    assert FirstMatch([IssueA, IssueB], "a", 0);
    var u1 := Update(store, "test", UpdateBody(Some("a"), None, Some("updated text"), None, None, None, None), 4);
    assert ProjectIssues(u1.store, "test") == [IssueATextUpdated, IssueB];
    assert FirstMatch([IssueATextUpdated, IssueB], "a", 0);
    var u2 := Update(u1.store, "test",
      UpdateBody(Some("a"), Some("Updated Title"), Some("Updated text"), None, None, None, None), 5);
    assert ProjectIssues(u2.store, "test") == [IssueAUpdated, IssueB];
  }

  /** The three update errors: no id, no field to change, an unknown id. */
  lemma ScenarioUpdateErrors()
    ensures var store := map["test" := [IssueAUpdated, IssueB]];
      var u3 := Update(store, "test", UpdateBody(None, Some("Updated Title"), None, None, None, None, None), 5);
      var u4 := Update(u3.store, "test", UpdateBody(Some("a"), None, None, None, None, None, None), 5);
      var u5 := Update(u4.store, "test",
        UpdateBody(Some("invalid_id_12345"), Some("Updated Title"), None, None, None, None, None), 5);
      && u3 == Reply(MissingId, store)
      && u4 == Reply(NoUpdateFields("a"), store)
      && u5 == Reply(CouldNotUpdate("invalid_id_12345"), store)
  {
    assert [IssueAUpdated, IssueB][0].id == "a";
    assert HasId([IssueAUpdated, IssueB], "a");
    assert !HasId([IssueAUpdated, IssueB], "invalid_id_12345");
  }

  /** Deleting an issue, then the two delete errors. */
  lemma ScenarioDelete()
    ensures var store := map["test" := [IssueAUpdated, IssueB]];
      var d1 := Delete(store, "test", DeleteBody(Some("b")));
      var d2 := Delete(d1.store, "test", DeleteBody(Some("invalid_id_12345")));
      var d3 := Delete(d2.store, "test", DeleteBody(None));
      && d1 == Reply(Deleted("b"), map["test" := [IssueAUpdated]])
      && d2 == Reply(CouldNotDelete("invalid_id_12345"), d1.store)
      && d3 == Reply(MissingId, d1.store)
  {
    var s := [IssueAUpdated, IssueB];
    var store := map["test" := s];
    assert FirstMatch(s, "b", 1);
    var d1 := Delete(store, "test", DeleteBody(Some("b")));
    var j :| FirstMatch(s, "b", j) && ProjectIssues(d1.store, "test") == s[..j] + s[j + 1..];
    FirstMatchUnique(s, "b", j, 1);
    assert ProjectIssues(d1.store, "test") == [IssueAUpdated];
    assert !HasId([IssueAUpdated], "invalid_id_12345");
  }
}
