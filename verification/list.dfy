/** The list (GET) handler: the project's issues that pass every query
    filter, in insertion order. */
module ListHandler {
  import opened Wrappers
  import opened IssueRecord
  import opened IssueStore
  import opened Protocol

  /** A parsed query string: field name to the requested value. */
  type Query = map<string, string>

  /** One filter. For `open` the textual value is coerced to a boolean
      (`"true"` is true, anything else false); any other key compares the
      field's text with the value, and a key naming no field matches nothing. */
  predicate Matches(issue: Issue, key: string, value: string, render: Clock -> string) {
    if key == OpenKey then issue.open == (value == "true")
    else TextField(issue, key, render) == Some(value)
  }

  /** The issue passes every filter of the query. */
  predicate MatchesAll(issue: Issue, query: Query, render: Clock -> string) {
    forall key :: key in query ==> Matches(issue, key, query[key], render)
  }

  /** `r` is `s` with some elements dropped and the rest in the same order. */
  ghost predicate IsSubsequence<T>(r: seq<T>, s: seq<T>)
    decreases |s|
  {
    |r| == 0 ||
    (|s| > 0 && ((r[0] == s[0] && IsSubsequence(r[1..], s[1..])) || IsSubsequence(r, s[1..])))
  }

  /** The issues of `s` that pass the query, in their original order. */
  function Filter(s: seq<Issue>, query: Query, render: Clock -> string): (r: seq<Issue>)
    ensures |r| <= |s|
    decreases |s|
  {
    if |s| == 0 then []
    else
      var rest := Filter(s[1..], query, render);
      if MatchesAll(s[0], query, render) then [s[0]] + rest else rest
  }

  /** Each matching issue is listed as often as it occurs in the project,
      every other issue not at all. */
  lemma {:induction false} FilterCounts(s: seq<Issue>, query: Query, render: Clock -> string)
    ensures forall x ::
              multiset(Filter(s, query, render))[x] == if MatchesAll(x, query, render) then multiset(s)[x] else 0
    decreases |s|
  {
    if |s| > 0 {
      assert s == [s[0]] + s[1..];
      FilterCounts(s[1..], query, render);
    }
  }

  /** The listed issues keep the project's order. */
  lemma {:induction false} FilterOrdered(s: seq<Issue>, query: Query, render: Clock -> string)
    ensures IsSubsequence(Filter(s, query, render), s)
    decreases |s|
  {
    if |s| > 0 {
      FilterOrdered(s[1..], query, render);
      var r := Filter(s, query, render);
      if MatchesAll(s[0], query, render) {
        assert r[1..] == Filter(s[1..], query, render);
      }
    }
  }

  /** With no filters the whole sequence is listed. */
  lemma {:induction false} FilterNoQuery(s: seq<Issue>, render: Clock -> string)
    ensures Filter(s, map[], render) == s
    decreases |s|
  {
    if |s| > 0 {
      FilterNoQuery(s[1..], render);
      assert s == [s[0]] + s[1..];
    }
  }

  /** The GET handler. The project is materialised; the store is otherwise
      left as it was. */
  function List(store: Store, project: string, query: Query, render: Clock -> string): (reply: Reply)
    ensures reply.response.IssueList?
    ensures reply.store.Keys == store.Keys + {project}
    ensures forall p :: ProjectIssues(reply.store, p) == ProjectIssues(store, p)
    ensures var s, r := ProjectIssues(store, project), reply.response.issues;
      && IsSubsequence(r, s)
      && (forall x :: multiset(r)[x] == if MatchesAll(x, query, render) then multiset(s)[x] else 0)
      && (|query| == 0 ==> r == s)
  {
    var s := ProjectIssues(store, project);
    FilterCounts(s, query, render);
    FilterOrdered(s, query, render);
    FilterNoQuery(s, render);
    assert |query| == 0 ==> query == map[];
    Reply(IssueList(Filter(s, query, render)), Materialise(store, project))
  }

  /** Filtering a concatenation filters each part. */
  lemma {:induction false} FilterAppend(a: seq<Issue>, b: seq<Issue>, query: Query, render: Clock -> string)
    ensures Filter(a + b, query, render) == Filter(a, query, render) + Filter(b, query, render)
    decreases |a|
  {
    if |a| > 0 {
      assert (a + b)[0] == a[0];
      assert (a + b)[1..] == a[1..] + b;
      FilterAppend(a[1..], b, query, render);
      if MatchesAll(a[0], query, render) {
        calc {
          Filter(a + b, query, render);
          [a[0]] + Filter(a[1..] + b, query, render);
          [a[0]] + (Filter(a[1..], query, render) + Filter(b, query, render));
          Filter(a, query, render) + Filter(b, query, render);
        }
      }
    } else {
      assert a + b == b;
    }
  }

  /** Filters on distinct keys combine by intersection: listing with both
      equals listing with one and then narrowing with the other. */
  lemma {:induction false} FilterConjunction(s: seq<Issue>, q1: Query, q2: Query, render: Clock -> string)
    requires q1.Keys !! q2.Keys
    ensures Filter(s, q1 + q2, render) == Filter(Filter(s, q1, render), q2, render)
    decreases |s|
  {
    if |s| > 0 {
      FilterConjunction(s[1..], q1, q2, render);
      assert MatchesAll(s[0], q1 + q2, render) <==>
             MatchesAll(s[0], q1, render) && MatchesAll(s[0], q2, render) by {
        if MatchesAll(s[0], q1, render) && MatchesAll(s[0], q2, render) {
          forall key | key in q1 + q2
            ensures Matches(s[0], key, (q1 + q2)[key], render)
          {
            if key in q2 {
              assert Matches(s[0], key, q2[key], render);
            } else {
              assert Matches(s[0], key, q1[key], render);
            }
          }
        }
        if MatchesAll(s[0], q1 + q2, render) {
          forall key | key in q1 ensures Matches(s[0], key, q1[key], render) {
            assert key !in q2;
            assert Matches(s[0], key, (q1 + q2)[key], render);
          }
          forall key | key in q2 ensures Matches(s[0], key, q2[key], render) {
            assert Matches(s[0], key, (q1 + q2)[key], render);
          }
        }
      }
    }
  }

  /** An issue is listed exactly when it is in the project and passes the
      query. */
  lemma FilterMembership(s: seq<Issue>, query: Query, render: Clock -> string, x: Issue)
    ensures x in Filter(s, query, render) <==> x in s && MatchesAll(x, query, render)
  {
  }

  /** A filter on a name that is not a field of an issue empties the list. */
  lemma UnknownKeyExcludesAll(s: seq<Issue>, query: Query, key: string, render: Clock -> string)
    requires key in query && key !in FieldKeys
    ensures Filter(s, query, render) == []
  {
  }

  /** The `open` filter selects by the coerced boolean, in both directions. */
  lemma OpenFilterSelects(s: seq<Issue>, value: string, render: Clock -> string)
    ensures forall x :: x in Filter(s, map[OpenKey := value], render) <==>
      x in s && x.open == (value == "true")
  {
    forall x ensures x in Filter(s, map[OpenKey := value], render) <==>
      x in s && x.open == (value == "true")
    {
      FilterMembership(s, map[OpenKey := value], render, x);
      assert OpenKey in map[OpenKey := value];
    }
  }

  /** A filter on a text field selects by string equality with the issue's
      own field (timestamps as rendered), in both directions. */
  lemma TextFilterSelects(s: seq<Issue>, key: string, value: string, render: Clock -> string)
    requires key in FieldKeys && key != OpenKey
    ensures forall x :: x in Filter(s, map[key := value], render) <==>
      && x in s
      && (key == IdKey ==> x.id == value)
      && (key == TitleKey ==> x.issueTitle == value)
      && (key == TextKey ==> x.issueText == value)
      && (key == CreatedByKey ==> x.createdBy == value)
      && (key == AssignedToKey ==> x.assignedTo == value)
      && (key == StatusTextKey ==> x.statusText == value)
      && (key == CreatedOnKey ==> render(x.createdOn) == value)
      && (key == UpdatedOnKey ==> render(x.updatedOn) == value)
  {
    var query := map[key := value];
    forall x ensures x in Filter(s, query, render) <==> x in s && Matches(x, key, value, render) {
      FilterMembership(s, query, render, x);
      assert key in query;
    }
  }
}
