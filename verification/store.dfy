/** The process-wide store: project name to the ordered sequence of its
    issues, oldest first. */
module IssueStore {
  import opened Wrappers
  import opened IssueRecord

  type Store = map<string, seq<Issue>>

  /** The store at process start. */
  const EmptyStore: Store := map[]

  /** The issues of `project`; a project never seen holds none. */
  function ProjectIssues(store: Store, project: string): seq<Issue> {
    if project in store then store[project] else []
  }

  /** Lazy creation of a project: an unknown name gets an empty sequence.
      The key becomes visible, the contents of every project stay the same. */
  function Materialise(store: Store, project: string): (st: Store)
    ensures st.Keys == store.Keys + {project}
    ensures forall p :: ProjectIssues(st, p) == ProjectIssues(store, p)
  {
    if project in store then store else store[project := []]
  }

  /** Some issue of `s` carries `id`. */
  predicate HasId(s: seq<Issue>, id: string) {
    exists i :: 0 <= i < |s| && s[i].id == id
  }

  /** `i` is the position of the first issue of `s` that carries `id`. */
  predicate FirstMatch(s: seq<Issue>, id: string, i: int) {
    0 <= i < |s| && s[i].id == id && forall k :: 0 <= k < i ==> s[k].id != id
  }

  /** Position of the first issue carrying `id`, as the array searches
      `find` and `findIndex` over the project's issues use (strict equality
      of ids). */
  function FindIndex(s: seq<Issue>, id: string): (r: Option<nat>)
    ensures r.Some? ==> FirstMatch(s, id, r.value)
    ensures r.None? <==> !HasId(s, id)
  {
    if |s| == 0 then None
    else if s[0].id == id then Some(0)
    else match FindIndex(s[1..], id)
      case None => None
      case Some(i) => Some(i + 1)
  }

  /** There is at most one first match. */
  lemma FirstMatchUnique(s: seq<Issue>, id: string, i: int, j: int)
    requires FirstMatch(s, id, i) && FirstMatch(s, id, j)
    ensures i == j
  {
  }

  /** A search finds exactly the first match. */
  lemma FindIndexExact(s: seq<Issue>, id: string, i: int)
    ensures FindIndex(s, id) == Some(i) <==> FirstMatch(s, id, i)
  {
  }

  /** No two issues of `s` share an id. */
  predicate UniqueIds(s: seq<Issue>) {
    forall i, j :: 0 <= i < j < |s| ==> s[i].id != s[j].id
  }

  predicate ValidProject(s: seq<Issue>) {
    UniqueIds(s) && forall i :: 0 <= i < |s| ==> WellFormed(s[i])
  }

  /** The invariants of the data model: ids unique per project, required
      fields non-empty, updates stamped no earlier than creation. */
  predicate ValidStore(store: Store) {
    forall p :: p in store ==> ValidProject(store[p])
  }

  /** The clock reads `now` or later than every stamp in the store. */
  predicate ClockNotBehind(store: Store, now: Clock) {
    forall p, i :: p in store && 0 <= i < |store[p]| ==> store[p][i].updatedOn <= now
  }
}
