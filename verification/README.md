# Issue tracker: a Dafny model of the issues resource

The system is a small issue-tracking REST service. All of its logic lives in
one resource handler: a process-wide store mapping a project name to the
ordered sequence of that project's issues (oldest first), and four request
handlers over it:

- **create** (POST) checks that `issue_title`, `issue_text` and `created_by`
  are all truthy, builds a record (`open = true`, `assigned_to` and
  `status_text` defaulting to `""`, each stamp set from its own clock reading) and
  appends it;
- **list** (GET) returns the project's issues that pass every query filter,
  in insertion order, with the `open` filter coerced from the string
  `"true"`;
- **update** (PUT) runs an ordered chain of checks (`missing _id`, then
  `could not update`, then `no update field(s) sent`) and then applies a
  whitelisted partial patch to the first issue carrying the id, refreshing
  `updated_on`;
- **delete** (DELETE) checks for `_id`, finds the first issue carrying it and
  splices it out.

The model is functional. `IssueStore.Store` is `map<string, seq<Issue>>`,
and every handler is a pure function returning a `Reply` that holds the
response payload and the store after the request. Request bodies are records
of optional strings, so "falsy" means absent or `""`. The `open` value of an
update body is either a JSON boolean or a string. Clock readings are `Clock`
(`nat`) arguments. A create reads the clock twice, once for `created_on` and
once for `updated_on` (routes/api.js:68-69), so `Create` takes two readings,
the second no earlier than the first. The generated id is an argument of
`Create`, required to be non-empty and new to the project. The ISO-8601
rendering of timestamps only affects behaviour when a GET filters on
`created_on` or `updated_on`, so it is a `render: Clock -> string` argument
of the list handler.

Files, one module each: `wrappers.dfy` (Option), `issue.dfy` (the record and
its field names), `store.dfy` (store, lazy project creation, search by id,
the data-model invariants), `protocol.dfy` (request bodies and response
payloads with their exact texts), `list.dfy`, `create.dfy`, `update.dfy`,
`delete.dfy` (the four handlers), and `sessions.dfy` (properties of request
sequences, including every request of the functional test suite, in its
order, replayed as lemmas).

## Behaviour of the source worth knowing

- A POST materialises the project before it validates (routes/api.js:48-58),
  so a rejected create still makes the project name a key of the store.
- PUT and DELETE check `_id` before they materialise (routes/api.js:81-90,
  136-145), so a request without an id leaves the store untouched.
- Filtering uses loose inequality `issue[key] != filterValue`
  (routes/api.js:35); with string fields and string query values that is
  string equality, and a name that is no field of an issue (its value is
  `undefined`) matches nothing.

## Model

| member | source | states |
|---|---|---|
| IssueStore.Materialise | routes/api.js:19-21 | lazy project creation adds the project's key and changes the contents of no project |
| IssueStore.FindIndex | routes/api.js:148 | the search yields the first position whose id equals the given id, and nothing exactly when no issue carries it |
| IssueStore.FindIndexExact | routes/api.js:93 | the search returns position i if and only if i is the first issue carrying the id |
| ListHandler.Filter | routes/api.js:28-40 | its own contract is only the length bound (never more issues than the project holds); what it returns is stated by FilterCounts and FilterOrdered |
| ListHandler.FilterCounts | routes/api.js:28-40 | every issue passing all filters is listed as often as it occurs in the project; every other issue is not listed |
| ListHandler.FilterOrdered | routes/api.js:28-40 | the listed issues appear in the project's insertion order (a subsequence) |
| ListHandler.FilterNoQuery | routes/api.js:27-29 | with no filters the whole sequence is listed unchanged |
| ListHandler.FilterMembership | routes/api.js:28-40 | an issue is listed if and only if it belongs to the project and passes every filter |
| ListHandler.FilterAppend | routes/api.js:28-40 | filtering a concatenation is the concatenation of the filtered parts |
| ListHandler.FilterConjunction | routes/api.js:29-38 | filters on distinct keys combine as an intersection: filtering by both equals filtering by one and then by the other |
| ListHandler.UnknownKeyExcludesAll | routes/api.js:35-37 | a filter whose key names no issue field lists nothing |
| ListHandler.TextFilterSelects | routes/api.js:35 | a filter on a text field (`_id`, `issue_title`, `issue_text`, `created_by`, `assigned_to`, `status_text`, or a rendered `created_on`/`updated_on`) keeps exactly the issues whose own field equals the value, in both directions |
| ListHandler.OpenFilterSelects | routes/api.js:32-35 | the `open` filter keeps exactly the issues whose `open` equals (value == "true") |
| ListHandler.List | routes/api.js:15-43 | GET returns an order-preserving list counting exactly the matching issues, the whole project for an empty query, and changes no project's contents beyond adding its key |
| CreateHandler.Create | routes/api.js:45-75 | a create fails with "required field(s) missing" if and only if a required field is falsy, appending nothing; otherwise exactly one issue is appended at the end with the given fields, defaults "" for the optional ones, open true, `created_on` and `updated_on` from the two clock readings and the fresh id; other projects are untouched |
| CreateHandler.CreateKeepsProjectValid | routes/api.js:61-73 | a create keeps ids unique and every issue well formed |
| UpdateHandler.ApplyPatch | routes/api.js:116-127 | a patch never changes `_id` or `created_on` and sets `updated_on` to now; a text field takes the supplied value only when it is non-empty; `open` becomes true only for true or "true"; required fields stay non-empty; a patch with no effective field changes only the stamp |
| UpdateHandler.EffectiveIffChanges | routes/api.js:100-110 | the `hasUpdates` check (`open` present, or another whitelisted field non-empty) holds if and only if the patch can change some issue beyond its update stamp |
| UpdateHandler.PatchIdempotent | routes/api.js:117-125 | applying the same patch twice gives the same record as applying it once at the later time |
| UpdateHandler.Update | routes/api.js:77-130 | errors come in order: missing or empty `_id` leaves the store as it was, an unknown id gives "could not update", a patch with no effective field gives "no update field(s) sent"; success happens exactly when all three checks pass; on error no issue changes; on success the length is kept, ids and creation stamps are kept, and only the first issue carrying the id is patched |
| UpdateHandler.UpdateKeepsProjectValid | routes/api.js:116-127 | an update keeps ids unique, required fields non-empty and `updated_on` no earlier than `created_on`, given a clock that has not gone backwards |
| UpdateHandler.UpdateRepeated | routes/api.js:93-127 | repeating a successful update succeeds again and changes only the `updated_on` of the issue the first update patched |
| DeleteHandler.RemoveAt | routes/api.js:155 | splicing out one position shortens the sequence by one and keeps the others in order |
| DeleteHandler.Delete | routes/api.js:132-158 | a missing or empty `_id` leaves the store as it was; an unknown id gives "could not delete" and removes nothing; otherwise exactly the first issue carrying the id is removed, the length drops by one and the order of the rest is kept |
| DeleteHandler.DeleteKeepsProjectValid | routes/api.js:148-155 | a delete keeps ids unique and every issue well formed |
| DeleteHandler.DeleteTwiceFails | routes/api.js:148-152 | with unique ids, a deleted id is no longer in the project and deleting it again gives "could not delete" |
| Sessions.CreateKeepsConsistent | routes/api.js:61-73 | a create with a fresh id keeps every project valid and no stamp later than the clock |
| Sessions.UpdateKeepsConsistent | routes/api.js:117-127 | an update keeps every project valid and no stamp later than the clock |
| Sessions.DeleteKeepsConsistent | routes/api.js:154-155 | a delete keeps every project valid and no stamp later than the clock |
| Sessions.CreateThenList | routes/api.js:28-73 | after a create, a listing equals the earlier listing followed by the new issue when it passes the query |
| Sessions.CreateThenDelete | routes/api.js:61-157 | deleting the issue just created succeeds and restores the project's sequence exactly |
| Sessions.DeleteThenList | routes/api.js:148-155 | with unique ids, after a delete no listing filtered on the deleted id returns anything |
| Sessions.ScenarioCreate | tests/2_functional-tests.js:15-76 | creating with every field, with required fields only, and with fields missing gives the full record, the defaulted record and the error |
| Sessions.ScenarioList | tests/2_functional-tests.js:82-126 | listing with no filter gives both issues in order; `open=true` gives both open issues; `open=true` plus an author gives the one matching issue |
| Sessions.ScenarioUpdate | tests/2_functional-tests.js:132-161 | a one-field update and then a two-field update of the first issue succeed and change exactly those fields and its stamp |
| Sessions.ScenarioUpdateErrors | tests/2_functional-tests.js:163-203 | missing id, no fields and an unknown id give their errors, in that order, and change nothing |
| Sessions.ScenarioDelete | tests/2_functional-tests.js:209-246 | deleting an issue removes it; an unknown id and a missing id give their errors and change nothing |

## Left out

- HTTP transport: routing, `req`/`res` handling, JSON serialisation and the fact that every response has status 200. The model keeps the payload shapes and their exact `error`/`result` texts (`Protocol.Response`).
- Id generation from `Math.random` and `Date.now` (routes/api.js:7-9). `Create` takes the id as an argument and requires it to be non-empty and not yet used in the project. The source only makes collisions unlikely.
- Reading the clock and the ISO-8601 rendering of `new Date()`. Clock readings are `nat` arguments; the rendering is an argument of the list handler.
- CreateHandler.Create: requires its second clock reading to be no earlier than its first. The source reads the system clock twice and does not check this.
- UpdateHandler.UpdateKeepsProjectValid: needs a clock reading no earlier than every stored stamp (`ClockNotBehind`) to keep `updated_on >= created_on`. The source takes this from the system clock and does not check it.
- JSON values other than strings (numbers, `null`, objects) in bodies and stored fields, and loose-equality coercions between them. For example, the source would store a `null` sent for a text field in an update.
- Repeated query keys, which arrive as arrays rather than strings.
- Names that collide with `Object.prototype` properties, used as project names or filter keys. For example, the project `constructor` makes the source's handlers fail, and the filter key `toString` compares against a function's text.
- Request bodies are modelled as their known fields only, so any other key in a body has no effect. In the source a PUT body carrying a `hasOwnProperty` key hides the method called at routes/api.js:102, so once the id is found the handler throws (HTTP 500) and patches nothing; the model answers that request as if the key were absent.
- The functional test suite as a program. Its requests and assertions appear only as the `Sessions.Scenario*` lemmas.
- Concurrency. The service handles one request at a time and has no locking.
