# Request resolver of the openSUSE staging plugin, in Dafny

This project models `RequestFinder` from `osclib/request_finder.py`: the
component of the `osc staging` plugin that turns user tokens into the map
`srs` from change-request ids to small records. A token can be a request
number, a package name or a source project name. A record is
`{project}`, `{project, state}` or `{staging}`.

The model follows the code's own shape:

- `text.dfy` (module `Text`): decimal digits, `str` and `int` of numbers,
  and an ASCII `lower`.
- `model.dfy` (module `Model`): tokens, request documents (id, state,
  actions with a target project/package and an optional source project),
  records, the exceptions, and `Api`, the remote answers the finder reads.
  `_is_int` is `IsInt`.
- `lookups.dfy` (module `Lookups`): `find_request_id`,
  `find_request_package` and `find_request_project` as functions from the
  map before the call to the map after it and the returned value or raised
  exception. Each loop is a walk over a prefix of the documents, of the
  kind the loop consumes. The module also holds the lemmas that say what
  each lookup means.
- `pipelines.dfy` (module `Pipelines`): `find` and `find_via_stagingapi`
  as functions over the token list, with lemmas about every token.
- `request_finder.dfy` (module `Finder`): the class `RequestFinder` with
  the field `srs`. Its methods update `srs` in place with the same loops,
  branches and early exits as the source, and each method is proved to
  produce exactly the map and answer given by the matching function.

Remote answers are inputs, not fetched. `Api.byId` gives the document the
build service serves for `request/<text>`, or `None` when the GET fails
with an HTTP error. `Api.byPackage` gives the collection for the
package-name query. `Api.openRequests` is the collection for the
source-project query. `Api.stagings`, `Api.packageForRequest` and
`Api.requestForPackage` stand for the staging list and the two staging
lookups of `StagingAPI`.

Python's three answers of `find_request_id` (False, None, True) are
`Some(false)`, `None` and `Some(true)`. `find_request_project` returns
True or None; here that is `true` or `false`. An exception is an `Err`,
and the map is kept as the exception left it. Request ids are positive
(`RequestId`), so a request id is truthy, as `if last_rq:` and `if rq:`
rely on. For the first match, `assert last_rq < request` compares against
no previous id and holds vacuously (Python 2's `None < n`).

Details of `osclib/request_finder.py` that the model follows:

- In the package walk, the new entry is written before the "multiple
  requests" check. The check reads `srs[last_rq]`, the entry as it is
  after that write; with a repeated id, that is the new entry. The
  ordering assertion comes only after the check. So a live earlier match
  followed by a smaller id raises the ambiguity error, not the ordering
  error. With a repeated id, the new match's state decides: a live state
  raises the ambiguity error; a declined one deletes the entry just
  written and then fails the ordering assertion.
- Only the first action's target is looked at, both for the scope check
  of `find_request_id` and for the package-name match.
- In `find_via_stagingapi`, the package-name lookup sits in the `else`
  branch. For a numeric token it runs only in the stagings where the id
  lookup failed. The `continue` statements have no effect: every staging
  is scanned, and a later hit overwrites the entry for its key.
- `find_request_id` catches every `urllib2.HTTPError` of the GET (line
  45) and returns None, so any HTTP error is a miss, not only "not
  found".
- `urllib2.quote` hands a falsy argument back unchanged and fails on any
  other int. So a non-zero int token makes `find_request_package` raise
  before any request is made. For the int 0, the query for "0" is sent
  (lines 68-71). An empty collection then gives None, and `find` goes on
  to the id and project lookups. Otherwise the first document raises:
  at a missing `<action>` (line 78), or else at `package.lower()` (line
  79).

## Model

| member | source | states |
|---|---|---|
| `Model.EchoedIdIsKey` | osclib/request_finder.py:9-10 | `_is_int` accepts an int, or a string of decimal digits. A token whose text is an id's canonical text passes it, and `int()` of that token is the id. So the key stored is the id the gateway echoed. |
| `Lookups.IdLookupMisses` | osclib/request_finder.py:39-51 | `find_request_id` returns False exactly when `_is_int` fails. It returns None exactly when the GET fails or the returned `id` differs textually from the token. In both cases, and whenever it raises, `srs` is unchanged. |
| `Lookups.IdLookupScope` | osclib/request_finder.py:53-60 | When the id is echoed, the first action's target project decides. If it is neither `openSUSE:<X>` nor prefixed by `openSUSE:<X>:Staging:`, WrongArgs is raised naming the request and the project, and `srs` is unchanged. Otherwise `srs[id] = {project}`, True is returned, and no other key changes. |
| `Lookups.PackageStep` | osclib/request_finder.py:76-100 | One loop iteration keeps the loop invariant: `last_rq` names an entry of `srs` that has a state. The only exceptions it raises are the missing-action, multiple-requests and ordering errors. |
| `Lookups.PackageWalk` | osclib/request_finder.py:75-102 | The whole walk from `last_rq = None` keeps the same invariant and raises only those three kinds of error. |
| `Lookups.PackageWalkErrPersists` | osclib/request_finder.py:93-98 | Once an exception is raised, later documents change neither `srs` nor the outcome. |
| `Lookups.PackageWalkMeaning` | osclib/request_finder.py:75-102 | A match is a document whose first action's target package equals the token case-insensitively. The walk returns normally exactly when every document has an action, the match ids strictly increase, and every match but the last is declined. It then returns the last match's id, or None without matches. `srs` then has every earlier match evicted and the last one stored as `{project: openSUSE:<X>, state}`. |
| `Lookups.PackageSingleSurvivor` | osclib/request_finder.py:85-102 | On a normal return, exactly one of the call's matches remains in `srs`: the returned `last_rq`, with its own state. Every evicted match was declined, and keys outside the matches are untouched. With no matches, None is returned and `srs` is unchanged. |
| `Lookups.PackageConflict` | osclib/request_finder.py:85-98 | Take the first match the walk cannot get through, after an accepted run over documents that all have an action. If the state read from `srs[last_rq]` is live, WrongArgs is raised naming both ids. If it is declined and the id does not increase, the ordering assertion fails. |
| `Lookups.PackageWalkResultIndependent` | osclib/request_finder.py:75-102 | Whether the walk raises, and which id it returns, does not depend on what `srs` held before the call. |
| `Lookups.PackageLookupIntToken` | osclib/request_finder.py:67-79 | An int token never changes `srs` and never yields a request id. The call returns normally exactly for the int 0 with an empty collection for "0", and then returns None. Otherwise it fails on the int itself (`quote` or `lower`) or on a document without an action. |
| `Lookups.ProjectWalkKeys` | osclib/request_finder.py:115-125 | `find_request_project` returns True exactly when some request has an action whose source project equals the token. It adds exactly those requests' ids, leaves every other key as it was, and never raises an ambiguity error. |
| `Lookups.ProjectWalkEntry` | osclib/request_finder.py:116-123 | Each recorded request is stored as `{project: openSUSE:<X>, state}`, with the state of the last such request carrying that id. |
| `Pipelines.ResolveTokenResult` | osclib/request_finder.py:134-141 | The outcome of one iteration of `find` (returning, or which exception it raises) does not depend on the map built so far. It is read from the three lookups' answers on the empty map. |
| `Pipelines.ResolveTokenVerdict` | osclib/request_finder.py:134-141 | A token gets through `find` only if the package, id or project lookup accepts it. A "no SR# found" error names that token, and none of the three accepts it. Conversely, `find` raises "no SR# found" for this token exactly when all three lookups miss it without raising: package None, id False or None, project None. |
| `Pipelines.ResolveVerdict` | osclib/request_finder.py:134-141 | `find` completes only if every token is accepted by some lookup. A "no SR# found" error names the first token it could not get through; no lookup accepts that token, and every earlier token was accepted. Conversely, if the tokens before `tokens[i]` get through and all three lookups miss `tokens[i]` without raising, `find` raises "no SR# found" for `tokens[i]`. |
| `Pipelines.ScanStagingsKeys` | osclib/request_finder.py:155-165 | A token is found exactly when some staging has a hit for it: by id for a numeric token, or else by package name. `srs` gains exactly the hit keys; other keys stay. |
| `Pipelines.ScanStagingsEntry` | osclib/request_finder.py:155-165 | Every staging is scanned. Each hit key ends up as `{staging: s}`, where `s` is the last staging whose hit has that key. |
| `Pipelines.ResolveStagedVerdict` | osclib/request_finder.py:153-167 | `find_via_stagingapi` completes exactly when every token has a hit in some staging. Otherwise WrongArgs names the first token with a hit in no staging. It fails in no other way. |
| `Finder.RequestFinder.constructor` | osclib/request_finder.py:15-31 | A new finder keeps the given api and starts from an empty `srs`. |
| `Finder.RequestFinder.FindRequestId` | osclib/request_finder.py:33-60 | Updates `srs` in place and returns what `IdLookup` gives for the old `srs`. |
| `Finder.RequestFinder.FindRequestPackage` | osclib/request_finder.py:62-102 | The loop with the running `last_rq` leaves `srs` and returns, or raises, what `PackageLookup` gives for the old `srs`. The loop invariant is the walk over the documents seen so far. |
| `Finder.RequestFinder.FindRequestProject` | osclib/request_finder.py:104-125 | The nested loop with the `ret` flag leaves `srs` and `ret` as `ProjectLookup` gives them. |
| `Finder.RequestFinder.Find` | osclib/request_finder.py:127-141 | Tries package, then id, then project for each token and stops at the first truthy answer. The outcome is the one `Resolve` gives. |
| `Finder.RequestFinder.FindViaStagingApi` | osclib/request_finder.py:143-167 | The nested loop with the `found` flag gives the outcome `ResolveStaged` gives. |
| `Finder.RequestFinder.FindSr` | osclib/request_finder.py:169-178 | Runs `find` from an empty `srs` and returns the map, or the exception. |
| `Finder.RequestFinder.FindStagedSr` | osclib/request_finder.py:180-189 | Runs `find_via_stagingapi` from an empty `srs` and returns the map, or the exception. |

## Left out

- HTTP and URL building (`makeurl`, `http_GET`, and the escaping done by `urllib2.quote`): network I/O. Each answer is a given input (`Api`), and a given query always gets the same answer.
- An HTTP error on the two collection queries is not modelled. The source does not catch it there, so it would abort the call; the model assumes those queries always return a collection.
- XML parsing with `cElementTree`: a foreign library. Documents are Dafny datatypes.
- Malformed documents are left out: a missing or non-numeric `id` attribute, or a missing target, target `project`/`package` or `<state>`. Documents always carry a numeric id here. In `find_request_id`, a missing or non-numeric `id` would be a miss (`root.get('id', None)` differs from the token, lines 50-51). In `find_request_package`, `int(sr.get('id'))` raises TypeError for a missing id and ValueError for a non-numeric one (line 82). In `find_request_project`, `sr.attrib['id']` raises KeyError for a missing id (line 120). A missing target or `<state>` raises AttributeError. A document without any `<action>` is modelled (`MissingAction`).
- The code of the `StagingAPI` methods `get_staging_projects`, `get_package_for_request_id` and `get_request_id_for_package` is not part of this model. They are the inputs `stagings`, `packageForRequest` and `requestForPackage`.
- `osc-staging.py`, the command-line dispatch of the plugin, is not part of this model.
- Unicode behaviour of `str.isdigit` and `str.lower`: only ASCII digits and ASCII case folding are modelled.
- An int token that fails in `find_request_package` raises a Python exception whose type is not modelled; it is the one error `NotAString`.
