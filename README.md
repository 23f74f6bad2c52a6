# Bot synchronisation to the CSML studio, modelled in Dafny

This project models `BotsService.updateBot`: one synchronisation run that pushes a
repository's CSML flows and AI rules to the CSML studio. A run has these steps:

1. It builds the two authentication headers once.
   - `X-Api-Key` is `<apiKey>|<unix seconds>`.
   - `X-Api-Signature` is `sha256=<hex HMAC-SHA256 of the key header>`.
2. It loads the local flows (the `.csml` files of `flows/`) and the rules file
   `airules.json`.
3. It fetches the studio's flows.
4. It reconciles local and remote flows by their `name` property:
   - deletes: remote flows without a local namesake;
   - updates: each remote flow with a local namesake, overlaid by the first such local flow;
   - creates: local flows without a remote namesake.
5. It issues the calls strictly one after the other: all deletes, all updates, all creates,
   then `PUT /api/bot` with `{ airules }` when the rules value is truthy. A rejected call is
   rethrown, so the run stops at the first rejection. A delete or update whose flow `id`
   cannot be printed (an object with its own `toString` property) throws while its path
   is built, so the run also stops there, before that call is made.

Modules:

- `Json` (json.dfy): JSON values and flow records (`map<string, Json>`). Also JavaScript
  truthiness, property reads (`undefined` is `None`) and strict equality `===`.
- `Sequences` (sequences.dfy): `Positions`, the increasing list of indices a filter keeps.
  The properties of the three reconciliation groups are stated through it.
- `Reconcile` (reconcile.dfy): `find` as `FindIndex`, the spread merge `Merge`, and the
  groups `Deleted`, `Updated` and `Created`. The `Diff` method holds the two `forEach`
  loops and is proved equal to those three functions. Lemmas give the partition, the
  membership conditions, field precedence and first-match-wins.
- `Auth` (auth.dfy): the header strings, the floor division to seconds, and decimal
  printing of the timestamp. The key header is proved to parse back to the key and the
  second.
- `Loader` (loader.dfy): the `.csml` filter loop `GetRepoFlows` and the rule of
  `getRepoAirules`. The filesystem and `JSON.parse` are inputs.
- `Requests` (requests.dfy): request records (verb, path, headers, body) and the planned
  call sequence of a run. `Issued` is the part of a plan that is actually made when the
  first rejected call, or the first call whose path cannot be built, aborts the run.
- `BotSync` (bot_sync.dfy): the class `StudioClient`. Its field `log` records every call
  made. The remote service's verdict is a fixed oracle `fails`. `Send` makes one call: it
  appends that call to the log and reports whether the service accepted it. The methods
  `SendEach` (one `Promise.each`), `SendGroups`, `Apply`, `Sync`, `DiffAndApply` and
  `UpdateBot` each run a plan. Each is proved to append exactly `Issued(plan)` to the log
  and to return the outcome of that plan. This file also holds the finding below.

Behaviour of `bots.service.js` that the model keeps as it is:

- the headers are computed once per run (line 93) and reused for every call of that run;
- the rules loader returns any parsed value it can report a length for, array or not;
- a run makes no credential checks;
- local flows with duplicate names and no remote namesake are all created.

## Model

| member | source | states |
|---|---|---|
| Json.Truthy | bots.service.js:165 | JavaScript truthiness of a JSON value, as `if (airules)` tests it: arrays and objects are always truthy (no contract of its own) |
| Json.StrictEquals | bots.service.js:110-116 | `===` on two property reads: `undefined === undefined` holds, primitives compare by value, arrays and objects from different parses are never equal (no contract of its own) |
| Reconcile.Deleted | bots.service.js:109-113 | the delete group; characterised by `Reconcile.DeletedAt` and `Reconcile.DeletedIff` |
| Reconcile.Updated | bots.service.js:109-111 | the update group; characterised by `Reconcile.UpdatedAt` and `Reconcile.UpdatedFields` |
| Reconcile.Created | bots.service.js:115-118 | the create group; characterised by `Reconcile.CreatedAt` and `Reconcile.CreatedIff` |
| Reconcile.FindIndex | bots.service.js:110 | `find` yields the first flow whose `name` is `===` the target's; none before it matches; `None` only when no flow matches |
| Reconcile.SameName | bots.service.js:110-116 | `f.name === studioFlow.name` and its mirror at line 116: two flows are namesakes when their `name` reads are strictly equal, so two flows without a `name` match (no contract of its own; see `Reconcile.FindIndex`) |
| Reconcile.Merge | bots.service.js:111 | `{...remote, ...local}` has the union of both key sets, every local property wins, every other property is the remote one |
| Reconcile.Diff | bots.service.js:105-118 | the two push loops produce exactly `Deleted`, `Updated` and `Created` for the given local and remote flows |
| Reconcile.PartitionSizes | bots.service.js:109-113 | every remote flow lands in exactly one of updates and deletes: the two sizes add up to the number of remote flows |
| Reconcile.DeletedAt | bots.service.js:109-113 | the deletes are the remote flows without a local namesake, unchanged and in remote order, one per such position |
| Reconcile.DeletedIff | bots.service.js:109-113 | a record is deleted iff it is a remote flow and no local flow shares its name |
| Reconcile.UpdatedAt | bots.service.js:109-111 | one update per remote flow with a local namesake, in remote order; each is that remote flow merged with the first local namesake |
| Reconcile.UpdatedFields | bots.service.js:110-111 | every property of an update entry is the first local namesake's when it has it, and the remote flow's otherwise; so the remote `id` survives exactly when the local flow has no `id` |
| Reconcile.IdenticalFlowsAllUpdated | bots.service.js:109-118 | flows reconciled against identical remote flows (distinct primitive names) are all sent as updates, and nothing is deleted or created: there is no equality short-cut |
| Reconcile.AllFoundUpdated | bots.service.js:109-113 | when each remote flow's first local namesake is that same flow, the update group is exactly the remote flows, each sent unchanged |
| Reconcile.AllFoundNotDeleted | bots.service.js:109-113 | when every remote flow has a local namesake, the delete group is empty |
| Reconcile.AllFoundNotCreated | bots.service.js:115-118 | when every local flow has a remote namesake, the create group is empty |
| Reconcile.CreatedAt | bots.service.js:115-118 | the creates are the local flows without a remote namesake, unchanged and in local order |
| Reconcile.CreatedIff | bots.service.js:115-118 | a record is created iff it is a local flow and no remote flow shares its name |
| Reconcile.CreatedDeletedDisjoint | bots.service.js:109-118 | no created flow shares its name with a deleted flow |
| Reconcile.DuplicateLocalNames | bots.service.js:110-116 | of two local flows with the same name, the later one never supplies an update, and it is created exactly when the earlier one is |
| Reconcile.ScenarioTwoByTwo | bots.service.js:105-118 | local flows A, B against remote B, C: delete C, update B merged with the local B, create A |
| Sequences.Positions | bots.service.js:109-118 | every listed position is in range and its element passes the filter |
| Sequences.PositionsExact | bots.service.js:109-118 | the positions are strictly increasing and hold exactly the indices whose element passes the filter |
| Auth.UnixSeconds | bots.service.js:63 | `Math.floor(now / 1000)`: the whole second `t` with `1000·t <= now < 1000·t + 1000` |
| Auth.DecimalRoundTrip | bots.service.js:64 | the decimal text of a natural number reads back to that number |
| Auth.Decimal | bots.service.js:64 | the digits `${UNIX_TIMESTAMP}` prints for a non-negative second: at least one digit, all digits, and no leading zero unless the text is a single digit; read back by `Auth.DecimalRoundTrip` |
| Auth.NumberTextRoundTrip | bots.service.js:64 | the text of an integer timestamp reads back to it, and it contains no bar character |
| Auth.KeyHeaderRoundTrip | bots.service.js:64 | splitting the key header at its last bar character gives back the API key and the second |
| Auth.NumberTextCanonical | bots.service.js:64 | the printed timestamp is canonical: a minus sign only for negative seconds, no leading zero, zero printed as `0` and never `-0` |
| Auth.KeyHeader | bots.service.js:64 | the `X-Api-Key` text: the API key, a bar character, then the printed Unix second (no contract of its own; pinned by `Auth.SetAuthenticationHeader`) |
| Auth.SignatureHeader | bots.service.js:65-68 | the `X-Api-Signature` text: `sha256=` followed by the hex HMAC of the key header under the secret (no contract of its own; pinned by `Auth.SetAuthenticationHeader`) |
| Auth.NumberText | bots.service.js:64 | how a template literal prints an integer-valued number below 10^21 in magnitude, which covers every Unix second `Date.now()` yields (characterised by `Auth.NumberTextRoundTrip` and `Auth.NumberTextCanonical`) |
| Auth.SetAuthenticationHeader | bots.service.js:62-70 | the key header is exactly the API key, a bar character and the canonical text of the current second, and the API key and the current second can be recovered from it; the signature header is `sha256=` followed by the HMAC digest of exactly that key header under the secret |
| Loader.GetRepoFlows | bots.service.js:41-55 | the loop returns no texts when `flows/` is absent, otherwise the texts of the `.csml` entries in directory order |
| Loader.FlowTextsAt | bots.service.js:44-51 | the k-th loaded text is the text of the k-th directory entry whose name ends with `.csml` |
| Loader.GetRepoAirules | bots.service.js:20-34 | absent file or parse failure yields `[]`; so does a parsed value whose `.length` cannot be read or printed at line 27 (`null`, or an object whose `length` holds an object with a `toString` property), since that throws inside the `try`; every other parsed value is returned as it is; the result is never `null` |
| Loader.LengthReportThrows | bots.service.js:27 | when `${airules.length}` throws: the value is `null`, or its `length` property holds a value whose text conversion throws (no contract of its own) |
| Json.TextConversionThrows | bots.service.js:27 | when printing a JSON value throws: an object with an own `toString` property, or an array with such an element (no contract of its own) |
| Loader.AirulesKept | bots.service.js:23-28 | arrays, strings and objects without `length` are returned unchanged; an object whose `length` is `{"toString": 0}` is replaced by `[]` |
| Loader.IsFlowFile | bots.service.js:47 | the filter: the entry's file name ends with `.csml` (no contract of its own) |
| Loader.RepoFlowTexts | bots.service.js:43-51 | the texts `getRepoFlows` returns, characterised by `Loader.GetRepoFlows` and `Loader.FlowTextsAt` (no contract of its own) |
| Loader.AirulesPushed | bots.service.js:165-176 | with the rules from `getRepoAirules`, the rules `PUT` is sent unless the file holds `false`, `0` or `""`; an absent, unparsable or empty-array file still sends it, with `[]` |
| Requests.FetchFlowsRequest | bots.service.js:99-101 | `GET /api/bot/flows` with the run's headers and no body (no contract of its own) |
| Requests.DeleteRequest | bots.service.js:123-126 | `DELETE /api/bot/flows/${df.id}` with the run's headers and the remote flow as body; when the `id` cannot be printed the call is never made (no contract of its own; see `Requests.ApplyRequestsShape` and `Requests.Unsendable`) |
| Requests.UpdateRequest | bots.service.js:138-141 | `PUT /api/bot/flows/${uf.id}` with the run's headers and the merged flow as body; when the `id` cannot be printed the call is never made (no contract of its own; see `Requests.ApplyRequestsShape` and `Requests.Unsendable`) |
| Requests.Unsendable | bots.service.js:123-138 | a call's path throws while it is built exactly when it addresses a flow whose `id` cannot be printed (no contract of its own; see `Requests.IssuedPrefix` and `Requests.ThrowingIdNotSent`) |
| Requests.CreateRequest | bots.service.js:153-156 | `POST /api/bot/flows` with the run's headers and the local flow as body (no contract of its own) |
| Requests.AirulesRequest | bots.service.js:167-170 | `PUT /api/bot` with the run's headers and `{ airules }` as body (no contract of its own) |
| Requests.DeleteRequests | bots.service.js:122-131 | the calls `Promise.each` makes over `deleteFlows`, one per flow in array order (no contract of its own; see `Requests.ApplyRequestsAt`) |
| Requests.UpdateRequests | bots.service.js:137-146 | the calls `Promise.each` makes over `updateFlows`, one per flow in array order (no contract of its own; see `Requests.ApplyRequestsAt`) |
| Requests.CreateRequests | bots.service.js:152-161 | the calls `Promise.each` makes over `createFlows`, one per flow in array order (no contract of its own; see `Requests.ApplyRequestsAt`) |
| Requests.AirulesRequests | bots.service.js:165-176 | `if (airules)`: the rules `PUT` when the rules value is truthy, no call otherwise (no contract of its own; see `Requests.RunShape`) |
| Requests.ApplyRequests | bots.service.js:120-176 | the apply phase's calls: every delete, every update, every create, then the rules `PUT` when the rules are truthy; characterised by `Requests.ApplyRequestsAt` and `Requests.ApplyRequestsShape` |
| Requests.UpdateBotRequests | bots.service.js:99-176 | every call a run plans: the fetch of the studio flows, then the apply phase for the reconciliation of the local flows against them; characterised by `Requests.UpdateBotRequestsShape` and `Requests.FetchFirst` |
| Requests.Issued | bots.service.js:120-176 | the calls made of a plan when each is awaited, a rejection is rethrown (lines 127-130, 142-145, 157-160, 171-174) and a path that cannot be built throws before its call; characterised by `Requests.IssuedPrefix` |
| Requests.OutcomeOf | bots.service.js:120-176 | how such a run ends: completed, rejected at the first rejected call, or aborted before the first call whose path cannot be built; characterised by `Requests.IssuedPrefix` |
| Requests.IssuedPrefix | bots.service.js:120-176 | the calls made are a prefix of the plan, each with a buildable path; all but the last were accepted; the run completes iff every planned call is buildable and accepted, and then every call was made; a rejected run reports the last call made, which was rejected; an aborted run reports the unbuildable planned call right after the last one made, and every call made was accepted |
| Requests.IssuedStopsAt | bots.service.js:120-176 | when call `i` is the first that is rejected or cannot be built, exactly calls `0..i` are made (calls `0..i-1` when it cannot be built) and the run reports call `i` |
| Requests.ThrowingIdNotSent | bots.service.js:138-145 | a run whose one matching flow has an `id` with its own `toString` makes only the fetch and stops before the update, although the service would accept every call |
| Requests.IssuedConcat | bots.service.js:120-176 | awaiting two groups in turn: the second group is reached only when the whole first group was accepted |
| Requests.GroupRejected | bots.service.js:127-130 | a group that ends the run (a rejected call or an unbuildable path) hides every later call |
| Requests.GroupCompleted | bots.service.js:120-176 | a fully accepted group is made whole and is followed by the next group |
| Requests.FetchFirst | bots.service.js:99-102 | a run starts with the fetch; when the fetch is rejected nothing else is sent, otherwise the apply phase follows |
| Requests.ApplyRequestsGroups | bots.service.js:120-176 | the apply phase is its four groups (deletes, updates, creates, rules) awaited in that order |
| Requests.ApplyRequestsAt | bots.service.js:120-176 | where each delete, update, create and the rules call sit in the apply phase, and its length |
| Requests.ApplyRequestsShape | bots.service.js:120-176 | apply calls are ordered deletes, updates, creates, rules; all carry the run's headers; every delete and update addresses the `id` of the record it sends |
| Requests.RunShape | bots.service.js:92-176 | the fetch is first; phases never go backwards; the rules `PUT` is last iff the rules are truthy and appears nowhere else; one header pair throughout; ids as above; the call count |
| Requests.RunPhases | bots.service.js:92-176 | the phases of a planned run never go backwards (fetch, deletes, updates, creates, rules), and only the last call can be the rules `PUT` |
| Requests.UpdateBotRequestsShape | bots.service.js:92-176 | a planned run has one call for the fetch, one per remote flow, one per created flow, and one more when the rules are truthy, in the order above, all with the same headers |
| BotSync.StudioClient.constructor | bots.service.js:6-11 | the client holds the configured key and secret and starts with an empty log |
| BotSync.StudioClient.Send | bots.service.js:122-130 | one awaited call: appended to the log, accepted iff the service does not reject it |
| BotSync.StudioClient.SendEach | bots.service.js:122-131 | `Promise.each` over one group: the log grows by the calls made up to the first rejection or unbuildable path, and the outcome names that call |
| BotSync.StudioClient.SendGroups | bots.service.js:120-176 | groups sent in turn: the log grows by exactly the calls made of the concatenated groups, and the outcome is that of the concatenation |
| BotSync.StudioClient.Apply | bots.service.js:120-176 | the apply phase: the log grows by the calls made of deletes, updates, creates and rules, in that order |
| BotSync.StudioClient.DiffAndApply | bots.service.js:105-176 | after the fetch: the reconciliation, then the apply phase of its three groups |
| BotSync.StudioClient.Sync | bots.service.js:99-176 | fetch, reconcile, apply: the log grows by the calls made of the planned run |
| BotSync.LocalFlows | bots.service.js:95 | the local flows of a run: the loaded texts, each read as the record it declares (no contract of its own) |
| BotSync.StudioClient.PlannedRun | bots.service.js:92-176 | every call one run at time `nowMs` would make if all were accepted: headers from that time, loaded flows and rules, the fetched studio flows (no contract of its own; see `Requests.UpdateBotRequestsShape`) |
| BotSync.StudioClient.UpdateBot | bots.service.js:92-177 | one run at time `nowMs`: the log grows by the calls made of the planned run, which uses one header pair built from that time, the loaded flows and the loaded rules |
| BotSync.RunLog | bots.service.js:92-176 | what a run leaves in the log: the fetch first; phases in order; one header pair; every call before the last accepted; a rejected run ends at the call it reports; an aborted run stops just before the flow call it reports; a completed run made every planned call |
| BotSync.RawTextView | bots.service.js:48 | a pushed raw text, spread as a record, has no `name` property |
| BotSync.NoNamesakeRemote | bots.service.js:109-113 | with no shared name, every remote flow is deleted and none is updated |
| BotSync.NoNamesakeLocal | bots.service.js:115-118 | with no shared name, every local flow is created |
| BotSync.RawTextFlowsNeverMatch | bots.service.js:109-118 | as written, with the raw texts of line 48 as local flows and named remote flows: every remote flow is deleted, nothing is updated, every local file is created |
| BotSync.DeclaredNameMatches | bots.service.js:109-118 | with flows read as the records they declare, a local flow sharing a remote flow's name makes that remote flow an update, not a delete, and the local flow is not created |

## Left out

- HTTP transport: `superagent`, the base URL and response handling are not modelled. A
  call is a request record, and the service's answer is the oracle `fails`. The fetch's
  answer body is the parameter `studioFlows`.
- HMAC-SHA256 and hex encoding (the `crypto` module) are the function parameter `hmacHex`.
- The filesystem and `JSON.parse` are inputs. A `flows/` listing is `Option<seq<DirEntry>>`
  with each entry's text. The rules file is `AirulesFile`. Errors from `readdirSync` or
  `readFileSync` on `flows/` are not modelled.
- Reading a flow document into the record the reconciliation compares is the function
  parameter `parse`. See the finding.
- `process.env`: the key, secret and clock are parameters. An undefined key, which a
  template literal prints as `undefined`, is not modelled. Neither the source nor the
  model checks credentials for emptiness.
- `DEBUG` logging and all `console` output.
- `buildBot`, `createSnapshot`, `deleteSnapshot` and index.js are not part of this model.
- JSON numbers are reals. JSON key order is not kept: a record is a map.
- `bots.service.js:47` contains the syntax error `f{`. The model reads it as the intended
  `{`.
- `async`/`await` and `Promise.each` are modelled as plain sequential loops. Their
  iteration is strictly sequential.
- The `if (xs.length)` guards around each group (lines 121, 136, 151) are not modelled
  separately. An empty group makes no call either way.
- Reconcile.Diff: `if (found)` (lines 111 and 117) is modelled as "a namesake was found".
  A flow record is an object, so a found record is always truthy. Only for the raw texts
  that line 48 pushes can a found value be falsy (an empty text, found for a remote flow
  without a `name`). The source then deletes that remote flow, where the model updates it.
- BotSync.RawTextFlowsNeverMatch: the as-written run, with raw texts as local flows, is
  represented only at the reconciliation level, through `BotSync.RawTextView`, and only
  for named remote flows, for which that view is exact. The requests of such a run are not
  modelled: there a create posts the raw string (line 156), while `Requests.CreateRequest`
  always sends a record.
- The fetched `studioFlows` is taken to be an array of objects. A `null` element would
  make the reconciliation throw when it reads `.name` (line 110), after the fetch was
  made; that path is not modelled.
- Sequences.Positions: its own contract gives only range and filter membership. The
  exactness and the order are stated in `Sequences.PositionsExact`.

## Findings

| source | as written | input that shows it | evidently intended | confidence | as-written member | corrected member |
|---|---|---|---|---|---|---|
| bots.service.js:48 with 110,116 | `getRepoFlows` pushes each file's raw text, and the reconciliation then reads `.name` of a string, which is `undefined` | one local file `main.csml` declaring flow `Main`, and a remote flow named `Main`: the remote flow is deleted and the file is re-created instead of updated | each local flow is compared by the name it declares, so a flow already in the studio is updated in place | not executed | BotSync.RawTextFlowsNeverMatch | BotSync.DeclaredNameMatches |
