# Repository API handler — a Dafny model

This project models the repository API route of the ebpfs web application
(`src/pages/api/repository.ts`): the read-only GET branch, and the POST branch
that authenticates a token, checks the two search-service secrets, decides
between conflict, update and create for the submitted (organization, project),
writes the record to the repository store and then writes a search document to
the search index, whose `content` is the fetched README cut to 5000 UTF-16 code
units and stripped of line feeds. Text is modelled as a sequence of UTF-16 code
units (`Content.Text`), the units that JavaScript's `length` and `substring` count, so a
cut can fall inside a surrogate pair as it does in the source.

The external services are abstract state:

- the token cache is a `map<string, Token>` from token to the owning account (`belong`);
- the repository store is a `map<string, Repository>` from id to record;
- the search index is a `map<string, SearchDocument>` from id to document.

Layout:

- `types.dfy` (`Types`): records, documents, request, response envelope and its fixed messages.
- `content.dfy` (`Content`): README normalisation and its laws.
- `stores.dfy` (`Stores`): the state of the two services, the writes (`Effect`), `Run` (state after writes, in order), and the invariants `Synced` (store and index hold the same ids, each entry under its own id) and `UniquePerAccount`.
- `handler_spec.dfy` (`HandlerSpec`): `Respond`, the handler as a function returning the response and the writes in the order issued.
- `handler_props.dfy` (`HandlerProperties`): the handler's guarantees as lemmas over `Respond`.
- `api.dfy` (`Api`): class `Backend` with the cache, the store and the index as fields, and `Handler`, the imperative early-return method with its store-then-index writes. Its contract ties its answer, its new state and its trace of calls to `Respond`.

Inputs from outside the program are parameters: `fetch`, the text served at a
README URL, applied to the SUBMITTED `readme` URL (repository.ts:54, 72); the
current time (the decimal string `getTime().toString()` gives); and the UUID of a
new record (`Externals`), the two environment secrets (`Env`), and the rows the
store returns for the (organization, project) query (`repos`). `IsQueryResult`
constrains `repos` to hold exactly the stored records matching that pair, in an
order the store chooses. The fresh UUID must not already be a store key.

Behaviour one might expect that the code does not have (the model follows the code):

- Create: `update` comes from the request body. The clock is not used for it (repository.ts:126). So `created == update` only when the client sends the current time.
- Update: the search document's id, url, organization, project, readme URL, author and tags come from the record as it was before the write. Its `content` is the README fetched from the submitted URL (repository.ts:72, 105-117). After an update that changes the README URL, the document pairs the old URL with the new text. The response echoes the earlier record (repository.ts:119). The index can therefore disagree with the store afterwards (`UpdateLeavesIndexStale`).
- Header gate: only a missing (undefined or null) header is refused outright. An empty string is looked up in the cache (repository.ts:34-44).
- GET: only a null or empty `id` yields the ten-newest listing. A missing `id` also goes to the lookup by id (repository.ts:16).
- One might expect a second, independent record when a different account submits an (organization, project) already held by another account. The code takes the update path instead. It rewrites the first matching record, which keeps its owner, and a repeat is again an update, not a conflict (`OtherAccountsRecordIsRewritten`). Per-account uniqueness still holds because no new record is ever added for a pair that already exists (`UniquenessPreserved`).
- README normalisation cuts before stripping. A 6000-unit text whose first 5000 units contain line feeds is therefore indexed with fewer than 5000 units (`NormalizeLength`, `NewlineInWindowShortens`).

## Model

| member | source | states |
|---|---|---|
| Content.StripNewlines | src/pages/api/repository.ts:113-114 | the result contains no line feed, is no longer than the input, and equals the input when the input has no line feed |
| Content.NormalizeContent | src/pages/api/repository.ts:112-114 | the indexed content never contains a line feed and is at most 5000 UTF-16 code units; an input of at most 5000 code units without line feeds is returned unchanged |
| Content.StripLength | src/pages/api/repository.ts:113-114 | removing line feeds shortens the text by exactly the number of line feeds in it |
| Content.StripAppend | src/pages/api/repository.ts:113-114 | removing line feeds from a concatenation is the concatenation of the removals |
| Content.NormalizeLength | src/pages/api/repository.ts:112-114 | the normalised length is the size of the kept window (the first 5000 code units at most) minus the line feeds inside that window |
| Content.NormalizeIsStrippedPrefix | src/pages/api/repository.ts:112-114 | slicing to 5000 and then stripping gives a prefix of the whole text with its line feeds stripped |
| Content.NewlineInWindowShortens | src/pages/api/repository.ts:112-113 | for text longer than 5000 code units with a line feed among its first 5000 the indexed content is shorter than 5000 (the slice is taken before stripping) |
| Content.CutCanSplitSurrogatePair | src/pages/api/repository.ts:112-113 | the cut counts code units: "a" plus 2500 emoji (5001 units) keeps 5000 units ending in a lone high surrogate |
| HandlerSpec.Respond | src/pages/api/repository.ts:9-156 | definition, no contract: GET listing or lookup, POST via `Submit`, otherwise the method message; its properties are the `HandlerProperties.*` rows |
| HandlerSpec.Submit | src/pages/api/repository.ts:30-154 | definition, no contract: token gate, then application-id gate, then API-key gate, then `Reconcile`; its properties are `HandlerProperties.TokenGate` and `HandlerProperties.ConfigurationGate` |
| HandlerSpec.Reconcile | src/pages/api/repository.ts:72-154 | definition, no contract: conflict, update of the first row, or create, each with its two writes; its properties are `HandlerProperties.ConflictRejected`, `UpdatePath`, `CreatePath` and `DualWrite` |
| HandlerSpec.Authenticate | src/pages/api/repository.ts:32-47 | definition, no contract: a token only for a present header the cache holds; its property is `HandlerProperties.TokenGate` |
| HandlerSpec.Configured | src/pages/api/repository.ts:60-68 | definition, no contract: a secret is set when present and not the empty string; its property is `HandlerProperties.ConfigurationGate` |
| HandlerSpec.ReadFor | src/pages/api/repository.ts:16 | definition, no contract: the ten-newest read for a null or empty `id`, the lookup otherwise; its property is `HandlerProperties.GetNeverWrites` |
| HandlerSpec.Revised | src/pages/api/repository.ts:89-103 | definition, no contract: the record the update path writes; its properties are `HandlerProperties.UpdatePath` and `IdentityFieldsPreserved` |
| HandlerSpec.Fresh | src/pages/api/repository.ts:122-136 | definition, no contract: the record the create path inserts; its property is `HandlerProperties.CreatePath` |
| HandlerSpec.Document | src/pages/api/repository.ts:105-117 | definition, no contract: the search document built from a record and the fetched README text; its properties are `HandlerProperties.UpdatePath`, `CreatePath` and `UpdateLeavesIndexStale` |
| Stores.IsQueryResult | src/pages/api/repository.ts:75 | constrains the query rows: each is a stored record under its own id matching (organization, project), and every matching stored record is among them, in any order |
| HandlerSpec.OwnedBy | src/pages/api/repository.ts:78 | the filter keeps exactly the query rows whose account is the caller's, and never more rows than it was given |
| HandlerProperties.GetNeverWrites | src/pages/api/repository.ts:10-29 | GET writes nothing and answers 200; the ten-newest listing exactly when `id` is null or '', otherwise the lookup of `id` (a missing `id` included) |
| HandlerProperties.MethodGuard | src/pages/api/repository.ts:155 | the answer is 400 'request method not match.' exactly when the verb is neither GET nor POST, and then nothing is written |
| HandlerProperties.TokenGate | src/pages/api/repository.ts:32-47 | a POST is answered 400 'token is invalid.' exactly when the header is missing or the cache does not hold it, and then nothing is written |
| HandlerProperties.EmptyHeaderIsLookedUp | src/pages/api/repository.ts:34-44 | an empty header string that the cache holds passes the token gate |
| HandlerProperties.ConfigurationGate | src/pages/api/repository.ts:57-68 | after the token gate a missing or empty application id gives 500 with its message, otherwise a missing or empty API key gives 500 with its message; neither writes, and these are the only 500 answers |
| HandlerProperties.ConflictRejected | src/pages/api/repository.ts:77-84 | for an admitted POST the answer is 400 'repository is already exists.' exactly when a matching row belongs to the caller, and then nothing is written |
| HandlerProperties.EmptyQueryMeansNoMatch | src/pages/api/repository.ts:75-77 | the query result is empty exactly when no stored record has the submitted (organization, project) |
| HandlerProperties.UpdatePath | src/pages/api/repository.ts:87-119 | with matching rows none of which is the caller's, the first row's record keeps id, account and created, gets `update` = now and every descriptive field from the body, no other record changes, the index document under that id takes its fields from the pre-update record and its content from the normalised README at the submitted URL, the answer is 200 with the pre-update record, and the store write precedes the index write |
| HandlerProperties.CreatePath | src/pages/api/repository.ts:121-153 | with no matching record, exactly one record is added under the fresh id, owned by the caller, created now, with the body's `update` and descriptive fields; a document with that id, the body's fields and the normalised README at the submitted URL is uploaded; the answer is 200 with the new record; the store write precedes the index write |
| HandlerProperties.DualWrite | src/pages/api/repository.ts:89-151 | writes happen exactly on 200 answers to POST, and then they are one store write followed by one index write addressed to the same id |
| HandlerProperties.IdentityFieldsPreserved | src/pages/api/repository.ts:89-92 | no request removes a stored record or changes its id, account, creation time or (account, organization, project) key |
| HandlerProperties.SyncedPreserved | src/pages/api/repository.ts:89-151 | if the store and the index hold the same ids, each entry under its own id, they still do after any request |
| HandlerProperties.UniquenessPreserved | src/pages/api/repository.ts:75-153 | at most one record per (account, organization, project) before a request means the same after it |
| HandlerProperties.ResubmissionAfterCreateConflicts | src/pages/api/repository.ts:77-138 | after the caller's submission created a record, the same submission by the same caller is answered 'repository is already exists.' with no writes |
| HandlerProperties.OtherAccountsRecordIsRewritten | src/pages/api/repository.ts:77-103 | when only other accounts hold the pair, no record is added, the rewritten record keeps its other owner, and repeating the submission is an update again rather than a conflict |
| HandlerProperties.UpdateLeavesIndexStale | src/pages/api/repository.ts:89-117 | after an update that changes the source URL, the indexed url and the stored `repository` differ |
| Api.Backend.Handler | src/pages/api/repository.ts:9-156 | the imperative handler answers as `Respond` does, makes exactly its writes in its order, leaves the state `Run` gives, and keeps the store and index in step |
| Api.Backend.CreateRepository | src/pages/api/repository.ts:138 | inserts the record under its fresh id and nothing else |
| Api.Backend.UpdateRepository | src/pages/api/repository.ts:89-103 | replaces the record under the given id and nothing else |
| Api.Backend.Upload | src/pages/api/repository.ts:139-151 | stores the document under its id in the index and nothing else |
| Api.Backend.UpdateDocument | src/pages/api/repository.ts:105-117 | replaces the document under its id in the index and nothing else |

## Left out

- Stores.IsQueryResult: presumes the store keys each record by its own id (as the database does). A store holding a matching record under another key has no query result, so `Api.Backend.Handler` cannot be called on it.
- The README fetch (repository.ts:72) is network I/O. Its text is an input, and a failed fetch is not modelled. The fetch happens before the duplicate check, which matters only for I/O ordering.
- `crypto.randomUUID()` and `new Date().getTime()` are inputs. The UUID is assumed absent from the store. Timestamps are opaque strings, so "`update` strictly increases" is not stated.
- The internals of the cache, the database and the search services are not part of this model. The store's row order for the (organization, project) query is left to the store. Matching is exact string equality. A null query result is treated as an empty one. Both index operations replace the whole document under its id. Token expiry is the cache's concern, so a token carries only `belong`.
- The GET branch's response carries the read it issues (`Latest(10)` or `ById(id)`) instead of rows, because the store's read queries are not shown.
- Async execution, the concurrent check-then-act race between two submissions, and a failure between the store write and the index write are not modelled. These are concurrency and I/O failure modes. `UniquenessPreserved` holds for one request at a time only.
- JSON serialisation of the envelope is not modelled. The model keeps the (status, message, data) triple.
- Request body fields are assumed present and string-valued. The types of `Repository` and `Token` are not part of this model.
- `src/pages/index.tsx` is left out. It is UI composition with no logic to state.
