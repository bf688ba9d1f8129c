# passd, modelled in Dafny

passd keeps a person's credentials in an encrypted local store and lets software agents use them only
through leases that the person approves. An agent asks for one capability call (a method and a path of one
version of a stored definition) or for one field of one item; a person approves, denies or revokes; the
service then consumes one use of a lease for each call and sends the request itself. This project models
that service and proves what a user of it relies on.

Verify with `dafny verify dfyconfig.toml`. Each module is one file:

| module | what it models |
|---|---|
| `Leases`, `Lookups`, `Admission`, `Outcomes`, `Service` | the lease table: every critical section as a function of the tables, what references, queries and host patterns name, who may ask for what, what each call achieves or refuses, and the class whose methods and loops compute those functions on mutable fields |
| `Consumption`, `Verdicts`, `Invocation` | the exact result of the candidate loop, first in terms of the verdict on each row, then from the columns and stored fields alone; and one invocation from the call to the concealed answer |
| `Runs`, `RunSafety`, `RunTheorems`, `RunOrigins` | interleaved callers, administrators and item writers: one program counter for each call, one invariant, the theorems about whole runs, and where in a run each claim, clock reading and status comes from |
| `Digests`, `EndToEnd` | what the two digests bind, in one record and across runs; and whether an approved lease serves the call that it was asked for |
| `Matching`, `Optimality` | the earliest-expiring-first choice as online matching of calls to leases |
| `Json`, `JsonDocs`, `Authority`, `Crypto`, `Refs`, `Urls` | canonical JSON, dictionaries in insertion order, versions and digests, base64url envelopes, `pass://` references, percent-encoding and `urlsplit` |
| `Store`, `StoreHistory` | the encrypted vault and item tables, refining a plain map |
| `ProtonImport`, `ImportEffects`, `Reimport` | the import loop, what importing does to the store and to leases, and what importing again does |
| `Definitions`, `Capabilities`, `Outbound` | normalisation of capability definitions, the gates on path and host, and the request that is sent |
| `Redaction`, `Framing` | concealing the secret in a response, and newline framing on the client side |
| `Text`, `Ordering`, `Wrappers` | strings, `ORDER BY stamp, id`, options and results |

How to read it. Functions follow the source branch by branch; what they promise is stated apart from them. A
lemma whose name ends in `Exactly`, and the predicates `Queued`, `Reviewed`, `Decided`, `Invoked` and
`Received`, say what a call leaves and answers from its arguments and the columns of the tables, and they are
the contracts of the methods.

Code that updates tables, buffers or rows is a class whose methods change fields and loop as
the source does (`PassdService`, `VaultStore`, `PassdSession`, `MapFields`, `ImportExport`). Each such method
is tied to a function of the old state, and the theorems are about those functions. `Runs` uses the same
functions as its atomic steps: a step that takes the lock is one critical section, the candidate loop takes
one step for each candidate, and reads of the clock and of the capability row are steps of their own, before
the lock. Vault and item writes need no lock and may happen between any two steps, also inside a candidate
loop. The history of approvals, claims and outbound executions is recorded beside the tables, because
`reviewed_at` is overwritten by a revocation.

Where the code does less than its purpose suggests, the model keeps the code and states exactly when it
meets the purpose:

- Redaction fails for a secret that overlaps the marker text; `Redaction.RedactCompleteExactly` gives the
  exact condition and `Redaction.OverhangLeaks` the smallest secret that reassembles.
- Importing again is idempotent exactly when every active item has a uuid and the vault whose key is the empty
  string, if there is one, is still found by its name (`Reimport.ReimportIdempotentExactly`);
  `Reimport.AnonymousItemDuplicates` and `Reimport.KeylessVaultDuplicates` are smallest exports that are not.
- The importer joins vault id and uuid with an unescaped ':'. Every active item keeps a row of its own exactly
  when the joined ids are distinct (`ImportEffects.OwnRowsExactly`, `ImportEffects.JoinedIdsCollide`).
- A reveal request that names the empty host is let in and can be approved, but no call ever finds its lease;
  every other lease serves the call that it was asked for (`EndToEnd.SecretLeaseServesItsRequest`).
- Neither digest covers the target host: that of a secret lease is fixed only through the id of its row
  (`Digests.DigestsIgnoreHost`).
- Storing again a definition that the service returned keeps its version, and so its leases, exactly when
  its host does not end in a blank (`Definitions.PutAgainKeepsVersion`, `Definitions.UnstableHost`).
- A field that has disappeared stops the candidate loop with a not-found error although a later lease might
  be usable; the row is not marked stale. The theorems about consuming have this third outcome.

## Model

| member | source | states |
|---|---|---|
| RunTheorems.OnlyApprovedLeaves | passd/service.py:1007-1069 | In every interleaving, each operation carried out was approved by a person in an earlier step of the run: same agent, same operation (for a capability the whole definition that was in the catalog at that step, although the call read it outside the lock), and the very item, field and value that its selector or backing reference named in the store at that step. |
| RunTheorems.ApprovalOrigin | passd/service.py:810-895 | Every recorded approval was made in one earlier step, in which the row was pending; it carries the clock of that step and the item, field and value that the reference named then, and never changes afterwards. |
| RunTheorems.BudgetConserved | passd/service.py:1059-1066 | For every lease in every run: claims granted equal `uses`, executions never exceed them, and 0 <= uses <= max_uses <= requested_uses <= 100. |
| RunOrigins.ClaimedInTime | passd/service.py:1022-1062 | Every claim was made in a step of the run by the thread that held the lock, on a row live at that step; that very call had read the clock in an earlier world, and the reading lies before the clock of the approving step plus a lifetime of at most the requested one. |
| RunOrigins.ClaimOrigin | passd/service.py:1036-1066 | In the step that made a claim, the row was live and matching and the item stored at that step still had the approved value, which is the secret of the claim; the step took one use of that row. |
| RunOrigins.ClockOrigin | passd/service.py:1022-1023 | The time of a call is the clock of the world in which the call, not yet holding the lock, read it. |
| RunOrigins.CatalogOrigin | passd/service.py:1012-1016 | The definition and version of a capability call are those of the catalog in an earlier world, as the call read them. |
| RunOrigins.SentWasClaimed | passd/service.py:1257-1262 | Whatever is carried out rests on a claim by the same agent for the same operation, and carries the secret stored when that use was claimed. |
| RunOrigins.StatusReasons | passd/service.py:810-930 | No status changes without its reason: a decision of a person stamped with the clock of that step, or a definition or value that really had changed. |
| RunTheorems.ApprovalOnlyNarrows | passd/service.py:860-888 | While a row is approved, 60 <= expires_at - reviewed_at <= requested_ttl and 1 <= max_uses <= requested_uses, whatever the human passed in. |
| RunTheorems.DigestsStayVerifiable | passd/service.py:697-717 | In every reachable state the authority digest, and while approved the approval digest, equal the digests recomputed from the row as it is now. |
| Digests.RequestDigestInjective | passd/service.py:697-706 | The authority digest of a capability request determines the row, the agent and everything that was asked for. |
| Digests.ApprovalDigestInjective | passd/service.py:861-878 | The approval digest determines the row, the agent, the authority digest, the action, the capability and its version, the credential version, the lifetime and the uses. |
| Digests.SameDigestSameApproval | passd/service.py:861-895 | Two approved rows of any two runs with the same approval digest have the same root key, id, agent, action, item, field, value, lifetime and uses and, for a capability, the same content. |
| Digests.DigestsIgnoreHost | passd/service.py:697-717 | The limit of the digests: a row with another target host has the same two digests. |
| RunTheorems.QueueBounded | passd/service.py:610-633 | No agent ever has more than 32 pending rows over both request kinds, and no two pending rows of an agent ask for the same. |
| RunTheorems.RetryIsIdempotent | passd/service.py:679-695 | Submitting the content of a pending row again returns that row's id and leaves the table unchanged. |
| RunTheorems.ClaimAlwaysHits | passd/service.py:1059-1066 | Whatever other threads did since the candidates were selected, the guarded UPDATE of the next candidate would change exactly its row. |
| RunTheorems.RefusalIsFinal | passd/service.py:1024-1069 | A call refused at the end of its loop leaves no live lease for its operation, although items may have changed during the loop. |
| RunTheorems.StepAdvances | passd/service.py:810-939 | Every step moves every row only along pending to approved, denied or stale, and approved to revoked or stale; approved content, expiry and budget never change and no row is deleted. |
| RunTheorems.RunAdvances | passd/service.py:897-930 | Over any part of a run, denied, revoked and stale rows are frozen and an approved row keeps what was approved. |
| RunTheorems.NeverActiveAgain | passd/service.py:731-742 | With a clock that never goes back, a lease that was active and became inactive is never active again. |
| RunSafety.RunInv | passd/service.py:565-1069 | The invariant of the whole system (rows, catalog, threads, claims, executions, queue) holds in every world of every run. |
| RunSafety.StepKeeps | passd/service.py:565-1069 | Each of the sixteen kinds of step keeps that invariant. |
| RunSafety.CurrentIsApproved | passd/service.py:1036-1058 | A row found current for a caller's operation was approved for exactly that operation and that secret, because both versions are injective. |
| RunSafety.GuardAlwaysHits | passd/service.py:1059-1065 | A candidate whose row is still the selected one satisfies the guard of the claiming UPDATE. |
| Consumption.ConsumeExact | passd/service.py:1022-1069 | Result of the candidate loop in terms of the verdicts: it stops at the first matching row in (expires_at, id) order that is current or has lost its field, has marked stale exactly the matching rows before it, and changed nothing else. |
| Verdicts.JudgeExactly | passd/service.py:1036-1058 | The three verdicts from the columns of the row and the stored fields: outdated if the definition, the item, the version or the value differs; field lost if definition and item are there and the field is not; current with exactly the stored value if both versions agree. |
| Verdicts.ConsumeDecides | passd/service.py:1022-1069 | The whole loop from columns and stored fields: it ends at the first eligible row that is not outdated, grants it unless its field is lost, and every eligible row ahead of it is stale; a row of another definition never ends it. |
| Verdicts.DecidedOnce | passd/service.py:1022-1069 | That statement leaves nothing open: it holds of one table and one outcome only. |
| Consumption.RefusalLeavesNoLease | passd/service.py:956-1005 | After a refusal no live matching row is left in the table. |
| Consumption.GrantTakesOneUse | passd/service.py:993-1002 | A grant takes one use from one live, matching, current row; every other row is unchanged or stale. |
| Consumption.FirstStopIsEarliest | passd/service.py:1024-1030 | The candidate at which the loop stops is the earliest stopping row of the table in (expires_at, id) order, and there is none exactly if no row stops it. |
| Consumption.ActiveAgrees | passd/service.py:731-742 | The public view, the grant query and the UPDATE guard agree on which rows are active. |
| Admission.PreparedAccess | passd/service.py:576-608 | An exact-secret request is let in exactly if it has its scopes, an exact field, a reason of at most 300, 60 to 86400 seconds, 1 to 100 uses and a bare host for a use and none for a reveal, and the host is within the ceiling; outside the ceiling it is not allowed. What is queued is the stripped reason and the normalised host. |
| Admission.PreparedCapability | passd/service.py:648-677 | A capability request is let in exactly if the current definition permits its method and path and its host is within the ceiling, and is bound to that version and to what would be sent. |
| Admission.ExactQueryExactly | passd/service.py:941-954 | A call with an exact-secret lease reaches the leases exactly if it gives a reason, has the scope, names a field and, for a use, a bare host. |
| Admission.CapabilityQueryExactly | passd/service.py:1008-1020 | An invocation reaches the leases exactly if it gives a reason, has the scope, its definition permits it and its host is within the ceiling. |
| Capabilities.InvocationExactly | passd/service.py:447-463 | A method and path are accepted exactly if the method is listed and the path is one absolute path whose decoded segments extend those of the prefix without ".."; what is sent is the method in capitals and that path. |
| Outcomes.SubmitOutcome | passd/service.py:610-633 | A request is answered with the oldest pending row of the agent for the same, else refused at 32 pending rows, else entered as one row whose every column is stated. |
| Outcomes.ApproveOutcome | passd/service.py:810-895 | An approval of a pending row with a current definition succeeds exactly if the operation is permitted and its reference names a value, and writes the row with that item, the version of that value, the narrowed budget, the note and the digest; the row turns stale exactly because its definition changed; otherwise nothing changes and the error says why. |
| Outcomes.DecisionOutcome | passd/service.py:897-930 | Denial decides exactly pending rows and revocation exactly approved ones; a second decision is a conflict, and no other row changes. |
| Outcomes.PutItemOutcome | passd/service.py:202-265 | A put writes exactly the item of its source, wherever it was, or one new item, and says exactly when it fails. |
| Outcomes.CreateVaultOutcome | passd/service.py:144-185 | A vault is found by its source if it has one, else by its name; only the first is updated, and only a missing one is inserted. |
| Lookups.ResolveExactly | passd/service.py:275-299 | A selector resolves to an item, field and value exactly if its vault part names the vault, its item part the item in that vault, and the value is in that field. |
| Lookups.PatternLabels | passd/service.py:543-552 | A plain host pattern allows exactly the host of the same labels, and "*.x" exactly the hosts whose labels properly extend those of x to the left. |
| Lookups.CeilingExactly | passd/service.py:543-552 | A host is within a list of patterns exactly if one of them is the host or a wildcard above it; an empty list is no ceiling. |
| EndToEnd.SecretLeaseServesItsRequest | passd/service.py:941-1005 | Request, approval and consumption together: while time and budget are left and the value is unchanged, the call with the arguments of the request finds its row if and only if it was not a reveal with the empty host, and is then not refused for want of a lease; if no other lease matches, it is granted the value. |
| EndToEnd.EmptyHostIsLetIn | passd/service.py:593-601 | A concrete reveal request with the empty host is accepted, although no call can use its lease. |
| EndToEnd.CapabilityLeaseServesItsRequest | passd/service.py:1007-1069 | The same for capability leases without exception, while the catalog holds the definition that was approved. |
| Service.PassdService.SubmitRequest | passd/service.py:610-633 | The loop over the pending rows in (created_at, id) order returns the earliest exact retry, else refuses at 32 pending rows, else inserts one row. |
| Service.PassdService.RequestAccess | passd/service.py:565-635 | A request that is not properly asked, or whose host is outside the ceiling, is refused and changes nothing; any other is answered by the queue with its stripped reason and normalised host. |
| Service.PassdService.RequestCapability | passd/service.py:637-729 | The same for a capability request, bound to the version of the definition that was read. |
| Service.PassdService.PutCapability | passd/service.py:402-422 | Accepted exactly if every entry is proper and plain HTTP is allowed; the row of its id is then replaced by the definition whose every field is stated from the raw entries (a missing port is 443 for https and 80 for http), under its version; a refused definition changes nothing. |
| Service.PassdService.Resolve | passd/service.py:275-299 | A reference resolves to an item, field and value exactly if its parts name them in the decrypted contents of the store, and to at most one. |
| Service.PassdService.ApproveAccess | passd/service.py:810-895 | Approval either refuses without a change, marks the row stale because the definition changed, or writes only this row: approved, narrowed, and bound to the item, field and value that its reference names in the decrypted store. |
| Service.PassdService.DenyAccess | passd/service.py:897-913 | Succeeds exactly on a pending row, writes only that row, keeps what was asked for, and leaves no lease for any call; otherwise a conflict or not-found error and no change. |
| Service.PassdService.RevokeAccess | passd/service.py:915-930 | Succeeds exactly on an approved row, writes only that row, keeps its payload and its uses, and leaves no lease for any call; otherwise a conflict or not-found error and no change. |
| Service.PassdService.CheckCandidate | passd/service.py:1038-1052 | The version checks of a candidate, made on the decrypted item, with their three outcomes stated from the columns of the row and the stored fields. |
| Service.PassdService.ConsumeGrant | passd/service.py:1023-1066 | The loop on the mutable table yields exactly the rows and the outcome of `ConsumeDecides`. |
| Service.PassdService.ConsumeExactGrant | passd/service.py:941-1005 | Consuming an exact-secret lease: a call that does not give what it must changes nothing; otherwise the loop decides, and the answer is the granted row and value, not found, or not allowed. |
| Service.PassdService.InvokeCapability | passd/service.py:1226-1260 | One call to the end: outside the contract or the ceiling nothing changes; else the loop decides, and exactly after a grant of a value that has a text, for a target that is not refused, one request leaves with the approved URL, method and headers and the prefix and text of that value; its response comes back concealed. A use stays spent when a later check fails. |
| Outbound.SecretTextExactly | passd/service.py:1240-1242 | A value is injected as its own text, its decimal digits, its float text or its name, and refused exactly if it is null, a list or an object. |
| Outbound.ConcealExactly | passd/service.py:1195-1224 | Of a response of at most 1 MiB the status, five kinds of header and the body come back, the texts redacted; if the secret overlaps the marker in neither way, none of them holds it. |
| Outbound.TargetIsChecked | passd/service.py:1165-1187 | The check of the built URL refuses exactly plain HTTP without private-target mode, a definition's host outside the ceiling, a name that does not resolve and, without private-target mode, an address that is not public, each with its error. |
| Outbound.UrlIsExact | passd/service.py:1244-1248 | The URL that is sent is the scheme, the host, the port where it is not the default of the scheme, and the validated path, and parses back to exactly these, with no query and no fragment. |
| Outbound.HeadersAreExact | passd/service.py:1251-1252 | The injected header carries the secret, no other header has its name in any spelling, and the static headers are as approved. |
| Optimality.ConsumeIsEarliest | passd/service.py:1024-1066 | While every version is current, the loop spends exactly the live lease that expires first and grants exactly if there is one. |
| Optimality.ApproveArrives | passd/service.py:874-888 | An approval adds exactly one current lease to the pool of its operation, or none. |
| Optimality.ServiceIsEarliest | passd/service.py:958-1002 | A whole run of approvals and calls of one operation serves what the earliest-expiring-first policy serves. |
| Optimality.ServiceIsOptimal | passd/service.py:1024-1066 | Over any such run with calls at non-decreasing times, the service grants at least as many calls as any other way of choosing among the live leases. |
| Matching.EarliestFirstIsOptimal | passd/service.py:1024-1029 | Earliest-expiring-first serves at least as many calls as any policy, whatever arrives and whenever calls come. |
| Matching.AheadAfterServing | passd/service.py:1059-1066 | Serving from the earliest lease keeps, for every deadline, served plus remaining at least that of the other policy. |
| Json.LoadsPrint | passd/authority.py:12-14 | Reading canonical JSON gives back the value, for every nesting of nulls, booleans, integers, floats, strings with escapes, lists and objects (sections 3 to 7 of RFC 8259). |
| JsonDocs.LoadsPrintDoc | passd/crypto.py:57-63 | Reading undoes printing for every document whose dictionaries, at any nesting, are printed in any insertion order. |
| JsonDocs.SortedPrint | passd/authority.py:12-14 | Printed with sorted keys, a document has the canonical text of its value, whatever the insertion orders at any nesting. |
| Json.PrintPrintable | passd/authority.py:17-20 | The text holds no control character, so no NUL and no newline. |
| Authority.CanonicalJsonInjective | passd/authority.py:12-14 | Two values with the same canonical text are equal. |
| Authority.MaterialInjective | passd/authority.py:17-20 | Domain, NUL and text together determine both the domain and the value. |
| Authority.KeyedVersionInjective | passd/authority.py:17-20 | A keyed version determines the key, the domain and the value. |
| Authority.CredentialVersionInjective | passd/authority.py:31-37 | A credential version determines the item, the field and the value. |
| Authority.AuthorityDigestInjective | passd/authority.py:40-42 | A digest determines the digested record. |
| Capabilities.DefinitionVersionInjective | passd/authority.py:23-24 | A capability version determines every field of the definition. |
| Crypto.B64RoundTrip | passd/crypto.py:12-17 | Decoding what `b64e` prints returns the bytes, for every length modulo 3 (sections 4 and 5 of RFC 4648). |
| Crypto.PaddingRestored | passd/crypto.py:12-17 | The restored padding is exactly what was stripped (section 3.2 of RFC 4648). |
| Crypto.EnvelopeRoundTrip | passd/crypto.py:35-43 | `Envelope.loads` undoes `dumps`. |
| Crypto.EnvelopeExactly | passd/crypto.py:38-43 | A text is an envelope exactly if it is an object whose version equals 1 and whose two entries decode, and then holds their bytes. |
| Refs.ParsePrintRef | passd/service.py:768-770 | The reference shown to the approver parses back to the stored selector, also when its parts hold '/', '%', '?' or '#'. |
| Refs.PrintRefInjective | passd/service.py:768-770 | Two different selectors are never shown as the same reference. |
| Refs.StoredSelectorRoundTrip | passd/refs.py:8-18 | Every selector the parser accepts has non-empty parts and survives being shown and read back. |
| Refs.ParseParts | passd/refs.py:8-18 | Of a reference with any number of encoded parts the first is the vault, the second the item and the others, joined by slashes, the field; without an item it is refused. |
| Urls.UnquoteQuote | passd/service.py:770 | Percent-decoding undoes percent-encoding of every byte string (section 2.1 of RFC 3986). |
| Urls.UrlSplitRebuilds | passd/refs.py:11 | The five parts of a split URL, put together again, are its text without the dropped characters; only the case of the scheme and empty queries and fragments are lost. |
| Text.StripExactly | passd/service.py:317 | Stripping removes the blanks at both ends and nothing else. |
| Text.CaseExactly | passd/service.py:542-545 | The case functions leave no letter of the other case, undo each other, and keep everything that is no letter. |
| Text.LessExactly | passd/service.py:1024-1027 | The order of ids: a proper beginning comes first, else the smaller first character that differs. |
| Json.TruthyExactly | passd/client.py:38-40 | False are exactly null, false, zeros and everything empty. |
| Definitions.AcceptedDefinition | passd/service.py:316-388 | An accepted definition names exactly one field, has a valid prefix, port, sorted known methods and well-formed headers, no static header replaces the injected or a routing header, and plain HTTP needs private-target mode. |
| Definitions.NormalizedExactly | passd/service.py:316-388 | Exactly when a raw definition is accepted, entry by entry, which error it gets otherwise, and every stored field from its raw entry or default. |
| Definitions.NormalizeHostExactly | passd/service.py:531-541 | A host is accepted exactly if its trimmed lower-case text has a name, no leading dot, no slash, no "@" and no port; the name is kept. |
| Definitions.PutAgainKeepsVersion | passd/service.py:402-422 | Storing a returned definition again keeps its version if and only if its host does not end in a blank. |
| Definitions.NormalizeHostAgain | passd/service.py:531-541 | Normalising a normalised host changes it exactly when it ends in a blank. |
| Definitions.UnstableHost | passd/service.py:531-541 | A concrete host that two normalisations shorten twice. |
| Capabilities.PathInCapabilitySegments | passd/service.py:440-445 | The string test of path containment is exactly the prefix order on segment lists. |
| Capabilities.AcceptedPathStaysInside | passd/service.py:447-463 | An accepted decoded path has the prefix's segments as a prefix of its own, and stays inside after dot segments are removed from both (section 5.2.4 of RFC 3986). |
| Redaction.RedactExactly | passd/service.py:1189-1193 | Redaction replaces exactly the occurrences that a scan from the left meets and keeps all other text in order: the value is pieces joined by the secret, the result the same pieces joined by the marker; without a secret nothing changes. |
| Redaction.OnePieces | passd/service.py:1189-1193 | There is only one such list of pieces for a value and a secret. |
| Redaction.RedactComplete | passd/service.py:1189-1193 | If the secret overlaps the marker in neither way, no redacted value contains it at any alignment. |
| Redaction.RedactCompleteExactly | passd/service.py:1189-1193 | For every non-empty secret: all values are redacted completely if and only if it overlaps the marker in neither way. |
| Redaction.PlainSecretConcealed | passd/service.py:1189-1193 | Without '<' and '>', a secret is always concealed if and only if it is not part of the marker. |
| Redaction.OverhangLeaks | passd/service.py:1189-1193 | A concrete secret and value after whose redaction the secret can still be read. |
| Framing.ReadResponse | passd/client.py:27-42 | However the stream is cut into chunks, one call takes exactly the first frame and returns what it means; a stream that ends within a frame is a transport error and nothing is taken. |
| Framing.PassdSession.Call | passd/client.py:73-78 | A call on a session sends its request and consumes exactly one frame of everything pending. |
| Framing.CallsReturnFrames | passd/server.py:35-37 | Successive calls return the successive frames: none lost, duplicated or merged, across error responses. |
| Framing.InterpretReply | passd/server.py:26-37 | Each reply of the server, in its own key order, is a single frame; a success means its result, a failure an error. |
| Framing.CallsReturnReplies | passd/server.py:26-37 | Whatever sequence of replies the server writes, successive calls return exactly their results and errors, and leave what follows. |
| Store.VaultStore.CreateVault | passd/service.py:144-185 | On the plain contents: update the vault of the same source, else return the one of the same name, else insert. |
| Store.VaultStore.PutItem | passd/service.py:202-265 | On the plain contents: put the item of the same source into the vault, moving it if needed, else insert; all rows still open. |
| Store.VaultStore.UpdateItem | passd/service.py:235-247 | After an update, with or without a move, the row opens through its new vault and yields the new payload; no other row changes; after a move neither the old item key nor the old vault's key opens the row. |
| Store.VaultStore.ItemKeyFor | passd/service.py:237-242 | The wrapped key opens under the key of the vault that the item is put into; it is a key never drawn before where the item moves, and the old one where it stays. |
| Store.VaultStore.InsertItem | passd/service.py:248-263 | A new item gets an id that no row has and a key never drawn before, and opens through its vault; all other rows are unchanged. |
| Store.VaultStore.UpdateVault | passd/service.py:155-163 | A vault's payload is sealed anew under its own key, and every item in it still opens. |
| Store.VaultStore.InsertVault | passd/service.py:168-184 | A new vault gets an id that no row has and a key never drawn before; all other rows are unchanged and still open. |
| Store.VaultStore.SelectVaultNamed | passd/service.py:164-167 | The scan that decrypts every vault finds a vault of that name exactly if there is one. |
| Store.VaultStore.ResolveVault | passd/service.py:190-198 | Finds a vault exactly if the reference is its id, or is no id and the name of that vault alone; a conflict exactly if it names several. |
| Store.FindVaultExactly | passd/service.py:190-198 | The same of the plain contents, with a not-found error exactly if it names none. |
| Store.VaultStore.ResolveItem | passd/service.py:275-285 | Within the vault that is named: finds an item exactly if the reference is its id there, or is no id there and the title of that item alone; a conflict exactly if it is the title of several. |
| Store.FindItemExactly | passd/service.py:275-285 | The same of the plain contents. |
| Store.VaultStore.ReadItem | passd/service.py:116-122 | Opening any stored row through its vault succeeds and yields its payload. |
| Store.RowsAreBound | passd/service.py:116-122 | What is sealed for one row opens under no other id. |
| Store.AddItemValid | passd/service.py:248-263 | Inserting keeps ids drawn, sources unique and items inside existing vaults. |
| StoreHistory.LastPutWins | passd/service.py:202-265 | After any sequence of vault and item writes, an item holds the last payload put under its id. |
| StoreHistory.PerformAll | passd/service.py:144-265 | Any sequence of writes to the encrypted tables, moves included, refines the plain history, and opening a row yields the payload last put under its id. |
| StoreHistory.NeverPutKept | passd/service.py:202-265 | An item that no call put is as it was before. |
| StoreHistory.HistoryKeeps | passd/service.py:144-265 | Over any sequence no row disappears or changes its source, and the store stays valid. |
| ProtonImport.MapFields | passd/proton_import.py:22-58 | The loop yields, entry by entry, the fields of the item's type, overlaid by the last extra of each name that has a value. |
| ProtonImport.WrittenExactly | passd/proton_import.py:64-95 | What is written for a vault and for an item, entry by entry with the defaults: title, type, note, addresses, source and fields. |
| ProtonImport.LastExtraWins | passd/proton_import.py:51-57 | A field holds the value of the last extra of that name that has one, else the mapped value. |
| ProtonImport.ExtraExactly | passd/proton_import.py:51-57 | An extra is named by its name or "field" and has its content, else its one-time-password URI, else no value. |
| ProtonImport.ImportExport | passd/proton_import.py:61-97 | The nested loops perform the writes of the whole export in order up to the first error, and count imported and skipped items. |
| ProtonImport.TotalsExactly | passd/proton_import.py:61-97 | As many items are reported as imported as are written, all others as skipped, and every vault is counted. |
| ImportEffects.ImportDeletesNothing | passd/proton_import.py:61-97 | Whatever the export holds and wherever it stops, every row is still there under its id and source. |
| ImportEffects.RunExplained | passd/proton_import.py:64-96 | After the writes, every row holds the last write of its source or what it held before, every written source has a row, and no id is added if all had one. |
| ImportEffects.SharedRows | passd/proton_import.py:78-96 | After a completed import every active item has a row, and two items share one exactly when their joined ids are the same text. |
| ImportEffects.OwnRowsExactly | passd/proton_import.py:78-96 | Every active item keeps a row of its own that holds it as exported, exactly when the joined ids are distinct. |
| ImportEffects.JoinedIdsCollide | passd/proton_import.py:78-96 | Two concrete pairs of vault and uuid with one joined id. |
| ImportEffects.JudgeRechecks | passd/service.py:1047-1052 | A lease that was current is, after any change of the items, current, stale or without its field exactly as the bound field kept its value, changed or disappeared. |
| ImportEffects.LeaseAfterImport | passd/service.py:1047-1052 | After importing any export, wherever it stops, a lease that was current is current exactly when the last item written over its item, if any, still has the approved value. |
| Reimport.ReimportChangesNothing | passd/proton_import.py:61-97 | If every active item has a uuid and the vault without a key is settled, importing the same export again leaves ids, payloads and vaults exactly as they were and ends the same way, also when it stops half-way. |
| Reimport.KeyedExportSettled | passd/service.py:149-167 | An export whose vaults all have a key is settled after any import. |
| Reimport.ReimportIdempotentExactly | passd/proton_import.py:61-97 | After a completed import, importing again completes and changes nothing if and only if every active item has a uuid and the vault without a key, if any, still leads where its items are. |
| Reimport.AnonymousItemDuplicates | passd/proton_import.py:79-80 | A concrete export with an item without uuid, whose second import changes the store. |
| Reimport.KeylessVaultDuplicates | passd/service.py:164-167 | A concrete export with a vault without key, whose second import makes another vault. |

## Left out

- Real cryptography: keys are symbolic, AES-GCM is a sealed term that opens under the same key and associated data, and SHA-256 and HMAC are injective terms; nothing is proved about secrecy.
- Text is its UTF-8 bytes: `len()` limits count bytes, and `strip`, `lower` and `upper` act on ASCII; invalid UTF-8 and Unicode case folding are not modelled.
- `urlsplit` is modelled without bracketed IPv6 literals and NFKC checks, and a malformed port is a validation error instead of a `ValueError`.
- Floats are their shortest text; NaN and infinities are not modelled, and the timeout of a definition carries its text and its value.
- The JSON reader accepts compact text and two-digit \u escapes, which is all that the printer writes; other texts are an error.
- `b64d` of text outside the alphabet is an error here, where Python drops such characters.
- SQL: tables are maps, an unordered SELECT of one row picks the smallest id, and deletion cascades and access by several processes are not modelled.
- Random ids and keys are drawn from a counter, so that no value is drawn twice; the importer's `uuid4()` is indexed by run and position, and `ReimportIdempotentExactly` assumes that the second run draws unused ones.
- Authentication, the agents table (create, rotate, revoke), audit rows, listings, metadata scopes, the command line and the dispatch table: single-branch checks and plumbing; the agent row is an argument.
- Sockets, DNS and IP checks, redirects and the HTTP exchange itself: the outbound call is one recorded event, and how names resolve, to which addresses and whether these are public, is an argument of `InvokeCapability`, as is the response that arrives.
- Leases from v0.2 and early v0.3 (fingerprint and item version): no approval writes them; a lease without a credential version is stale.
- The limit of 2 MiB on a request.
- RunSafety.StepKeeps: in `Runs` an approval reads items and vaults in one atomic step although `put_item` takes no lock, and a submitted request has arbitrary content and host, which covers more than the two request methods submit.
- Optimality.ServiceIsOptimal: speaks of runs without revocation and without a change of the definition or the bound items, for one agent and one operation; with such changes the set of usable leases is not fixed by the past.
- ProtonImport.ImportExport: the export is read as records of the export schema; an entry of the wrong JSON type, which raises in Python, is not represented, nor is reading the ZIP file.
- Definitions.PutAgainKeepsVersion: normalisation is described for entries that are already strings, integers and lists; `str()` and `int()` of other types are not modelled.
