# Agent Trust Protocol client: store, canonical hashes, commit and verify

Agents that speak this protocol keep the full record of every finished task in a local *proof store* and send only
a *sketch* (ids and hashes) to an *Exchange*. Anyone may later *challenge* an agent for the record, hash it again
and compare it with the sketch. This project models that protocol and the texts it hashes, and proves what the
parts promise each other.

- `Basics`, `Text`, `Calendar`, `Timestamp`: small types, code-point order, fixed-width numbers, the Gregorian
  calendar, `isoformat()` and the RFC 3339 form.
- `Uuid`: the texts `uuid.UUID` accepts.
- `Json`, `CanonicalJson`, `JsonText`, `Hashing`, `DependencyText`, `ProofMessage`: canonical JSON as a concrete printer and
  parser (sections 4 and 7 of RFC 8259) and why its text is the one, data hashes, dependency hashes and what their text
  holds, the `|`-joined proof message.
- `ProofModel`, `ProofStore`, `InMemoryStore`, `SqliteStore`, `StoreHistories`: the records, the two stores, and
  whole histories of store calls.
- `SqliteInterleaving`, `SqliteSafety`, `SchemaLock`: concurrent calls as transition systems, one program counter
  per call, each SQL statement atomic, every statement free to fail.
- `SystemUri`, `Client`, `Registrations`, `Commits`, `CommitText`, `Exchange`, `TaskContext`, `Adapter`: registration caches, also under
  overlapping registrations, commits, and the two producers of proofs, as classes proved against specification functions.
- `Verify`, `ResponseCheck`, `Completeness`, `PreChallenge`: the verifiers, binding, completeness, the pre-check loop.
- `World`, `WorldSafety`, `WorldResults`: any number of task contexts over one interleaved SQLite store, one client and
  one Exchange, through any number of restarts; the invariant, the safety theorem over every run and the end-to-end result.

The hash is a parameter; results that need it say `Injective(h)`. Times are microseconds. Strings are sequences of
Unicode scalar values. The network shows up as outcomes: a POST is acknowledged, recorded with its answer lost, or
not recorded; a lookup gives a commit or an error text.

## Where the code and its documentation differ

The model follows the code.

- `verify_response` is documented to check a response text against its commit. It hashes the bare text, while commits
  hash the outcome dict, so it refuses the response text of every task committed by a context or by the adapter and
  accepts only the canonical JSON of the whole outcome (`ResponseCheck.ResponseTextRefused`,
  `ResponseCheck.AcceptsExactlyOutcomeText`).
- The proof hash is documented to use a UTC timestamp, but the inline code prints the wall-clock fields and appends `Z`
  without converting (`Timestamp.InlineAgreesExactlyOnUtc`, `ProofMessage.OffsetChangesProofHash`).
- The dict form of a dependency passes `evaluated_at` through unformatted (`Hashing.DictFormAgrees`).
- `compute_data_hash` hashes a string as it is, so a string can share the hash of a dict, list, number, boolean or None
  whose text it spells (`Hashing.DataTextCollisions`). `challenge_and_verify` reads untyped JSON and inherits this
  (`Verify.RawBinding`).
- SQLite `list` and GC compare expiry texts. That follows the clock exactly when the expiry is written in UTC
  (`SqliteStore.TextFollowsClockExactlyOnUtc`).
- SQLite `get` deletes an expired row some time after reading it. If the same id is saved in between, the new, live row is
  lost (`SqliteSafety.SavingTwiceCanLoseLiveRow`).
- `challenge` reports COMPROMISED on every false verdict, also when the Exchange could not be reached;
  `challenge_and_verify` does so only on a mismatch (`Verify.ReportsDifferExactly`).
- A legacy proof message can equal a new one, exactly when its system URI holds a `|` and its outcome hash is not empty
  (`ProofMessage.LegacyCollidesExactly`).
- `register_system` checks the name before its POST and writes the caches after it, so two overlapping calls for one new
  name both register and the second answer replaces the id of the first (`Registrations.FirstIdChangesExactly`,
  `Registrations.OverlapReplacesFirst`).

- Any text may be a task id for the adapter, the store and the POST, but a lookup parses the id in the reply as a UUID. A
  task committed under another id, such as the `abc-123` of the adapter's own example, never verifies, and `challenge`
  reports its honest agent COMPROMISED (`Completeness.OddIdRefused`, `Completeness.ExampleIdIsOdd`).
- The proof is saved before the POST. When a committed id is completed again and the second POST is not recorded, the agent
  discloses a proof the Exchange does not hold, and both verifiers report it COMPROMISED (`Completeness.UnrecordedRecommit`).

## Model

| member | source | states |
|---|---|---|
| Json.ReadPrinted | src/atp/core/hashing.py:50-56 | Reading a printed value back from the front of a text whose rest cannot continue a number gives exactly that value and the rest, for all nestings, escapes and surrogate pairs. |
| Json.ParseDumps | src/atp/core/hashing.py:50-56 | Parsing the canonical text of a value gives back the value with the keys of every object sorted. |
| CanonicalJson.DumpsNormalForm | src/atp/core/hashing.py:34-56 | Two values have the same canonical text if and only if they are equal up to object key order at every depth. |
| CanonicalJson.DumpsStable | src/atp/core/hashing.py:50-56 | Parsing a canonical text and serialising the result gives the same text. |
| CanonicalJson.PrintAscii | src/atp/core/hashing.py:50-56 | The text is printable ASCII, so encoding it as UTF-8 adds no further choice. |
| JsonText.DumpsShortest | src/atp/core/hashing.py:50-56 | No printable-ASCII text that reads as the key-sorted value is shorter than its canonical text. |
| JsonText.EscapeShortest | src/atp/core/hashing.py:50-56 | For every character, any printable-ASCII text that reads as it is at least as long as the one printed, and any as short and without upper-case hex digits is the one printed. |
| JsonText.PlainStringText | src/atp/core/hashing.py:50-56 | A string of printable characters other than quote and backslash, slashes included, is printed as it is between quotes. |
| JsonText.EscapeLower | src/atp/core/hashing.py:50-56 | Every escape uses lower-case hex digits. |
| JsonText.ExampleText | src/atp/core/hashing.py:50-56 | The text of one value with every kind of letter, every mark of the syntax, and a key that is a prefix of another. |
| Text.LessMeans | src/atp/core/hashing.py:53 | The key order: one text sorts before another if and only if it is smaller at the first difference, or a proper prefix. |
| Hashing.ContainerHashDecides | src/atp/core/hashing.py:59-85 | On dicts and lists the prefixed hash decides equality up to key order, both ways. |
| Hashing.DataTextCollisions | src/atp/core/hashing.py:50-56 | Over all values: two preimages coincide if and only if the values are equal up to key order or one is a string spelling the other's text. |
| Hashing.EmptyListCollides | src/atp/core/hashing.py:50-56 | The concrete case: the string `[]` and the empty list. |
| Hashing.HashedText | src/atp/core/hashing.py:50-85 | The hash is "sha256:" and the digest of the string itself, of the canonical text of a dict or list, and of "None", "True", "False" or the digits otherwise. |
| Timestamp.IsoTextOrder | src/atp/core/storage.py:464-468 | For datetimes with one common offset, text order is time order and equal texts mean equal instants, with the fraction absent or six digits long. |
| Timestamp.IsoTextOrderNeedsOneOffset | src/atp/core/storage.py:488-493 | A pair with different offsets whose text order and time order disagree. |
| Timestamp.IsoRoundTrip | src/atp/core/storage.py:376-420 | A stored expiry text reads back to the same datetime, offset included. |
| Timestamp.IsoUtcText | src/atp/core/storage.py:376-464 | A UTC `isoformat()` is the date and time, no fraction when it is zero and else six digits, and `+00:00`. |
| Timestamp.OffsetTexts | src/atp/core/storage.py:376 | East is written `+`, west `-`, and a naive datetime without an offset. |
| Timestamp.StampShape | src/atp/core/hashing.py:118-122 | Each field of the date and time stands in its place with its marks: `YYYY-MM-DDTHH:MM:SS`. |
| Timestamp.FormatDecidesInstant | src/atp/core/hashing.py:102-122 | Two datetimes get one RFC 3339 text if and only if they denote one instant, whatever their offsets. |
| Timestamp.FormatRoundTrip | src/atp/core/hashing.py:102-122 | The text reads back to the instant, to the microsecond. |
| Timestamp.ReadFraction | src/atp/core/hashing.py:118-122 | A fraction with its trailing zeros stripped never ends in 0 and still determines the microsecond. |
| Timestamp.RfcTail | src/atp/core/hashing.py:118-122 | After it the RFC 3339 form has `Z` alone for a zero fraction, else a point, one to six digits that do not end in 0 and give the microsecond, and `Z`. |
| Timestamp.InlineAgreesExactlyOnUtc | src/atp/core/hashing.py:317-322 | The inline formatter agrees with the helper if and only if the offset is zero or absent. |
| Timestamp.InlineDecidesFields | src/atp/core/hashing.py:317-322 | Two inline texts are equal if and only if the wall-clock fields are; the offset does not enter. |
| Calendar.FieldsOrderInstants | src/atp/core/storage.py:417-422 | Comparing calendar fields from the year down is comparing instants, over leap years and centuries. |
| Calendar.KnownMonthEnds | src/atp/core/hashing.py:115-116 | The calendar counts days as Python's does: the day number of every month's end in a leap year. |
| Calendar.KnownDays | src/atp/core/hashing.py:115-116 | The same around turns of years and of centuries. |
| Hashing.DependenciesTextDecides | src/atp/core/hashing.py:125-201 | Canonical dependency texts are equal if and only if the lists match in order, without challenge URLs, with None and empty policies identified, times compared as instants, and a missing list counted as empty. |
| Hashing.DependenciesHashDecides | src/atp/core/hashing.py:167-201 | The same for the hash; no dependencies hash as the literal `[]`. |
| DependencyText.DependenciesTextFields | src/atp/core/hashing.py:125-201 | Read back, the canonical text holds the dependencies in order with exactly their own URI (null if none), task id and evaluations if any, and each evaluation with its own type, result, RFC 3339 time, and policy unless empty, under those keys and no others. |
| DependencyText.DictTextFields | src/atp/core/hashing.py:131-157 | The same for the dict form, with each time as the text given. |
| DependencyText.DependenciesHashText | src/atp/core/hashing.py:191-201 | The dependency hash is "sha256:" and the digest of that text, `[]` for a missing list. |
| Hashing.DictFormAgrees | src/atp/core/hashing.py:131-136 | The dict form and the object form give one text if and only if the dicts already carry the RFC 3339 texts of the objects. |
| ProofMessage.MessageDetermines | src/atp/core/hashing.py:317-331 | Within one formula, with no `\|` after the system URI, equal messages mean equal fields and conversely. |
| ProofMessage.MessageFields | src/atp/core/hashing.py:324-331 | Split at its bars, the message is the URI, task id, invocation hash, outcome hash, the dependency hash unless empty, and the timestamp, in this order. |
| ProofMessage.LegacyCollidesExactly | src/atp/core/hashing.py:324-331 | A legacy message, bar-free after its URI, is also the message of some such new-formula tuple if and only if its URI holds a `\|` and its outcome hash is not empty. |
| ProofMessage.LegacyTwinCollides | src/atp/core/hashing.py:324-331 | Every new-formula message, bar-free after its URI, is also the message of such a legacy tuple, whose URI holds a `\|`. |
| ProofMessage.ProofHashDecides | src/atp/core/hashing.py:281-333 | Over both formulas the proof hash decides every field, None and the empty dependency hash identified. |
| ProofMessage.OffsetChangesProofHash | src/atp/core/hashing.py:317-322 | One instant written with a non-zero offset has another proof hash than in UTC, for every tuple and offset. |
| InMemoryStore.InMemoryProofStore.Save | src/atp/core/storage.py:90-115 | The map gains or replaces exactly the proof's own task id. |
| InMemoryStore.InMemoryProofStore.Get | src/atp/core/storage.py:117-158 | Missing, expired strictly before now (and removed), a storage error for a naive expiry, or the proof with the map unchanged. |
| InMemoryStore.InMemoryProofStore.Delete | src/atp/core/storage.py:160-179 | Exactly one id goes; an absent id is no error. |
| InMemoryStore.InMemoryProofStore.List | src/atp/core/storage.py:181-189 | All ids, expired or not. |
| InMemoryStore.InMemoryProofStore.Sweep | src/atp/core/storage.py:199-219 | After a pass the map is the old one without the keys found expired, every survivor with an aware expiry expires no earlier than the sweep began, and the count equals the drop in size. |
| SqliteStore.SqliteProofStore.Save | src/atp/core/storage.py:363-390 | The table gains or replaces exactly the proof's row, its expiry written as ISO text. |
| SqliteStore.SqliteProofStore.Get | src/atp/core/storage.py:392-437 | A get that nothing interrupts: missing, expired strictly before now (and deleted), or the proof, by the datetime read back from the row. |
| SqliteStore.SqliteProofStore.Delete | src/atp/core/storage.py:439-455 | Exactly one id goes; an absent id is no error. |
| SqliteStore.SqliteProofStore.List | src/atp/core/storage.py:457-476 | The ids whose expiry text sorts after the text of now; no row is touched. |
| SqliteStore.SqliteProofStore.CollectGarbage | src/atp/core/storage.py:482-504 | The rows whose expiry text sorts before the text of now go, and the count is the number of rows gone. |
| SqliteStore.TextFollowsClockExactlyOnUtc | src/atp/core/storage.py:464-493 | Both text comparisons agree with the clock at every reading if and only if the expiry is written with a zero offset. |
| SqliteStore.TextSelectsByTime | src/atp/core/storage.py:464-493 | `list` selects exactly the rows expiring after now and GC keeps exactly those not expired before now. |
| SqliteStore.GetSelectsByTime | src/atp/core/storage.py:410-426 | `get` decides by the expiry instant of the saved proof, whatever its offset; a naive expiry counts as UTC. |
| StoreHistories.TwoStoresAgree | src/atp/core/storage.py:90-476 | On every history of calls with UTC expiries, both stores swept at the same calls, the outcomes are equal call by call, and SQLite `list` is the in-memory list restricted to ids expiring after now. |
| StoreHistories.StoresAgreeUnderOwnGc | src/atp/core/storage.py:90-504 | The same with each store swept by its own GC task at its own times, the in-memory sweep reading the clock per key: outcomes agree call by call up to "missing" against "expired", and SQLite `list` is the in-memory list cut down to the ids not expired. |
| StoreHistories.GetAgreesExactlyOnAware | src/atp/core/storage.py:142-422 | For one saved proof the two `get`s agree if and only if its expiry is aware; a naive one raises in memory and counts as UTC in SQLite. |
| StoreHistories.GcUnobservable | src/atp/core/storage.py:363-504 | Removing every GC pass from a history at non-decreasing times changes no result, except that a "missing" may become an "expired". |
| StoreHistories.SqlCallMeans | src/atp/core/storage.py:363-504 | What a later get sees of each call: a save its proof until it expires, a delete nothing, an expired get and GC nothing of what had expired, and every other id as before; with the outcome each call returns. |
| SqliteSafety.LiveRowLostExactly | src/atp/core/storage.py:392-504 | In every interleaving a step loses a live row if and only if it is an explicit DELETE, the DELETE of a get that saw an expired row while a save of that id fell between its SELECT and its DELETE, or a GC pass misled by an expiry text that is not in UTC. |
| SqliteSafety.FreshIdsNeverLost | src/atp/core/storage.py:392-504 | On any table, reopened ones included: when an id is saved once with a UTC expiry, a row already there counting as that save, a step removes its live row if and only if it is an explicit delete. |
| SqliteSafety.SavingTwiceCanLoseLiveRow | src/atp/core/storage.py:392-455 | For every expired and every live proof of one id there is a run in which a get deletes the live one. |
| SqliteSafety.FoundWasStoredAndLive | src/atp/core/storage.py:402-432 | A proof a get returns was in the table at that get's SELECT and had not expired at its check. |
| SqliteSafety.CallsDoAsAsked | src/atp/core/storage.py:363-504 | In every run each completing statement does what its call was begun for: a save writes that proof and no other row, a delete removes that id, an expired get its own id, a list gives and a GC pass keeps, among UTC rows, exactly those its first clock reading selects; and the call ends with that outcome, or with an error if closing its connection failed. |
| SchemaLock.OneCreator | src/atp/core/storage.py:328-342 | In every run at most one caller is inside the creation block. |
| SchemaLock.TableBeforeData | src/atp/core/storage.py:318-349 | No caller opens its data connection before journal mode, table and index are there, and creation completes at most once. |
| SchemaLock.ReadySkipsLock | src/atp/core/storage.py:328-329 | Once the flag is set a new caller takes no lock. |
| SchemaLock.WaiterSkipsCreation | src/atp/core/storage.py:330-332 | A caller that waited while another created does not create again and gives the lock up. |
| SchemaLock.FailureCloses | src/atp/core/storage.py:333-341 | A statement that fails still closes its connection before the lock is given up. |
| SchemaLock.FailureAllowsRetry | src/atp/core/storage.py:328-342 | An attempt that raises leaves the flag unset and the lock free. |
| SchemaLock.WaitingCallerCanRetry | src/atp/core/storage.py:328-332 | After that a waiting caller can enter the creation block itself. |
| SchemaLock.NeverStuck | src/atp/core/storage.py:318-349 | While some caller is unfinished, some caller can take a step that does not fail. |
| SystemUri.BuildThenSplit | src/atp/core/client.py:1021-1023 | The last segment of a built system URI is the id again if and only if the id is non-empty and slash-free. |
| SystemUri.TrailingSlashesIgnored | src/atp/core/client.py:1021-1023 | Trailing slashes, however many, do not change the id. |
| Client.ATPClient.RegisterSystem | src/atp/core/client.py:209-282 | A call that no other overlaps: a known name is answered from the cache and changes nothing; a refusal changes nothing; an acceptance fills all three caches. |
| Client.ATPClient.RecordAnswer | src/atp/core/client.py:264-282 | The half after the POST: an acceptance goes into all three caches whatever happened meanwhile; a name already there keeps its place and gets the new id. |
| Registrations.RegisteredIdsCached | src/atp/core/client.py:209-282 | In every interleaving of registrations each name has one entry and every registered id a cached URI and type, both from one answer of the Exchange. |
| Registrations.SentUriFromExchange | src/atp/core/client.py:329-332 | In every run, the sketch sent for a registered id carries a URI that an earlier answer of the Exchange gave for that id. |
| Registrations.FirstNameStays | src/atp/core/client.py:209-282 | Once a system is registered its name stays first, and every request still waiting for that name was waiting then. |
| Registrations.FirstIdChangesExactly | src/atp/core/client.py:209-282 | The id of the first system changes at a step if and only if that step answers, with another id, a request for its name that was already waiting when it was registered. |
| Registrations.FirstSystemStays | src/atp/core/client.py:209-282 | Without such a request the first system, under which contexts commit, keeps its id for good. |
| Registrations.OverlapReplacesFirst | src/atp/core/client.py:209-282 | With one it need not: for every name and pair of answers there is a run of two overlapping calls in which the second answer replaces the first id. |
| Client.ATPClient.CreateCommit | src/atp/core/client.py:329-361 | The sketch sent carries the URI cached at registration or else one built from the configured URL, the classification given or the default, and everything else unchanged; it still tells the truth about every proof the given sketch did, and re-hashes to the proof hash sent when the task ids agree. |
| Client.SentRequest | src/atp/core/client.py:329-361 | The same for the whole request, with the proof hash taken of the message over exactly what is sent. |
| Client.SignatureHashAgrees | src/atp/core/client.py:1166-1173 | The hash recomputed from the stored sketch equals the one sent when the task ids agree; with bar-free fields, only then. |
| Commits.HashesDetermineContent | src/atp/core/utils.py:155-168 | Equal invocation hashes mean the same query, and equal outcome hashes the same response and artifacts. |
| CommitText.InvocationText | src/atp/core/utils.py:155-159 | The canonical text of the invocation of a query, written out. |
| CommitText.OutcomeText | src/atp/core/utils.py:160-165 | The canonical text of the outcome of a response, written out, with its artifacts in their place if there are any. |
| Commits.SentMatchesStored | src/atp/core/client.py:329-338 | The sketch sent still matches the stored proof in task id and all three hashes, although its URI may have been replaced. |
| Commits.ContextCommits | src/atp/core/utils.py:140-218 | What a context stores and sends: a proof of exactly its query, response and dependencies under the first registered system, with the configured URL, type, TTL and hashes, and a sketch with the same dependencies, their hash, its classification and the cached URI. |
| TaskContext.ATPTaskContext.AddDependentProof | src/atp/core/utils.py:90-133 | Appends one reference: a proof's own ids with the evaluations given and no challenge URL, or a dependency as it is with the evaluations added after its own. |
| TaskContext.ATPTaskContext.Describe | src/atp/core/utils.py:149-165 | The task's URI leads back to the first registered system exactly when its id is slash-free, and its invocation and outcome dicts hold no key twice. |
| TaskContext.ATPTaskContext.Commit | src/atp/core/utils.py:135-220 | Skips exactly when committed or without a non-empty response, refuses exactly without a system; otherwise stores the proof of exactly what the context holds, dependencies included, and posts its sketch with the same dependencies, their hash, the classification and the URI; only an acknowledged POST sets the flag. |
| TaskContext.ATPTaskContext.Exit | src/atp/core/utils.py:226-229 | A body that raised, an empty response, a context already committed and a client without a system leave store, Exchange and flag alone; in every other case proof and sketch of exactly what the context holds are stored and posted, and only an acknowledged POST sets the flag. |
| Adapter.MinimalAdapter.Register | src/atp/adapters/base.py:192-223 | Keeps the id and URI of a successful registration; a failed one changes nothing in the adapter. |
| Adapter.MinimalAdapter.Describe | src/atp/adapters/base.py:279-306 | The task carries the registered URI, or a built one that leads back to the system exactly when its id is slash-free; its dicts hold no key twice if the artifacts do not. |
| Adapter.MinimalAdapter.OnTaskComplete | src/atp/adapters/base.py:276-354 | Unregistered: nothing changes. Otherwise the proof of exactly this query, response and artifacts, without dependencies, is saved whatever the POST does, and its sketch with the given or default classification and the cached URI is posted. |
| Adapter.MinimalAdapter.OnChallenge | src/atp/adapters/base.py:362-371 | An absent proof is not found, a naive expiry is a storage error, an expired proof is removed and reported, and a live one is disclosed; nothing else changes. |
| Verify.VerifiersAgree | src/atp/core/utils.py:439-502 | On every stored proof and every Exchange reply both verifiers give the same verdict and message and report VERIFIED exactly when it is true; `challenge_and_verify` reports COMPROMISED exactly on a concrete mismatch. |
| Verify.ReportsDifferExactly | src/atp/core/client.py:818-843 | The reports of the two verifiers differ if and only if the hashes are fine but the Exchange could not be asked or the commit has failed. |
| Verify.ChallengeCases | src/atp/core/client.py:708-816 | `challenge` raises exactly without a registered system or a parsed proof; with verification off it reports nothing and accepts nothing. |
| Verify.UnansweredCases | src/atp/core/utils.py:374-431 | `challenge_and_verify` without a system, on an RPC error, on a failed request and on an unreadable proof: its message, no acceptance, no report. |
| Verify.VerdictMessages | src/atp/core/client.py:1028-1059 | The message of a verdict names the first failing check, in the order contents, Exchange, status. |
| Verify.ExpectationsNarrow | src/atp/core/utils.py:486-493 | Expected values accept exactly the replies accepted without them whose content has the expected value; what they refuse is reported COMPROMISED. |
| Verify.Binding | src/atp/core/client.py:1028-1059 | Two proofs accepted for one system and task carry the same invocation and outcome as JSON values. |
| Verify.RawBinding | src/atp/core/utils.py:439-502 | For untyped replies: once one is accepted, another for the same task is accepted if and only if it declares the same hashes and its content equals the first one's up to a string that spells the other value's text. |
| Uuid.DrawnIsUuid | src/atp/core/utils.py:78 | The text of any drawn UUID is accepted by the UUID constructor and reads back as its 32 digits. |
| Uuid.ShortTextRefused | src/atp/core/models.py:359 | The UUID constructor refuses every text of fewer than 32 characters. |
| Uuid.PlainTextIsUuid | src/atp/core/models.py:359 | Of 32 characters without marks, blanks or a leading zero, exactly the hex digits are accepted. |
| ResponseCheck.AcceptsExactlyOutcomeText | src/atp/core/client.py:636-655 | For a committed task `verify_response` accepts a text if and only if it is the canonical JSON of the whole outcome. |
| ResponseCheck.ResponseTextRefused | src/atp/core/client.py:610-655 | It refuses the response text of every task committed by a context or the adapter. |
| Completeness.CommittedProofVerifies | src/atp/core/client.py:1018-1059 | After a POST, however it ended and on any Exchange, the stored proof verifies if and only if its task id is a UUID text and its own URI leads back to the system it was recorded for, or to one that already held a confirmed commit with the same task id and content. |
| Completeness.OddIdRefused | src/atp/core/models.py:352-359 | A task whose id is no UUID text is accepted by neither verifier, and `challenge` reports it COMPROMISED. |
| Completeness.ExampleIdIsOdd | src/atp/adapters/base.py:170-174 | The concrete case: the id `abc-123` of the adapter's usage example. |
| Completeness.UnrecordedRecommit | src/atp/adapters/base.py:346-354 | When a committed id is completed again and the second POST is not recorded, both verifiers accept the newly stored proof if and only if it means the same; otherwise both report the agent COMPROMISED. |
| Completeness.ContextProofVerifies | src/atp/core/utils.py:149-218 | A context's proof, its id a fresh UUID, verifies if and only if its POST was recorded and the first system's id is slash-free, whatever URI was sent. |
| Completeness.AdapterProofVerifies | src/atp/adapters/base.py:276-354 | The adapter's proof verifies if its POST was recorded, its URI (kept or built) leads back to the system and the id its caller chose is a UUID text; for an id new to the Exchange, only then; with an id that is no UUID text, never. |
| Completeness.StoredUntilExpiry | src/atp/core/storage.py:117-432 | Both stores give a saved proof back up to and including its expiry and report it expired after. |
| Completeness.HonestTaskPassesChallenge | src/atp/core/utils.py:408-502 | A recorded task, its id new or used before, challenged before its proof expires is disclosed, and it is verified and reported VERIFIED, with nothing else reported, if and only if its id is a UUID text. |
| PreChallenge.PreChallengeDependencies | src/atp/core/utils.py:563-624 | The list keeps its earlier content and gains, in input order, the record of every entry that verified and whose record can be built; entries without a challenge URL or a task id add nothing; an entry with both whose agent discloses a proof the client's verifier accepts has its record among the new ones; no entry stops the loop. |
| PreChallenge.VerifiedEntryRecorded | src/atp/core/utils.py:564-611 | An entry with a non-empty URL and task id that verified adds exactly the record of the reply's fields, with "agent" for an absent type, if its task id is a string, its contents are dicts and its type is absent or a string, and else nothing. |
| PreChallenge.SkippedEntry | src/atp/core/utils.py:565-570 | An entry without a challenge URL, or with an empty one, or without a task id adds nothing whatever an agent would answer. |
| PreChallenge.RefusedEntry | src/atp/core/utils.py:572-624 | An entry that did not verify, or whose challenge raised, adds nothing. |
| PreChallenge.AllBacked | src/atp/core/utils.py:563-624 | Every record of the whole loop comes from a challenged entry that backs it. |
| PreChallenge.EntriesIndependent | src/atp/core/utils.py:563-624 | The records of a split request are the records of its parts, so no entry affects another. |
| PreChallenge.HonestEntryRecorded | src/atp/core/utils.py:564-611 | An entry with a non-empty URL and task id, answered with a stored proof, adds exactly that task if the client's own verifier would accept it, and nothing otherwise. |
| WorldSafety.NextKeepsGood | src/atp/core/utils.py:135-220 | Every step of the agent, a restart included, keeps the whole-run invariant. |
| WorldResults.CommitsAnswerable | src/atp/core/utils.py:135-220 | In every run, restarts included, each commit the Exchange holds matches the proof of the task it was made from, dependencies and classification included, and that proof is in the store unless it has expired or was deleted on request since it was saved. |
| WorldResults.CommitCarriesAnswer | src/atp/core/utils.py:135-220 | In every run each commit comes from one non-empty answer of one context: the task behind it holds that query, response, classification, dependencies, URL and TTL, under the first system registered then, and its sketch carries the dependencies and their hash. |
| WorldResults.FlagMeansRecorded | src/atp/core/utils.py:214-220 | In every run, a context whose commit flag is set has its commit with the Exchange, made from its own task. |
| WorldResults.SavePrecedesCommit | src/atp/core/utils.py:212-218 | Every commit was recorded by the POST of its own task's context, and the INSERT of that task's proof came before that POST. |
| WorldResults.OneCommitPerTask | src/atp/core/utils.py:66-84 | Task ids are fresh, so in every run the Exchange never holds two commits for one task. |
| WorldResults.GetFindsProof | src/atp/core/storage.py:392-432 | A get whose SELECT comes after the commit and whose check comes before the proof expires, undeleted, returns that proof, whatever runs in between. |
| WorldResults.CommitStays | src/atp/core/utils.py:212-218 | A recorded commit and the task behind it never change, and a proof still answerable was so all along. |
| WorldResults.LiveCommitsVerify | src/atp/core/client.py:998-1059 | When such a get returns the proof, then from that moment on it verifies against the Exchange if and only if the committing system's id is slash-free; then `challenge_and_verify` accepts its disclosed form and reports VERIFIED. |
| WorldResults.RunBinds | src/atp/core/client.py:1028-1059 | At any moment of any run, a proof accepted for a commit carries, as JSON values, the invocation and outcome of the one task behind it, and so the query asked and the response given to the context that started it, whose dependencies that task holds. |
| WorldResults.HonestContextCanCommit | src/atp/core/utils.py:135-220 | From any state with a system registered, a new context that answers can enter, save and post to a recorded commit, adding exactly its own row and commit. |

## Left out

- HTTP, connection handling, status codes, JSON-RPC framing and timeouts: calls have outcomes only.
- SHA-256, Ed25519 and base58: the hash is a parameter, and `verify_signature` stops at the recomputed proof hash.
- SQLite internals, WAL, file paths and worker threads: a table is a map and each statement is atomic.
- Pydantic coercion and serialisation: a stored proof survives the store and the wire unchanged, so parsing a row's JSON cannot fail.
- JSON floats, NaN, non-string keys and lone surrogates, and Python's `True == 1`: values are null, booleans, integers, strings, lists and string-keyed dicts.
- Whitespace in parsed JSON: the parser is the inverse of the compact printer, not a general reader; `fromisoformat` likewise reads what `isoformat` writes.
- Years before 1000 in the RFC 3339 form: `strftime("%Y")` does not pad them reliably, so formatters require years 1000 to 9999.
- The order of `list` results: both lists are sets.
- StoreHistories.StoresAgreeUnderOwnGc: histories save UTC expiries only; for another offset SQLite `list` and GC follow the text, as `SqliteStore.TextFollowsClockExactlyOnUtc` shows.
- StoreHistories.TwoStoresAgree: the same restriction to UTC expiries.
- StoreHistories.GcUnobservable: the same restriction to UTC expiries, for the same reason.
- WorldResults.CommitsAnswerable: runs contain task contexts with fresh ids; adapters, whose callers choose task ids, are covered call by call only, and the Exchange holds this agent's commits only.
- SchemaLock.NeverStuck: says some step is always possible, not that a fair scheduler exists.
- TaskContext.ATPTaskContext.Commit: uses the in-memory store, whose calls are atomic; the SQLite store and failing saves are covered by `World`.
- Disclosed proofs: the dict is modelled without its timestamps and dependencies, which no verifier reads.
- PreChallenge.PreChallengeDependencies: the appended record is modelled without its timestamp, and entries arrive as `Dependency` objects rather than raw dicts.
- VerifyRaw: a task id that is not a string is turned into text as canonical JSON or as a scalar's `str()`; Python's `str()` of a list or dict differs.
- Error texts: the key named in "Invalid proof structure" is dropped, and a content mismatch shows canonical text in place of `repr`.
- Matching the requested task id to the returned one: no verifier compares them, so results speak about the proof's own ids.
- Adapter.MinimalAdapter.Register: the adapter registers with no other call in flight; overlapping calls are in `Registrations`.
- The Exchange's own checks: a POST is recorded or not, recorded commits are confirmed, and a second commit for one key replaces the first.
- The lookup path: the ids go into the URL unescaped; the model looks up the exact pair of ids.
- `Uuid.IsUuidText`: `int` also reads digits and spaces outside ASCII; the model refuses them.
- Classifications are texts; capabilities, assessments, configuration, logging, exception classes and `ATPResponseWrapper` are not modelled.
- The `atp_committed` field of `atp_response`: it is read before the context commits, so nothing is claimed about it.
