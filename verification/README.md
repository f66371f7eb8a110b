# awg-rest: a verified model

awg-rest is a desired-state control plane for AmneziaWG. API transactions write peers, operations and
outbox jobs; workers turn the rows of a node into the config of a live interface. This project models its
hard core in Dafny 4.11 and proves what it keeps over every run and every input.
`dafny verify dfyconfig.toml` checks the whole project.

## How it is laid out

**Rows and runs.** `Tables` holds the rows, `Profiles` and `Keys` some of their values, `Service` the pre-checks and the two write transactions as functions
of the rows, `Outbox` what each statement does to a job, an operation or a peer. `Protocol` is the step system:
every API call is split where other work may fall between its statements, every worker is split into
claim, read, sync, persist, complete and report, and crashes, expired leases, clock ticks and outside changes to an
interface are steps too. A sync prints the config of the rows that were read and puts on the interface what the parser
makes of that text. `NoLostWork`, `Leases`, `Ledger`, `Idempotency`, `TidyRuns`, `Agreement` and `Addresses`
prove what holds in every state of every run. `Agreement` has three assumptions: applies are serialised per node, names
and texts print as themselves, and the node has its interface to itself. `StaleApply`, `UntidyNames` and
`SharedInterfaces` show that it needs each of them, and `Counterexamples` has runs from a fresh installation (`Installations`) for everything that is claimed
not to hold. The history fields (`stamp`, `log`, `drifted`) only record; no step reads them.

**Methods over the rows.** `Database.Store` is the database with one method per statement, `Writes` has `CreatePeer` and
`RevokePeer` with rollback, and `Worker` has one apply of a node, one job and `RunOnce`, with the errors of `Failures`.
Each is proved against the functions the step system uses; both writes are shown to be runs of the step system, and
`ApplyRuns` does the same for a job from claim to report.

**Addresses.** `Powers`, `Netip`, `HostBytes`, `Ring` and `Ipam` model the allocator, from the byte loop that
finds the last host to the cyclic search.

**Config text.** `Strings`, `Numerals` and `ConfigText` are the text functions; `Parser`, `Config`,
`Render`, `Printer` and `Executor` are the program's parser, text transformations, printer and in-memory host,
`AddrText` the text of an address and `NodeConfigs` the config of a node's rows.
`ConfigLines`, `ConfigLaws`, `ConfigMeaning`, `KeyInsertion`, `KeyPreservation`, `RenderLines`,
`RenderParse`, `RenderTheorems`, `ReadBack`, `KeyConservation` and `Snapshot` prove how they fit together, ending in: applying
the rows of a node puts exactly its non-revoked peers on the interface and keeps its private key. `ManyLines` shows what
texts of several lines do instead, `WipedKeys` what a key of two lines does, and `InertNames` which names and texts the
parser does not see.

**The rest.** `Words`, `SpecialJunk` and `Validation` are the profile validator, `RateLimit` the token bucket,
`Provisioning` and `Provisioner` the creation of V3.1 nodes, `Nodes` the default node.

## What is taken for granted

Row ids are numbers, the request hash is injective (a request stands for its own hash), strings are
sequences of characters, and time is a number. Generated keys, ids, the rendered client config and clock readings
are parameters; generated keys are base64 text of 32 bytes. A committed transaction is one step; what it read before is a
step of its own (READ COMMITTED), the pool row lock, the unique constraints and the advisory lock are
step rules.

Where the code and its comments disagree, the code is modelled. What then fails, and what else one might expect and does
not hold, is shown by an input or a run, beside what is proved of when it does hold:

- The allocator's package comment (internal/ipam/ipam.go:5-7) says the caller retries after a unique violation. It does
  not: `Counterexamples.StuckAfterOne` makes a fresh /30 pool useless with one create and one revoke,
  `Addresses.AllocationSucceedsIff` says when an insert succeeds, and `Addresses.StuckForever` that a stuck pool stays so.
- The comment on `Fail` (internal/repo/operations.go:136-137) says a retryable job waits for its lease to expire.
  `Counterexamples.RetriedFromStart` claims one again at the same clock reading; `Leases.LeaseDiscipline` names a
  retryable failure as the second case.
- In an IPv4 /31 pool no gateway is reserved although the node takes base + 1: `Counterexamples.ServerAddressHandedOut`
  gives that address to a peer, and `Addresses.GatewayIsServerAddress` says exactly when the two agree.
- A config whose `[Interface]` line is last and unterminated, or spelled in another case, loses a preserved key, whatever
  it is (`Counterexamples.KeyLost`); `KeyPreservation.KeySurvivesIff` gives the exact condition.
- Display names and the texts of a profile are printed as they are, newlines included. A name can make any peers live
  (`ManyLines.NameAddsPeers`), so that a serial run from a fresh installation ends with a revoked peer live
  (`Counterexamples.RevokedPeerStays`). A special-junk text the validation accepts can set the private key
  (`ManyLines.TextSetsKey`), and a header protection key it accepts can wipe the preserved one
  (`WipedKeys.HeaderKeyWipes`). `Agreement.RuntimeAgreement` is proved for names and texts of which every line but the
  first is one the parser does not read, as in all of one line. `InertNames.NameIsInvisibleIff` and
  `InertNames.TextIsInvisibleIff` show that exactly those are invisible to the parser wherever they stand; that no other
  does harm where it happens to stand is not claimed. Names come from requests. The program itself inserts only profiles
  built from constants and generated keys (internal/bootstrap/bootstrap.go:105, internal/bootstrap/provision_v31.go:81-90),
  so a text of several lines comes from outside it.
- The schema keeps host names unique, not interface names (internal/repo/schema/0001_init.sql:33-36), and one host serves
  all nodes. Where two nodes share a name, a reconcile of one takes the applied peers of the other off the interface
  (`SharedInterfaces.SharedInterfaceDrops`, from a fresh installation `Counterexamples.AppliedPeerDropped`).
  `Agreement.RuntimeAgreement` is about nodes that share theirs with no other; `Provisioning.ProvisionedApart` and
  `Provisioning.StaysUnique` are what keeps names apart.
- An apply whose look at the current config failed replaces the key (`KeyConservation.KeyKeptIff`).
- Which errors are retried depends on words in the text, names included (`Failures.MissingIsRetried`).

## Model

| member | source | states |
|---|---|---|
| `NoLostWork.NoLostWork` | internal/outbox/worker.go:100-123 | in every state of every run, a job or operation reported applied has its peer's applied revision at or past the revision its transaction set, and a peer that lags always has a job not reported done |
| `NoLostWork.RevisionMachine` | internal/repo/peers.go:209-229 | in every reachable state applied is at most desired, desired is at least 2 exactly for revoked rows, and pending means neither revoked nor applied |
| `NoLostWork.RowsNeverGoBack` | internal/repo/peers.go:209-229 | between any two states of a run no row disappears, no revision decreases and revoked stays revoked, also when a stale report lands after a revoke |
| `NoLostWork.RowsForward` | internal/outbox/worker.go:262-295 | the same for one step of any kind |
| `Agreement.RuntimeAgreement` | internal/outbox/worker.go:160-223 | with applies serialised per node, names and profile texts that print as themselves, and everything else interleaved freely, on a node that shares its interface name with no other a peer whose desired revision is applied is on the interface with its preshared key and address exactly when it is not revoked; the interface is what parsing the printed config gives |
| `TidyRuns.TidyAlong` | internal/api/service.go:179-194 | in every state of a run of requests with such names, every row and every row a worker has read prints as itself |
| `Agreement.DesiredShows` | internal/outbox/worker.go:183-199 | the text printed from such rows, with whatever key is preserved, puts on the interface exactly the peers the rows ask for |
| `Agreement.RenderedAgrees` | internal/outbox/worker.go:183-194 | a peer applied up to what the snapshot saw is in the rendered peer set exactly when it is not revoked |
| `Agreement.UniqueStep` | internal/repo/schema/0001_init.sql:100-102 | every step keeps external ids per tenant, and addresses and public keys per node, unique over all rows |
| `StaleApply.RevokedPeerComesBack` | internal/outbox/worker.go:165-222 | from every state where a live peer can be revoked and two workers are free there is a run that ends with the revocation applied, nothing drifted, and the peer live again |
| `SharedInterfaces.SharedInterfaceDrops` | internal/repo/schema/0001_init.sql:33-36 | from every state without workers in which two nodes share an interface, one reconcile of the one removes an applied peer of the other, whose row is unchanged, with nothing drifted |
| `Counterexamples.AppliedPeerDropped` | internal/outbox/worker.go:196-212 | such a serial run of tidy requests exists from a fresh installation, the peer being live before |
| `UntidyNames.NamedPeerComesBack` | internal/outbox/worker.go:188-193 | from every state where a live peer's name holds the section of a revoked one, one worker alone brings the revoked peer back although its revocation counts as applied |
| `Counterexamples.RevokedPeerStays` | internal/render/render.go:76-82 | a serial run from a fresh installation with a /29 pool ends with a revoked peer applied and live |
| `ManyLines.NameAddsPeers` | internal/render/render.go:76-82 | for any well-formed peers there is a name that puts them into the printed config beside the peer that is named |
| `InertNames.NameIsInvisibleIff` | internal/render/render.go:78-80 | a display name, printed as a comment, leaves every parser state as it is exactly when each of its lines after the first is one the parser does not read |
| `InertNames.TextIsInvisibleIff` | internal/render/render.go:182-192 | the same for a text printed as the value of any setting the parser does not read, as special-junk texts and header protection keys are |
| `ManyLines.TextSetsKey` | internal/domain/profile.go:327-398 | every valid V2 or V3.1 profile stays valid with a junk text whose second line assigns a private key, and the config printed from it, with any peers, parses as if the interface had that key |
| `WipedKeys.HeaderKeyWipes` | internal/domain/profile.go:400-406 | every valid V3.1 profile stays valid with a header protection key of 33 digits and a line `PrivateKey=`, no key is found in the config printed from it, and any key preserved into it parses as empty |
| `RenderParse.ParseInterface` | internal/render/render.go:46-71 | for every profile the interface block parses as the interface's own key and port followed by the further lines of the profile's texts |
| `Leases.AttemptsAreClaims` | internal/repo/operations.go:104-127 | in every run the attempts of a job equal the claims made of it |
| `Leases.LeaseDiscipline` | internal/repo/operations.go:104-147 | between two successive claims of a job lies more than the full lease or a retryable failure of that job |
| `Leases.SlotStep` | internal/repo/operations.go:104-147 | what any step can do to a job row: claim it, fail it for retry, insert it, or mark it applied or terminally failed |
| `Counterexamples.RetriedAtOnce` | internal/repo/operations.go:104-147 | from every state with a claimable job and a free worker the job can be claimed, failed for retry and claimed again while the clock stands still |
| `Counterexamples.RetriedFromStart` | internal/repo/operations.go:136-147 | the same from a fresh installation after one create |
| `Idempotency.AtMostOnce` | internal/api/service.go:147-254 | over every run and interleaving at most one create or revoke commits per tenant and key, expired or not |
| `Idempotency.ReplayIsStored` | internal/api/service.go:149-159 | while the record lives, the same request returns the stored body and another request conflicts, and neither changes anything |
| `Idempotency.HitChangesNothing` | internal/repo/idempotency.go:27-40 | a request that finds a record leaves the whole system as it is |
| `Ledger.AlwaysBalanced` | internal/api/service.go:179-253 | in every reachable state operations, jobs, audit events and idempotency records match the committed writes one to one, and create operations match peers |
| `Ledger.SameCounts` | internal/api/service.go:313-344 | operations, jobs, records and audit events are equally many in every reachable state |
| `Addresses.AddressesAreSound` | internal/repo/peers.go:36-145 | over whole histories the rows of a node hold distinct addresses, each usable in a pool of its node and tenant and never the server address of an IPv4 pool shorter than /31 |
| `Addresses.GatewayIsServerAddress` | internal/repo/peers.go:267-277 | the reserved gateway is the server address exactly when the pool is not an IPv4 /31 |
| `Counterexamples.ServerAddressHandedOut` | internal/repo/peers.go:267-277 | on every fresh IPv4 /31 pool at most two creates give a peer the node's own address |
| `Addresses.AllocationSucceedsIff` | internal/repo/peers.go:59-97 | with fresh names an insert succeeds exactly when some usable address is unused and the first one from the cursor is not held by a revoked row; the error otherwise says which failed |
| `Addresses.FullThenRevokedIsStuck` | internal/repo/peers.go:59-75 | when every usable address is in use or held by a revoked row, the next allocation hits a revoked row's address |
| `Addresses.StuckForever` | internal/repo/db.go:52-68 | a pool in that position stays there in every continuation of the run, and no create on it ever commits |
| `Counterexamples.StuckAfterOne` | internal/ipam/ipam.go:5-7 | on every fresh IPv4 /30 pool one create and one revoke reach that position |
| `Addresses.ReserveFrom` | internal/repo/peers.go:36-90 | reserving uses the smallest pool of the node and tenant, its cursor, and the unrevoked addresses and gateway as reserved |
| `Database.Store.ClaimNext` | internal/repo/operations.go:104-127 | the oldest claimable job outside the locked ones is leased and its attempts grow by one; without one nothing changes |
| `Database.Store.CompleteJob` | internal/repo/operations.go:130-134 | marks the job applied whoever holds it, and nothing else |
| `Database.Store.FailJob` | internal/repo/operations.go:138-147 | sets the failed status that fits, and nothing else |
| `Database.Store.MarkApplied` | internal/repo/peers.go:221-229 | raises the applied revision to at least the given one, turns pending into active, leaves other rows alone |
| `Database.Store.MarkRevoked` | internal/repo/peers.go:209-218 | revokes the row and bumps its desired revision, or reports it missing |
| `Database.Store.SelectPool` | internal/repo/peers.go:38-49 | finds the smallest matching pool exactly when one matches |
| `Database.Store.LoadUsed` | internal/repo/peers.go:59-82 | the loop collects exactly the unrevoked addresses of the node and the gateway |
| `Database.Store.Violates` | internal/repo/schema/0001_init.sql:100-102 | reports a clash exactly when a row shares external id, address or public key with the new one |
| `Database.Store.AllocateAndInsert` | internal/repo/peers.go:36-145 | inserts the peer with the reserved address and moves the cursor, or fails as the allocation says; a clash leaves the cursor moved for the rollback to undo |
| `Database.FewRowsLeaveRoom` | internal/ipam/ipam.go:145-158 | with fewer than 2^31 - 3 stored peers every pool of 31 or more host bits has a free address |
| `Database.Store.StoreRecord` | internal/repo/idempotency.go:43-53 | a plain insert, refused exactly when the key is there |
| `Database.Store.FirstNode` | internal/repo/nodes.go:79-98 | the scan returns the node that comes first, V3.1 nodes last |
| `Writes.CheckCreate` | internal/api/service.go:74-142 | the checks in their order give the resolved request or the first error |
| `Writes.InsertPeer` | internal/api/service.go:164-253 | the statements after a miss produce exactly the committed rows and response, or the error of the first that fails |
| `Writes.CreatePeer` | internal/api/service.go:74-263 | reply and rows are those of the specification; errors and replays leave every table as it was |
| `Writes.MarkAndRecord` | internal/api/service.go:313-345 | marking before the tenant check commits the revoke or reports its error |
| `Writes.RevokePeer` | internal/api/service.go:277-351 | reply and rows are those of the specification; a revoke of another tenant's peer leaves no trace |
| `Writes.CreateIsARun` | internal/api/service.go:147-254 | a create call is a run of at most three steps of the step system ending in the rows the call leaves |
| `Writes.RevokeIsARun` | internal/api/service.go:293-346 | a revoke call is a run of at most two steps ending in the rows the call leaves |
| `Worker.ListByNode` | internal/repo/peers.go:182-189 | lists every row of the node once, revoked ones included |
| `Worker.PersistRuntime` | internal/outbox/worker.go:262-295 | the loop marks exactly the rows read, each at the revision it was read with |
| `Worker.PreserveRuntimeKey` | internal/outbox/worker.go:232-241 | takes the live key over when the host can show its config, and returns the config as it is when it cannot |
| `Failures.MissingIsRecognised` | internal/outbox/worker.go:251-260 | the text of the host's own error, in lower case, contains one of the phrases, whatever the interface is called |
| `Failures.MissingIsRetried` | internal/outbox/worker.go:300-317 | that error is retried exactly when the interface name contains neither word for lasting failures |
| `Failures.BringUpIsRetried` | internal/outbox/worker.go:205-207 | after a failed bring-up the wrapped cause decides, and otherwise the texts of both errors |
| `Failures.MismatchIsRetried` | internal/outbox/worker.go:219-221 | a key mismatch is retried exactly when neither name nor keys contain such a word |
| `Worker.SyncNode` | internal/outbox/worker.go:196-212 | syncs, bringing a missing interface up first; only this interface can change, an error that does not say it is missing is handed on with nothing changed, and a healthy host ends with the config and its key |
| `Worker.ApplyNode` | internal/outbox/worker.go:160-223 | an error leaves the rows alone, success marks exactly the node's rows, no other interface changes, missing rows give their error, and a healthy host carries the config of the rows read and fails exactly on a key mismatch |
| `Worker.ProcessJob` | internal/outbox/worker.go:100-123 | the rows afterwards: job and operation applied and the node's rows marked after a successful apply, otherwise both failed as the error is classified and nothing else changed; and the host: no other interface changes, none when the rows do not allow an apply, and a healthy one carries the config of the rows |
| `Worker.RunOnce` | internal/outbox/worker.go:83-96 | works exactly when a job can be claimed; then the oldest such job is claimed and ends as ProcessJob ends it, in the rows and on the host |
| `ApplyRuns.ApplyIsARun` | internal/outbox/worker.go:100-123 | a job that succeeds is the run claim, read, bring up if missing, sync, persist, complete, report of the step system, with the same rows |
| `ApplyRuns.FailureIsARun` | internal/outbox/worker.go:103-111 | a job that fails ends in two steps with the same rows, wherever the worker was |
| `ApplyRuns.HostMatchesSync` | internal/outbox/worker.go:196-212 | what an apply leaves on the host is what the sync step puts on the interface, in whatever order the rows were read |
| `Ipam.Allocate` | internal/ipam/ipam.go:51-82 | the loop returns the allocation of the specification, within the number of reserved usable addresses plus 2 turns when one is free, and after every address when none is |
| `Ipam.Scan` | internal/ipam/ipam.go:60-82 | the same for the loop entered with a cursor in the pool |
| `Ipam.ExhaustedIff` | internal/ipam/ipam.go:67-82 | exhaustion is reported exactly when every usable address is reserved |
| `Ipam.AllocatedIsFirstFree` | internal/ipam/ipam.go:51-82 | the address is usable, free and the first such in cyclic order from the cursor, and the next cursor is its cyclic successor among usable hosts |
| `Ipam.EnumerationIsComplete` | internal/ipam/ipam.go:67-81 | feeding results back issues every free usable host exactly once and then reports exhaustion, from any cursor |
| `Ipam.EnumerationOrder` | internal/ipam/ipam.go:67-81 | with nothing reserved the order is the ring from the cursor |
| `Ipam.UsableIsHost` | internal/ipam/ipam.go:129-139 | the usable addresses are exactly the interval from the first to the last host |
| `Ipam.AddrCountIsRange` | internal/ipam/ipam.go:145-158 | below saturation the count is last - first + 1 |
| `HostBytes.FillHostBits` | internal/ipam/ipam.go:102-127 | the in-place byte loop with its 8-bit wrapped mask adds 2^hostbits - 1 to the big-endian value |
| `HostBytes.LastHost` | internal/ipam/ipam.go:102-127 | for every masked prefix the result is base + 2^hostbits - 1, less one for IPv4 shorter than /31 |
| `HostBytes.WrappedMaskValue` | internal/ipam/ipam.go:108-117 | the 8-bit shift and subtraction give 2^shift - 1 for every shift up to 8 |
| `Ring.Hosts.WalkIsComplete` | internal/ipam/ipam.go:67-82 | walking the ring from any host meets every host once |
| `Ring.Hosts.FirstFreeBound` | internal/ipam/ipam.go:67-82 | the first free host is met after at most as many misses as there are reserved hosts |
| `Netip.OverlapIsSharedAddress` | internal/bootstrap/provision_v31.go:279-288 | two masked networks overlap exactly when some address lies in both |
| `Parser.ParseRenderedConfig` | internal/awg/fake.go:330-385 | the loop computes the parse as a fold over the lines |
| `Parser.SplitCSVLoop` | internal/awg/fake.go:387-397 | keeps the trimmed non-empty parts in order |
| `Numerals.Scan` | internal/awg/fake.go:400-409 | the value of the leading digits in 64-bit arithmetic, and an error exactly when another character occurs |
| `Numerals.Itoa` | internal/awg/fake.go:411-423 | the decimal digits, nothing for a negative number |
| `Numerals.ScanDigits` | internal/awg/fake.go:400-423 | scanning a printed number gives it back |
| `Config.FindInterfaceValue` | internal/awg/config.go:7-31 | the loop returns the first value of the key inside an interface section |
| `Config.InsertInterfaceValue` | internal/awg/config.go:35-51 | the loop inserts below the first header, or in front, and only when the key has no value |
| `Config.RedactConfigSecrets` | internal/nodeagent/server.go:252-261 | the in-place loop rewrites exactly the secret lines |
| `Config.SanitizeSyncConf` | internal/awg/config.go:67-76 | the loop drops exactly the empty special-junk lines |
| `ConfigLaws.SecretLineIs` | internal/nodeagent/server.go:263-274 | secret lines are exactly the lines the parser reads as one of the three secret keys |
| `ConfigLaws.JunkLineIs` | internal/awg/config.go:78-93 | empty junk lines are exactly the pairs of I1 to I5 with nothing |
| `ConfigLaws.RedactIdempotent` | internal/nodeagent/server.go:252-261 | redacting twice is redacting once, for every text |
| `ConfigLaws.PreserveFromRedacted` | internal/awg/config.go:56-62 | preserving from a redacted config leaves the desired config unchanged, for all texts |
| `ConfigMeaning.RedactKeepsTheRest` | internal/nodeagent/server.go:252-274 | after redacting every parsed secret is hidden, and port, peers and all their other fields parse the same |
| `ConfigMeaning.SanitizeKeepsMeaning` | internal/awg/config.go:67-93 | sanitising changes nothing of the parse, for every text |
| `ConfigMeaning.SanitizeIdempotent` | internal/awg/config.go:67-76 | sanitising twice is sanitising once |
| `ConfigMeaning.RedactSanitizeCommute` | internal/nodeagent/server.go:252-261 | redacting and sanitising commute, for every text |
| `KeyPreservation.KeySurvivesIff` | internal/awg/config.go:35-62 | every config in which no key is found takes over the current one exactly when it goes in front or below an exactly spelled, terminated header and no later line assigns another, or an unread insertion leaves that very key |
| `KeyPreservation.KeylessSurvivesIff` | internal/awg/config.go:35-62 | a config that assigns no key takes over the current one exactly when its first header is spelled exactly and terminated, or absent |
| `Counterexamples.KeyLost` | internal/awg/config.go:35-51 | two configs that lose any key: an unterminated header, and one spelled in another case |
| `KeyPreservation.OnlyTheKeyChanges` | internal/awg/config.go:35-51 | below such a header the inserted key is the only change to the parse |
| `KeyPreservation.SanitizePreserveCommute` | internal/awg/config.go:56-76 | preserving before or after sanitising gives the same text, for all texts |
| `KeyPreservation.InterfaceValueFits` | internal/awg/config.go:7-31 | a value that is found is trimmed and on one line |
| `Printer.WriteServer` | internal/render/render.go:46-96 | the builder's text is the printed config of the key-sorted peers |
| `Printer.WriteProfile` | internal/render/render.go:168-202 | writes the settings of the profile's generation in order |
| `Printer.WriteSpecialJunk` | internal/render/render.go:218-223 | writes the setting unless it is empty and empties are left out |
| `Printer.WriteRange` | internal/render/render.go:204-209 | writes the range unless it is zero |
| `Printer.WritePeer` | internal/render/render.go:76-94 | appends one peer block with its comment and set fields |
| `Printer.Builder.Set` | internal/render/render.go:51-57 | appends one setting line to the current block |
| `RenderTheorems.ParseServer` | internal/render/render.go:46-96 | parsing the printed config gives back key, port and the key-sorted peers with all fields, for all well-formed peers and all names and texts that are invisible to the parser |
| `RenderTheorems.OrderDoesNotMatter` | internal/render/render.go:73-74 | peers with distinct keys print to the same text in any input order |
| `RenderTheorems.OrderedIsUnique` | internal/render/render.go:73-74 | distinct keys have one ordered arrangement |
| `RenderTheorems.ServerIsKeyless` | internal/render/render.go:46-58 | a config printed without a key assigns none and has its header where a key can go |
| `RenderTheorems.InsertIsPrint` | internal/awg/config.go:35-62 | inserting a key into a printed config changes only that key and means the same as printing with it |
| `ReadBack.PrintedSetting` | internal/awg/config.go:7-31 | searching a printed config for a key finds the first line of the value of its first setting, whatever peers and later texts hold |
| `ReadBack.HeadersReadBack` | internal/render/render.go:178-181 | the four headers of a valid profile can be searched for and parsed back from the printed config, whatever its texts and peers hold |
| `ReadBack.NumbersReadBack` | internal/render/render.go:169-177 | every numeric setting of a profile, S3 and S4 from V2 on, can be searched for and parsed back from the printed config, whatever its texts and peers hold |
| `RenderParse.SplitJoinedCSV` | internal/awg/fake.go:387-397 | splitting a joined list of plain items gives the items back |
| `RenderLines.ProfileUnread` | internal/render/render.go:168-202 | nothing of a profile is read by the parser |
| `Executor.ReplacePeers` | internal/awg/fake.go:117-138 | the loop yields exactly the configured peers, the last of equal keys, with the counters of the live ones |
| `Executor.FakeExecutor.SyncConf` | internal/awg/fake.go:85-140 | replaces this interface's key, port, text and peers by the config's, touches no other, and changes nothing on failure |
| `Executor.FakeExecutor.SetPeer` | internal/awg/fake.go:142-167 | sets one peer's fields and keeps its counters |
| `Executor.FakeExecutor.RemovePeer` | internal/awg/fake.go:169-186 | removes one peer; a missing interface is no error |
| `Executor.FakeExecutor.ShowDump` | internal/awg/fake.go:188-209 | shows the interface as it is, or why it cannot |
| `Executor.FakeExecutor.ShowConf` | internal/awg/fake.go:211-227 | shows the last applied text, or why it cannot |
| `Executor.FakeExecutor.InterfaceUp` | internal/awg/fake.go:229-248 | leaves a live interface alone and otherwise raises it from the file, its saved shape or blank |
| `Executor.FakeExecutor.InterfaceDown` | internal/awg/fake.go:250-261 | saves the interface's shape and takes it down |
| `KeyConservation.SyncConfHandler` | internal/nodeagent/server.go:132-156 | the agent syncs the body with the current key; a failure changes no interface |
| `KeyConservation.RemoteIsLocal` | internal/outbox/worker.go:199-211 | through the agent, what the worker sees adds nothing and the agent adds the key |
| `KeyConservation.LocalTwice` | internal/outbox/worker.go:232-241 | preserving in the worker and again in the agent is the same as preserving once |
| `KeyConservation.KeyKeptIff` | internal/nodeagent/server.go:143-150 | over every run of applies of configs that leave the key to the interface, peer changes, failures, downs and ups, its private and public key are kept throughout exactly when no apply goes through whose look at the current config had failed |
| `NodeConfigs.BuildEntries` | internal/outbox/worker.go:183-194 | the loop makes one entry per row that is not revoked |
| `NodeConfigs.ConfigIgnoresOrder` | internal/outbox/worker.go:183-198 | with different public keys the config does not depend on the order in which the rows were read |
| `AddrText.HostPrefixIsPlain` | internal/outbox/worker.go:191 | the text of an address with its prefix length is non-empty, trimmed, on one line and without a comma |
| `Snapshot.ApplyShowsSnapshot` | internal/outbox/worker.go:160-212 | whatever the interface shows, applying a node loads exactly its non-revoked peers, with their preshared keys and addresses, and leaves the interface its key |
| `Snapshot.SyncLoads` | internal/awg/fake.go:116-139 | whatever was live, a sync leaves exactly the peers of the config on the host |
| `Words.FieldsIff` | internal/domain/profile.go:342 | the words found are the only way to spell the text |
| `SpecialJunk.ValidateSpecialJunk` | internal/domain/profile.go:327-398 | the loop accepts exactly the texts that split into literals and at least one well-formed tag with at most 1280 fixed bytes in all |
| `SpecialJunk.AcceptedIff` | internal/domain/profile.go:332-398 | the grammar and the left-to-right reading accept the same texts |
| `SpecialJunk.TagSizeIff` | internal/domain/profile.go:348-387 | the switch finds the size of exactly the well-formed tags |
| `SpecialJunk.DecodeWritten` | internal/domain/profile.go:332-342 | a text can be cut into literals and tags in one way only |
| `SpecialJunk.SpoiltEarly` | internal/domain/profile.go:388-390 | the early cutoff refuses only what the final sum refuses |
| `Validation.Validate` | internal/domain/profile.go:158-325 | no error is reported exactly for profiles that meet every declared constraint |
| `Validation.CheckJunkSizes` | internal/domain/profile.go:184-195 | no error exactly when count and sizes are in bounds, ordered, and set when needed |
| `Validation.CheckTexts` | internal/domain/profile.go:203-220 | no error exactly when every text fits in bytes and is empty or accepted |
| `Validation.CheckHeaders` | internal/domain/profile.go:230-258 | no error exactly when all four headers fit uint32, are single for V1, and share no value |
| `Validation.CheckV31` | internal/domain/profile.go:260-310 | no error exactly when the V3.1 parameters are complete and ordered, or absent for other versions |
| `Validation.OverlapIff` | internal/domain/profile.go:423-425 | for ordered ranges the bounds test finds exactly the shared values |
| `Validation.HeadersClassify` | internal/domain/profile.go:252-258 | in a valid profile any value belongs to at most one header |
| `Validation.RangeRoundTrip` | internal/domain/profile.go:36-68 | a printed range parses back exactly when it is one number or an ordered range from a non-negative one |
| `Validation.HeadersSurvive` | internal/domain/profile.go:36-68 | the headers of a valid profile survive printing and parsing |
| `RateLimit.TokenBucket.Allow` | internal/ratelimit/ratelimit.go:45-66 | refills, takes a token if there is one, reports the wait otherwise, and leaves other keys alone |
| `RateLimit.AlwaysCovered` | internal/ratelimit/ratelimit.go:45-66 | for any calls and any clock readings tokens stay in 0 to capacity, and what a key spent and has left is covered by its start and its refill |
| `RateLimit.RateBound` | internal/ratelimit/ratelimit.go:45-66 | calls allowed for a key never exceed capacity + rate * (latest - creation time) |
| `RateLimit.KeysIndependent` | internal/ratelimit/ratelimit.go:49-53 | a key's bucket and answers are those of its own calls alone |
| `RateLimit.WaitIsExact` | internal/ratelimit/ratelimit.go:63-65 | a refused key left alone is allowed again exactly from its latest time plus the reported wait |
| `Provisioning.AlwaysSound` | internal/bootstrap/provision_v31.go:112-174 | over every run of successes and failures the lock has one holder, host names stay unique, rows of the start stay, and every file has its rightful owner and contents |
| `Provisioning.ProvisionedApart` | internal/bootstrap/provision_v31.go:265-288 | from any database the schema allows, a provisioned node shares host name, interface name and port with no other node, and a new pool shares no address with any other |
| `Provisioning.StaysUnique` | internal/bootstrap/provision_v31.go:265-288 | if names, ports and networks did not clash at the start they never do |
| `Provisioning.QuietFiles` | internal/bootstrap/provision_v31.go:149-174 | whenever nobody is in the middle, new files are exactly those of committed nodes with their configs, and files found at the start are untouched |
| `Provisioning.DefaultNodeStays` | internal/repo/nodes.go:79-98 | while a legacy node exists provisioning never changes the default node |
| `Provisioning.CommitDisjoint` | internal/bootstrap/provision_v31.go:279-288 | after a commit whose network passed the query, pools that share an address were both there at the start |
| `Provisioning.CommitUnique` | internal/bootstrap/provision_v31.go:265-278 | after a commit that passed the queries, nodes that share a name or port were both there at the start |
| `Provisioning.LockStep` | internal/bootstrap/provision_v31.go:113-122 | the lock has one holder at a time, and what it found free stays free until it commits |
| `Provisioner.FileSystem.WriteExclusive` | internal/bootstrap/provision_v31.go:292-321 | an existing file is left alone and a failed write leaves nothing |
| `Provisioner.ProvisionNode` | internal/bootstrap/provision_v31.go:112-174 | rows and file together or neither, and exactly when success is possible |
| `Nodes.FirstIsUnique` | internal/repo/nodes.go:79-98 | with unique host names the order has one first node |

## Left out

- HTTP routing, handlers, middleware, the remote executor client, JWT, PEM and X25519: transport and library code.
- Client config rendering, ParseShowDump, profile row encoding, config loading, metrics and logging: easy members.
- Peer states `expired` and `rotating`, and `expires_at`: declared, but no code acts on them.
- The peer_runtime table and the handshake statistics a persist writes: they do not feed back into any decision here.
- ReconcileAll and the polling loop of Run: a worker without a job in the step system stands for a reconcile; the order of nodes is not modelled.
- Liveness: with one worker the oldest retryable job is claimed again and again, so "every job is attempted" is not claimed.
- Context cancellation and database connection errors: a call that stops early is a crash or an abort step, and a failure that could not be recorded is a step of its own, after which the operation is still reported failed.
- Provision, Snapshot and SimulateHandshake of the in-memory host: helpers of its tests.
- natHooks, endpointWithPort, option trimming and the default V3.1 profile's values: fixed shapes; `Provisioning.Acceptable` stands for the checks before the transaction.
- RunIfEmpty also inserts nodes and pools, outside the advisory lock; provisioning runs are those without it.
- A commit whose outcome the client cannot know counts as a crash, which the provisioning runs leave out.
- Floating point and nanosecond truncation in the token bucket: tokens and seconds are real numbers.
- Database.Store.AllocateAndInsert: requires a free address in pools with 31 or more host bits, because the step bound saturates there and the loop would not end otherwise; Database.FewRowsLeaveRoom shows it met below 2^31 - 3 stored peers.
- Ipam.Allocate: has the same requirement for 31 or more host bits.
- Writes.CreatePeer: has the same requirement, and so have Writes.InsertPeer and Ipam.Scan.
- RenderTheorems.ParseServer: asks for trimmed one-line keys and endpoints, addresses without commas, and names and profile texts of which every line but the first is one the parser does not read; the printer does not check them, and ManyLines and WipedKeys show what happens otherwise.
- RenderTheorems.ServerIsKeyless: asks for the same, and so does RenderTheorems.InsertIsPrint.
- Snapshot.ApplyShowsSnapshot: asks for the same of the rows and the profile; exactly such names and texts are invisible to the parser wherever they stand, but for this statement the condition is not proved necessary, since other lines can be harmless where they stand.
- Agreement.DesiredShows: carries the same condition.
- Agreement.RuntimeAgreement: carries the same condition on requests and profiles, and is about nodes that share their interface name with no other, which the schema does not enforce.
- Provisioning.QuietFiles: files are told apart by interface name and cleaned directory; spellings of one directory that filepath.Join makes equal are one directory here.
- Failures.MismatchIsRetried: keys are printed between quotes as they are, as %q does with base64 text; its escapes are not modelled.
- Failures.IsRetryable: errors of the database driver are not modelled; errors.Is is modelled by a cause that wrapping keeps.
- Printer.WriteServer: sort.Slice is taken to sort; the order of peers with equal keys, which it leaves open, is the input order here.
- Strings.EqualFold and Lower fold the letters the program's own ASCII words can match, not all of Unicode.
