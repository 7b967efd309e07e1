# Model Hub control plane: a verified model

Model Hub's control plane keeps three shared tables (`nodes`, `devices`,
`pairing_codes`) and a nonce cache. Operators mint pairing codes, machines redeem
them to enroll, enrolled nodes authenticate with a signed header and then stream
hello, inventory and sample messages, and a sweeper marks silent nodes degraded
and offline. Any number of these calls run at once.

The project models this as one state machine. `Fleet` holds the state and the
events; `Enrollment`, `NodeAuth` and `System` give one function per SQL or Redis
statement; `System.Run` folds any sequence of events over a state. An event whose
moment has not come changes nothing, so a theorem about every event sequence is a
theorem about every interleaving of every number of callers. `ControlPlane.Server`
runs the same operations as the source writes them, as methods with loops on
mutable tables, with contracts that say what each call means. `Refinement` shows
that minting, authenticating, a whole connection and a sweep are runs of the
machine, and `CodeLife` shows it of redeeming and enrolling. The agent's side
(discovery, sampling, the messages it sends, its key store) is in `Agent` and
`Identity`, how its silence reads at the server in `Presence`, and the memory
budget in `Memory`.

Settings and calls into libraries are parameters (`Fleet.Env`, `Identity.Codec`):
the HMAC, upper-casing of non-ASCII characters, Ed25519 parsing and verification,
numerals other than plain decimals, base64. Nothing is assumed about signatures, and
of the HMAC only that different texts have different hashes, by the theorems that
name `Pairing.Injective`. Random choices (codes, row ids, nonces, keys) and clock
readings are inputs of the steps, and every theorem holds for all of them; so is the
database's collation, of which only a total order is assumed. Row level security is
a filter on the tenant id in each tenant statement.

## Main results

- Codes marked used are exactly nodes enrolled, calls still holding one, and
  redemptions lost; no code is ever redeemed twice; a code nobody redeemed and
  nobody is working on is free, if and only if no process died holding it.
- A code is unknown exactly when nobody minted it under any spelling, and whoever
  redeems one typed a code its tenant had minted.
- At the end of a sweep every status is what the node's silence deserves, if and
  only if no heartbeat landed between the sweep's two statements with a stamp
  already six intervals old. No status ever accuses a node that was recently seen.
- A connected agent is online after a sweep if and only if it was seen, or one of
  its devices answered a tick, within three intervals; an open stream is not enough.
- A verified call is accepted if and only if every earlier acceptance of its nonce
  is more than twice the window past. So one header is accepted at most once, unless
  the second call's nonce is recorded late by more than a stated amount; one
  millisecond beyond that amount is enough.
- Removing all other tenants' stream messages from a run changes nothing a tenant
  can read.
- Whatever part of an agent's messages has arrived, past its inventory, its node has
  one row per device of known kind that its probes found, carrying that device's
  latest successful sample, through every interleaving with the rest of the control
  plane.
- However its key stores fail, an agent uses at most two keys, and one unless it
  enrolls again while the first is locked away.

## Where the code falls short of its comments

- `agent/internal/transport/proto.go` says a missing pressure must not read as
  "normal"; `recordSamples` stores exactly that (`Stream.PressureTravels`).
- `LoadOrCreate` promises the stored key, but while the key sits in a keychain that
  cannot be read it makes a second one (`Identity.SecondKeyExactlyWhenLocked`).
- "Twice the skew window covers any header that could still pass": in every run a
  verified call is accepted exactly when every earlier acceptance of its nonce was
  recorded more than twice the window before (`Replay.RecordAcceptsExactly`), and a
  call that dawdles between its window check and its record can come that late
  (`Replay.ReplayNeedsDelay`, with a run in `Replay.ReplaySucceedsWithDelay`).
- Releasing an expired claim takes a second statement. An unredeemed code nobody is
  working on is free exactly when no process died between claiming it and settling it
  (`CodeLife.UntouchedCodesAreFreeUnlessStranded`); otherwise it stays used for good
  (`CodeLife.StrandedForGood`, with a run in `CodeLife.CrashStrandsCode`).
- A sweep's two statements classify every silence, except exactly when a heartbeat
  stamped over six intervals earlier lands between them (`Liveness.SweepEndsExact`,
  with a run in `Liveness.StaleBeatMisleads`).
- `recordSamples` counts an empty batch as a heartbeat (`Presence.EmptyBatchIsABeat`),
  but the agent never sends one: while none of its devices can be sampled it is swept
  like a dead node, its stream still open (`Presence.MuteAgentDropsOff`).

## Model

| member | source | states |
|---|---|---|
| Redemption.EnrollmentConservation | apps/control-plane/src/domain/nodes.ts:40-61 | in every run, codes marked used = nodes + live calls holding a code + redemptions whose insert failed or whose process died |
| Redemption.NodesAreBacked | apps/control-plane/src/domain/nodes.ts:44-61 | in every run each node was made by a call holding a used code of the node's own tenant, has that call's key and the first name given (asked, minted, hostname, "node"), and no two nodes share a code or a public key |
| Redemption.AtMostOneRedemption | apps/control-plane/src/domain/pairing.ts:40-65 | a call that redeemed a code at any time and a call that redeemed it at that or any later time are the same call |
| Redemption.AdvanceKeepsAccounted | apps/control-plane/src/domain/pairing.ts:45-65 | every statement of an enroll call keeps: used codes have exactly one holder, holders carry the stored row and tenant, nodes have exactly one maker, keys are unique |
| Redemption.RunKeepsAccounted | apps/control-plane/src/domain/nodes.ts:29-66 | the same over every run, with heartbeats, sweeps, mints and authentications interleaved |
| Redemption.InsertAnswers | apps/control-plane/src/domain/nodes.ts:44-60 | an insert after any interleaving ends enrolled, refused for its key, or failed for its id, exactly as the table then says, and stores the host facts it came with |
| CodeLife.UntouchedCodesAreFreeUnlessStranded | apps/control-plane/src/domain/pairing.ts:45-65 | in every run, a code nobody redeemed and no live call is holding is unclaimed if and only if no call died between claiming it and releasing or redeeming it |
| CodeLife.UntouchedCodesAreUnused | apps/control-plane/src/domain/pairing.ts:58-62 | so in every crash-free run such a code is unclaimed |
| CodeLife.StrandedForGood | apps/control-plane/src/domain/pairing.ts:45-62 | a code whose holder died is used, and still stranded, in every later state |
| CodeLife.MintedCodesNeverStick | apps/control-plane/src/domain/pairing.ts:29-65 | through every run, a minted code that nobody redeemed, nobody holds and nobody died holding, retyped in any ASCII case and punctuation, is redeemed for the minted tenant and name up to its expiry; after it every sequential retry reports expired and changes nothing |
| CodeLife.MintedRow | apps/control-plane/src/domain/pairing.ts:29-38 | a minted row keeps tenant, name, creator and expiry (mint time plus the lifetime) through any later run |
| CodeLife.RedemptionStepsRedeem | apps/control-plane/src/domain/pairing.ts:45-65 | claim, diagnose, expiry check and release, run without interruption, give exactly the result and table of the one-step redemption |
| CodeLife.EnrollmentStepsEnroll | apps/control-plane/src/domain/nodes.ts:29-66 | the whole call, run without interruption, leaves the tables and the outcome that `EnrollAlone` states, error cases included |
| CodeLife.CrashStrandsCode | apps/control-plane/src/domain/pairing.ts:58-62 | a run that does it: mint, start, claim, crash leaves a never-redeemed code nobody is working on stranded |
| CodeLife.RedeemersTypedAMintedCode | apps/control-plane/src/domain/pairing.ts:26-56 | in every run, with an injective HMAC: a call that redeemed a code typed one with the normal form of some minted code, and a node enrolled with it belongs to the tenant that minted it |
| CodeLife.UnknownExactlyWhenNeverMinted | apps/control-plane/src/domain/pairing.ts:45-56 | in every run, with an injective HMAC: a code is answered "unknown" exactly when no code of its normal form was ever minted |
| Pairing.VariantsShareNormalForm | apps/control-plane/src/domain/pairing.ts:16-19 | any sequence of case swaps and added or dropped ASCII punctuation keeps the normal form |
| Pairing.CanonicalIsNormal | apps/control-plane/src/domain/pairing.ts:17-19 | capital letters and digits are their own normal form, so different canonical codes stay different |
| Pairing.NormalizeEach | apps/control-plane/src/domain/pairing.ts:17-19 | what each character leaves of a code: an ASCII letter its capital, a digit itself, other ASCII nothing, any other character the capitals and digits of its upper case |
| Pairing.SameCodeExactly | apps/control-plane/src/domain/pairing.ts:17-27 | with an injective HMAC, two texts have one hash exactly when they have one normal form |
| Pairing.GeneratedCodes | apps/control-plane/src/domain/pairing.ts:8-14 | a generated code normalizes to its eight picks, and different picks never share a normal form |
| Pairing.GeneratedCodeAt | apps/control-plane/src/domain/pairing.ts:8-14 | a generated code is two groups of four picks from the alphabet with a dash between |
| Pairing.ExpiredStaysExpired | apps/control-plane/src/domain/pairing.ts:58-62 | every retry of an unused code past its expiry reports expired and leaves the table as it was |
| Pairing.OneWinner | apps/control-plane/src/domain/pairing.ts:45-56 | of any attempts on an unused code, the first if in time wins and all others are told it is used |
| ControlPlane.Server.MintPairingCode | apps/control-plane/src/domain/pairing.ts:29-38 | succeeds exactly when the hash is free; then every retyping of the code is redeemed for this tenant and name up to one lifetime from now and is expired after, the row names its creator, and no other row changes |
| ControlPlane.Server.RedeemPairingCode | apps/control-plane/src/domain/pairing.ts:45-65 | unknown, already used, expired or redeemed exactly as the row is absent, used, past its expiry or in time; only a redemption changes the table, marking the row used now; and it is what `Pairing.Redeem` gives |
| ControlPlane.Server.EnrollNode | apps/control-plane/src/domain/nodes.ts:29-66 | accepted exactly with a 32-byte key no node has, a code that is there, unused and in time, and a new id; each other case gets its own error in that order; the new row's columns, the code spent, and nothing else changed; a success also returns the organization's name, or nothing if it has none |
| ControlPlane.EnrollmentAnswers | apps/control-plane/src/domain/nodes.ts:29-66 | the same of `EnrollAlone`, which the steps of the state machine come to |
| Liveness.SweepEndsExact | apps/control-plane/src/jobs/offline-sweeper.ts:15-23 | after any run and with anything but another sweep's statement in between, a node's status at the sweep's end is the classification of its silence if and only if its last heartbeat between the two statements was not over six intervals old; when it is not, it reads degraded in place of offline |
| Liveness.StaleBeatMisleads | apps/control-plane/src/jobs/offline-sweeper.ts:15-23 | from every reachable state with an open stream, such a heartbeat can land in a lone sweep and leave the node degraded where its silence deserves offline |
| Liveness.PromptBeatsKeepSweepsExact | apps/control-plane/src/jobs/offline-sweeper.ts:15-23 | with heartbeats stamped no earlier than six intervals before the sweep's instant, every node is exact |
| Liveness.NoFalseAlarms | apps/control-plane/src/jobs/offline-sweeper.ts:5-20 | in every run, overlapping sweeps included: never-seen nodes are offline, a seen offline node has been silent over six intervals, a degraded one over three, and a node seen within three is online |
| Liveness.SilenceIsNoticed | apps/control-plane/src/jobs/offline-sweeper.ts:7-30 | with sweeps at most a gap apart, a silent node is no longer online after a sweep at most three intervals and a gap after it was last seen |
| Liveness.SilenceGoesOffline | apps/control-plane/src/jobs/offline-sweeper.ts:7-30 | and offline after one at most six intervals and a gap after |
| Liveness.StretchBeats | apps/control-plane/src/domain/nodes.ts:69-74 | between sweep statements, status and last-seen are those of the last heartbeat, or unchanged, or those of a newly enrolled node |
| ControlPlane.Server.SweepOfflineNodes | apps/control-plane/src/jobs/offline-sweeper.ts:7-23 | every row keeps all but its status, which becomes offline past six intervals of silence and degraded past three if it was online; the returned count is the number of rows that changed |
| Replay.HeaderAcceptedOnce | apps/control-plane/src/rpc/node-auth.ts:75-78 | in every run, two accepted calls with one header whose check and record fell at one instant are the same call |
| Replay.HeaderAcceptedOnceWithin | apps/control-plane/src/rpc/node-auth.ts:46-50 | the same with delays up to D, for a header first recorded no earlier than its timestamp minus the skew plus D |
| Replay.ReplayNeedsDelay | apps/control-plane/src/rpc/node-auth.ts:75-78 | a second acceptance needs a delay greater than how far into the window the first one was recorded |
| Replay.RecordAcceptsExactly | apps/control-plane/src/rpc/node-auth.ts:73-78 | in every run, a verified call that records its nonce opens its stream if and only if every call accepted under that nonce so far recorded it more than twice the window ago, and is told "replayed" otherwise |
| Replay.SecondTryExact | apps/control-plane/src/rpc/node-auth.ts:46-78 | from every reachable state: when a verified call records and is accepted, and a second call with its header comes next with nothing in between, checked in the window, that one is accepted exactly when it records more than twice the window later |
| Replay.ReplaySucceedsWithDelay | apps/control-plane/src/rpc/node-auth.ts:46-78 | from every reachable state with a verified call in its window and an unused nonce, two calls with one header are both accepted when the second dawdles one millisecond more than that |
| Replay.StreamsAreSigned | apps/control-plane/src/rpc/node-auth.ts:36-81 | every open stream's header text, as received, is signed by the key stored for its node, was checked in its window, and carries that node's tenant |
| Replay.FreshHeaderAccepted | agent/internal/transport/client.go:57-63 | a header the agent builds for a stored node, its id spelled in either case, checked in its window under an unused nonce, opens a stream for that node and tenant |
| Replay.HeaderReadsBack | agent/internal/transport/client.go:57-63 | for every dot-free nonempty node id, nonce and signature: the header is the scheme and the four dotted fields, it splits into them, its timestamp is a plain decimal that reads back as the number, the signed text is the text checked, and parsing succeeds exactly when the id is hexadecimal in groups of 8, 4, 4, 4 and 12 |
| Replay.NumbersAreDecimal | apps/control-plane/src/rpc/node-auth.ts:46-47 | every run of digits is read as its decimal value, and a minus sign negates it |
| NodeAuth.UuidsAreGrouped | packages/db/src/client.ts:39-48 | a text is accepted as a node id exactly when it is hexadecimal, in either case, in groups of 8, 4, 4, 4 and 12 with hyphens between |
| NodeAuth.WellFormedIdsSpell | apps/control-plane/src/rpc/node-auth.ts:52-55 | a well-formed id names exactly the stored id that is the same text in small letters |
| Replay.SignedTextIsAsReceived | apps/control-plane/src/rpc/node-auth.ts:39-69 | any header that parses is the scheme, the rejoined first three fields, a dot and the signature |
| Replay.JoinSplit | apps/control-plane/src/rpc/node-auth.ts:39-40 | joining the split fields gives back the text |
| Replay.FieldsAreDotFree | apps/control-plane/src/rpc/node-auth.ts:39-40 | no field has a dot in it, so with the above the text is cut at every dot and nowhere else |
| ControlPlane.Server.AuthenticateNode | apps/control-plane/src/rpc/node-auth.ts:36-81 | the first of nine checks that fails is the error given and nothing is spent; when none fails, the answer is the node and its tenant and that nonce alone is spent for twice the window |
| ControlPlane.Server.Connect | apps/control-plane/src/rpc/node-service.ts:32-55 | authenticates as above before anything else; a refused caller changes no table and gets no acknowledgement; an accepted one is acknowledged with the id as it sent it and the sample interval, and its messages are applied in order up to the first one refused |
| Refinement.ServingIsARun | apps/control-plane/src/rpc/node-service.ts:39-54 | on an open stream of a reachable state no message is refused, and the loop leaves the tables its steps leave, with any waits between messages and each stamped by the time it is written |
| Refinement.SomeWaitsAreInTime | apps/control-plane/src/domain/nodes.ts:69-74 | for all arrivals there are waits under which each is stamped by the time it is written |
| Refinement.AuthenticatingIsARun | apps/control-plane/src/rpc/node-auth.ts:36-81 | check, verify, wait and record run alone settle the call and change no table, and the contract of authentication holds of exactly the answer and nonces they leave |
| Refinement.ConnectingIsARun | apps/control-plane/src/rpc/node-service.ts:32-55 | a connection from its header to its last message, with any waits between them, is a run of those steps and its deliveries, with the answer, nonces and tables that connecting promises |
| Refinement.MintingIsARun | apps/control-plane/src/domain/pairing.ts:29-38 | the contract of minting holds of exactly the table the mint step leaves |
| Refinement.SweepingIsARun | apps/control-plane/src/jobs/offline-sweeper.ts:15-23 | the three steps of a lone sweep leave the rows the method leaves |
| DeviceTables.InventoryMeaning | apps/control-plane/src/domain/nodes.ts:84-108 | for any report, repeats and unknown kinds included: visible rows are the ids reported with a known kind, each with the columns of its last such report; survivors keep id, samples and interactive flag; new rows are the tenant's own, not interactive and never sampled; other nodes' and other tenants' rows are untouched |
| DeviceTables.InventoryRefused | apps/control-plane/src/domain/nodes.ts:92-107 | a report is refused exactly when it lists a device of known kind and there is no such node, or the device's row is another tenant's |
| DeviceTables.InventoryIdempotent | apps/control-plane/src/domain/nodes.ts:92-107 | the same report again changes nothing, whatever row ids were ready |
| DeviceTables.SamplesMeaning | apps/control-plane/src/domain/nodes.ts:118-132 | a batch adds and removes no device and changes only sample columns, to those of the device's last sample in the batch, an unknown pressure counting as normal |
| DeviceTables.SamplesAndInventoryCommute | apps/control-plane/src/domain/nodes.ts:92-134 | a batch and a report in either order give the same row for a device present before and reported |
| ControlPlane.Server.StoreInventory | apps/control-plane/src/domain/nodes.ts:84-108 | the upsert loop and the delete compute `RecordInventory`; a refused statement rolls the table back |
| ControlPlane.Server.StoreSamples | apps/control-plane/src/domain/nodes.ts:118-135 | the update loop computes `WithSamples`; even an empty batch puts the tenant's own node online as of now, and changes nothing else of it |
| ControlPlane.Server.MarkOnline | apps/control-plane/src/domain/nodes.ts:69-74 | the tenant's own node gets the host facts, is online and last seen now, keeps its name, tenant and key; no other row changes; and any later sweep gives it the class of the silence since then, whatever its status was |
| Tenancy.TenantsDoNotInterfere | apps/control-plane/src/rpc/fleet-service.ts:27-48 | erasing all messages of other tenants' streams from a run leaves `listNodes` and `getNode` of a tenant the same, the orders of nodes and devices included |
| Tenancy.RunKeepsOwned | packages/db/src/client.ts:23-32 | in every run an open stream's tenant is its node's, and a device's tenant is its node's |
| Tenancy.StreamsNeverFail | apps/control-plane/src/domain/nodes.ts:92-107 | in every run, no report on an open stream violates row security or the node reference |
| Tenancy.ViewsAreTotal | apps/control-plane/src/rpc/fleet-service.ts:27-48 | in every run reads never break: the list is exactly the tenant's nodes with all their devices as stored, each node once and sorted by name, its devices in the one order of their local ids; and a single node is found exactly when its id is well formed and it is the tenant's own |
| Tenancy.DevicesAreShown | apps/control-plane/src/domain/wire.ts:39-63 | in every run every stored device has a budget, and it is given in the row's own columns: foreign memory, headroom and availability for each kind in bytes and percentages, with the wired limit, pressure and interactive flag; kind and pressure survive the trip to the wire |
| Tenancy.HelloIsVisible | apps/control-plane/src/domain/nodes.ts:69-74 | after a hello its tenant reads the node as online, last seen at the stamp, with the new host facts and its old name |
| Stream.StreamMeaning | agent/internal/transport/session.go:75-136 | in every run, when the messages a node has got are a first part, past the inventory, of what its agent's connection sends: they are those of some number of ticks, and the node has one row per device of known kind its probes found, with its facts, its old id and flag, and its latest successful sample in those ticks or the earlier value |
| Stream.StretchSamples | apps/control-plane/src/domain/nodes.ts:118-132 | over any stretch of a run whose messages to a node are batches, its rows change only in sample columns, to the latest |
| Stream.BatchesLatest | agent/internal/inventory/inventory.go:101-113 | the latest sample of a device on the wire is its latest successful sample at its owner probe |
| Stream.ReportedFacts | agent/internal/transport/proto.go:23-38 | in an inventory without repeats exactly the devices of known kind are stored, each with its own facts |
| Stream.PressureTravels | agent/internal/transport/proto.go:57-70 | the stored pressure is the agent's when it is one of the three, and normal otherwise |
| Presence.OnlineExactlyWhileAnswering | agent/internal/transport/session.go:115-136 | in every run, at the end of a sweep an agent whose messages are its batches is online if and only if, within three intervals of the sweep, it was last seen before its ticks or some device answered a tick; those messages are the agent's batches as the stream theorem counts them |
| Presence.AnsweringIsOnline | apps/control-plane/src/domain/nodes.ts:133-134 | in every reachable state an agent one of whose devices answered within three intervals is online |
| Presence.MuteAgentDropsOff | agent/internal/transport/session.go:122-125 | in every run, an agent none of whose devices can be sampled has at the end of a sweep exactly the status of its silence since its hello, with its stream open |
| Presence.EmptyBatchIsABeat | apps/control-plane/src/domain/nodes.ts:110-135 | an empty batch on an open stream makes its node online, seen at the stamp |
| Presence.LastReceivedIsLastSeen | apps/control-plane/src/domain/nodes.ts:118-135 | over any run, sweeps included, a node is last seen at the stamp of the last batch received from it, or as before |
| Presence.HostIsLastHello | apps/control-plane/src/domain/nodes.ts:69-74 | over any run a node's host facts are those of the last hello it got, or as before; samples, sweeps and enrollments leave them alone |
| Agent.Collect | agent/internal/inventory/inventory.go:81-97 | succeeds exactly when every probe does and no id repeats; then lists every device in order under the probe that found it; otherwise names the first probe that failed, or the first probe that brought a repeat and an id found twice by then |
| Agent.SampleAll | agent/internal/inventory/inventory.go:101-113 | the answers of exactly the devices that could be sampled, each once, in device order |
| Agent.DevicesProto | agent/internal/transport/proto.go:23-38 | the filled slice carries each device column by column, an unknown kind as 0 and the index modulo 2^32 |
| Agent.SamplesProto | agent/internal/transport/proto.go:40-55 | the filled slice carries each sample column by column, temperature and power included, an unknown pressure as 0 |
| Agent.ConnectOnce | agent/internal/transport/session.go:64-138 | nothing without host facts; only a hello if that alone gets out, it is not acknowledged, or discovery fails; otherwise as many sends as succeed of hello, inventory, then one batch per tick that has samples |
| Identity.IdentityIsStable | agent/internal/config/identity.go:56-111 | with one key stored, any run of loads and re-enrollments that do not mint returns that key on every success, never reports a missing identity, and rewrites nothing |
| Identity.FirstKeyStays | agent/internal/config/identity.go:75-111 | after the first successful creation on an empty store this holds for all loads, and for re-enrollments too when the key is in the file |
| Identity.AtMostTwoKeys | agent/internal/config/identity.go:56-111 | from an empty store, along any run of loads and enrollments with backends failing at will, every success returned the key in the keychain at the end or the key in the file |
| Identity.PlacesAreWrittenOnce | agent/internal/config/identity.go:90-111 | along any such run each place is written at most once, and nothing is written once there is a file |
| Identity.SecondKeyExactlyWhenLocked | agent/internal/config/identity.go:75-111 | re-enrolling returns a new key exactly when the keychain holds the key, cannot be read, there is no file, and a new one can be made and written |
| Identity.LockedReenrollmentSplitsIdentity | agent/internal/config/identity.go:56-70 | after that, which key a load returns depends on the keychain being readable |
| Identity.DeleteForgets | agent/internal/config/identity.go:116-125 | deleting is idempotent, clears the file even when the keychain fails, and leaves nothing to load when both work |
| Identity.LoadAnswers | agent/internal/config/identity.go:56-70 | each answer of a load and exactly what brings it: a readable keychain entry decides, else the file; "no identity" only when both were looked into and empty; every other failure under an unreadable keychain is put down to it |
| Identity.CreateAnswers | agent/internal/config/identity.go:75-111 | a key is made exactly when no entry is to be had and there plainly is no file, and goes to the keychain if that can be read and written, else to the file; otherwise the answer is that of a load |
| Identity.DeleteAnswers | agent/internal/config/identity.go:116-125 | what can be cleared is, and exactly what cannot is reported |
| Identity.KeyStore.LoadKey | agent/internal/config/identity.go:56-70 | returns what `Load` states: keychain, else file, never "no identity" for an unreadable keychain |
| Identity.KeyStore.LoadOrCreateKey | agent/internal/config/identity.go:75-86 | result and store are those of `LoadOrCreate` |
| Identity.KeyStore.LoadOrCreateFallback | agent/internal/config/identity.go:90-111 | an existing file wins; otherwise a new key goes to the keychain, or to the file when that fails |
| Identity.KeyStore.DeleteKey | agent/internal/config/identity.go:116-125 | each backend cleared on its own, each failure reported |
| Memory.AvailableClosedForm | packages/core/src/memory.ts:50-98 | with both foreign clamps, available is the clamped ceiling less headroom less the larger of used and managed |
| Memory.AvailableByKind | packages/core/src/memory.ts:68-96 | the same in bytes and percentages for cuda, cpu and metal |
| Memory.BudgetByKind | packages/core/src/memory.ts:46-99 | every field of the budget of a known kind of device, whether or not anything is available, in bytes and percentages of its inputs |
| Memory.BudgetConservation | packages/core/src/memory.ts:95-98 | when anything is available, managed, foreign, headroom and available add up to a ceiling within the device |
| Memory.BudgetFieldsInRange | packages/core/src/memory.ts:50-98 | every field is nonnegative and availability and foreign memory fit in the device |
| Memory.BudgetFailsExactlyOnUnknownKind | packages/core/src/memory.ts:54-93 | the computation fails exactly for a kind other than cpu, cuda and metal on a device that has memory; without memory every field is zero |
| Memory.SequentialLoadsAreSafe | packages/core/src/memory.ts:52-96 | any number of admitted loads leave foreign memory alone, lower availability by exactly their sum, and never cross the ceiling |
| Memory.AvailableGrowsWithTotal | packages/core/src/memory.ts:68-96 | more memory never means less available, across floors and minimum reserves |
| Memory.AvailableShrinksWithUse | packages/core/src/memory.ts:50-96 | more used or managed memory never means more available |
| Memory.InteractiveNeverGains | packages/core/src/memory.ts:75-88 | an interactive device never has more available than the same one not interactive |
| Wire.NamesRoundTrip | apps/control-plane/src/domain/wire.ts:7-19 | the three kind and pressure names and their numbers map to each other and to nothing else |
| Wire.NamesAreShown | apps/control-plane/src/domain/wire.ts:53-60 | on any row the view gives the kind and pressure by number, an unknown kind as 0 and an unknown pressure as normal |

## Left out

- Cryptography and encodings (Ed25519, HMAC, base64, DER): parameters of the model.
- Double rounding of 0.08, 0.15, 0.30 and 0.75 in the budget: fractions are exact; byte counts are assumed below 2^53.
- Rounding of header timestamps beyond 2^53 by `Number`: plain decimals are read exactly.
- Column ranges and text restrictions of Postgres: numbers on the wire are assumed to fit their columns.
- Separate clocks: the application and Redis share one nondecreasing clock, and a Redis key is live through its expiry instant. Heartbeats may still carry a stamp older than their write.
- Interleaving inside one transaction: each stream message is applied atomically, and so is a mint.
- Tenancy.TenantsDoNotInterfere: mints, enrollments and authentications of other tenants stay in both runs, because public keys are unique across tenants and an enrollment elsewhere can decide one here.
- Presence.OnlineExactlyWhileAnswering: assumes one stream's messages are stamped in order, as one clock read in turn gives.
- Stream.StreamMeaning: assumes probes answer about the device they were asked about, as the probe conformance test requires.
- `hostColumns` defaults for a missing host; the interval at which the agent ticks: ticks are given with their instants.
- Presence.MuteAgentDropsOff: that the stream is still open holds by construction, because no event closes a stream; a stream that ends simply delivers nothing more.
- Sign-up, sessions and organizations; deletion cascades; crashes of calls other than enrollment.
- Hardware probes, host facts, reconnect backoff, the command line, the installer, the web app, server wiring.
