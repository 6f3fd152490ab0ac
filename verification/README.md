# StarForge verification model

A Dafny model of the parts of the StarForge CLI that hold state, scan text or fold evidence into a
verdict, with proofs of what they keep over every input and every run. Code that changes things step by
step is modelled by methods and classes, each proved against a specification function; what the sources
promise is then proved about those functions.

| files | what they model |
|---|---|
| `Transport`, `Prober`, `Probes`, `ProbeFields` | the capability probe: a fixed series of JSON-RPC 2.0 calls to an endpoint that may answer anything, depending on everything said before, and the evidence collected from the replies |
| `Domain`, `Verdicts`, `FindingRules`, `Builtin` | the capability matrix, the feature gate and the evaluator that folds the evidence into a level and findings |
| `Endpoint` | which endpoint URLs are accepted and what is shown of them |
| `Audit`, `AuditRules`, `JsonTree`, `FileTree` | the project audit: bounded file collection, walks over JSON fixtures, sorting and de-duplication of findings, the exit threshold |
| `Cache` | the evidence cache with its time to live, and the migration of its first schema |
| `TokenContract`, `VotingContract`, `NftContract`, `Sums` | the Soroban contracts that `starforge new` emits, as storage machines with checked arithmetic |
| `Upgrade`, `UpgradeRuns` | upgrade governance over a proposal file and a history file that are saved one after the other, with a crash possible in between |
| `TtlLint`, `WatSplit` | the lint's operator scan against nested WebAssembly bodies, and its two ways of cutting WebAssembly text into functions |
| `Wallets`, `WalletStore` | the wallet list, every command that changes it, and the keys each wallet has held |
| `PluginCapabilities` | capabilities and arguments on the command line of a plugin subprocess |
| `Json`, `Sorting`, `Strings`, `Wrappers` | JSON values, stable sorting, strings as the Rust sources use them |

SHA-256, key derivation, encryption, the character classes of Unicode and the parsing of JSON and TOML are
function parameters or inputs that arrive parsed. Clocks, the network, the faucet, the operator's answers
and failing writes are inputs of the commands they reach.

Where the code and its own words disagree, the model follows the code, and the condition under which both
agree is proved:

- The feature gate alone is not monotone (`Verdicts.GateImprovesIff`), although the verdict is; the shipped
  feature "contract_events" is an instance (`Builtin.EventsGateWorsens`).
- A comment in `src/commands/lint.rs` says that functions are identified by their index, but every import
  advances the index. The recorded set is the set of indices the code calls by, and the lint sees every
  read, exactly when every import with a matching name and every import before it is a function
  (`TtlLint.RecordedSetIsCallIndicesIff`, `TtlLint.ReadsSeenIff`); one memory import in front is enough to
  hide a read (`TtlLint.MemoryImportHidesRead`).
- The finding "storage reads inside a loop" is raised for reads in any block or `if`
  (`TtlLint.LoopFlagExactIff`, `TtlLint.BlockFlaggedAsLoop`).
- The fixer and the checks of the lint cut the same text differently when a function closes on its header
  line or never closes (`WatSplit.CutsAgreeIff`, `WatSplit.OneLineFunctionLost`,
  `WatSplit.OneLineFunctionsMerge`).
- The token template does not check the sign of an amount: balances stay non-negative over a run exactly
  when no call takes more from the account it credits than is there (`TokenContract.RunNeverNegativeIff`,
  with `NegativeMintExample` and `NegativeTransferExample`).
- A second `initialize` resets the supply of the token and NFT templates
  (`TokenContract.ReinitializationConservesIff`, `NftContract.ReinitializationCountsIff`, each with a
  `ReinitializationExample`).
- A probe without optional methods never asks for what the hard features require: with the shipped matrix
  and an empty discovery its verdict is Incompatible whatever the endpoint supports
  (`Builtin.CoreOnlyProbe`, `Probes.GateMissesWhatTheProbeMissedIff`).
- The audit can be milder than the verdict on its own endpoint (`Audit.AuditMilderThanVerdictIff`,
  `Audit.MilderAuditExample`).
- Approvals count public keys, not wallets: a wallet that rotates its key can approve twice
  (`UpgradeRuns.QuorumOfDistinctWalletsIff`, `UpgradeRuns.RotatedWalletApprovesTwice`).
- A prune by a clock that is ahead is visible to a later read (`Cache.ReadsAgreeIff`,
  `Cache.PruneAheadHidesEvidence`).
- Adopting an identity from the Stellar CLI replaces a wallet's key without archiving the old one
  (`Wallets.AdoptKeepsChainsIff`).
- A plugin started without arguments is given the separator `--` as its argument
  (`PluginCapabilities.CommandLineArrives`).

## Model

| member | source | states |
|---|---|---|
| Endpoint.DisplayIdempotent | src/compatibility/transport.rs:564-574 | redacting an endpoint twice shows what redacting it once shows, for every string |
| Endpoint.DisplayShowsSchemeAndHost | src/compatibility/transport.rs:564-574 | what is shown depends on scheme and host (with port) alone: user information, path, query and fragment leave no trace |
| Endpoint.AcceptedIffHostShown | src/compatibility/transport.rs:543-574 | an endpoint is accepted exactly when it is HTTP(S) with a non-empty host, and that host is then what is shown |
| Endpoint.SplitOnceIff | src/compatibility/transport.rs:564-574 | the scheme is split off exactly when "://" stands anywhere in the text, and at its first place |
| Endpoint.DisplayWithoutHost | src/compatibility/transport.rs:564-574 | a text without "://" is shown as invalid and an empty host as redacted, whatever user information and tail are |
| Transport.Connection.Send | src/compatibility/transport.rs:55-58 | the endpoint answers by any function of the whole exchange so far, every exchange is logged, and the log holds nothing but its answers |
| Transport.ReplyRules | src/compatibility/transport.rs:419-471 | which replies are usable, that an error outweighs a result, that only "method not found" denies a method, and which errors are worth a warning |
| Transport.ErrorRules | src/compatibility/transport.rs:419-471 | a method is denied by code -32601 or by a message that says "method not found" in any case of letters; a code that is no 64-bit integer counts as 0 |
| Transport.DiscoveredIff | src/compatibility/transport.rs:485-501 | a name is discovered exactly when the array under "methods", or else under "openrpc", or else under "schema", holds it as a string or as the "name" of an object |
| Transport.OpenRpcDiscovered | src/compatibility/transport.rs:485-501 | a document that lists methods as objects with a name is discovered whole, and nothing else is |
| Transport.ProbesAreHarmless | src/compatibility/transport.rs:473-483 | every optional question is a listing of one entry, asks for no key, or carries an invalid hash or envelope |
| Transport.ExtractLimits | src/compatibility/transport.rs:521-541 | the loop over the fields collects the limits of the specification and nothing from other values |
| Transport.LimitsKeepLast | src/compatibility/transport.rs:521-541 | the limits are exactly the numeric fields whose name speaks of one, each with its last value |
| Transport.IsLimitIff | src/compatibility/transport.rs:521-541 | a name speaks of a limit by "limit" or "retention" anywhere or "max" in front, in any case of letters |
| Transport.RetentionCounts | src/compatibility/transport.rs:277-291 | the derived window is the number of ledgers from oldest to newest, one when they are in the wrong order, and unknown without both |
| Transport.EvidenceDraft.RecordSupport | src/compatibility/transport.rs:364-378 | a reply moves its method into one set and out of the other and appends its warning |
| Prober.EndpointProber.RpcCall | src/compatibility/transport.rs:350-362 | one request is sent, the logged response is what the endpoint answers at that point, and the result is the parsed reply to it |
| Prober.EndpointProber.Ask | src/compatibility/transport.rs:350-378 | a call recorded in the draft keeps the draft in step with all answers so far |
| Prober.EndpointProber.Discover | src/compatibility/transport.rs:223-244 | discovery sets supported, missing and vendor methods as its reply and the matrix say; what a reply lists is pinned by `Transport.DiscoveredIff` |
| Prober.EndpointProber.AskNetwork | src/compatibility/transport.rs:246-252 | getNetwork sets network identity and protocol version |
| Prober.EndpointProber.AskLatest | src/compatibility/transport.rs:254-263 | getLatestLedger sets the ledger and overrides the protocol version only if it has one |
| Prober.EndpointProber.AskHealth | src/compatibility/transport.rs:265-293 | getHealth sets oldest and latest ledger, the reported or derived retention window, and limits |
| Prober.EndpointProber.AskVersion | src/compatibility/transport.rs:295-303 | getVersionInfo sets the version and adds limits |
| Prober.EndpointProber.SortOptional | src/compatibility/transport.rs:316-325 | when discovery listed something, the other known methods are sorted by that list and nothing is asked |
| Prober.EndpointProber.AskOptional | src/compatibility/transport.rs:316-333 | when discovery listed nothing, every other known method is asked in order, up to the first failure |
| Prober.EndpointProber.ProbeHorizon | src/compatibility/transport.rs:336-345 | the Horizon call adds evidence or exactly one warning, and never fails the probe |
| Prober.EndpointProber.ProbeAt | src/compatibility/transport.rs:209-348 | for every endpoint behaviour: the recorded replies are the endpoint's answers, call by call; and either the probe stops at the first failing call, having sent a prefix of the plan, or the calls are exactly the planned ones and the evidence is the classification of their replies with the fields they carry |
| Probes.PlanDistinct | src/compatibility/transport.rs:223-334 | a probe asks no method twice and uses no request identifier twice |
| Probes.CoreOnTheWire | src/compatibility/transport.rs:223-334 | what is sent, by its names on the wire: five core calls with identifiers 1 to 5 and no parameters, then known methods with identifiers from 100 on |
| Probes.AskedByDirectReply | src/compatibility/transport.rs:223-334 | every method that was asked, optional ones included, is classified by the reply to its own question |
| Probes.UnaskedByDiscovery | src/compatibility/transport.rs:305-325 | a known method that was not asked is supported exactly when discovery lists it |
| Probes.CoreByDirectReply | src/compatibility/transport.rs:223-303 | every core method is classified by its own reply, whatever discovery listed |
| Probes.AskedIff | src/compatibility/transport.rs:305-334 | a method has a direct answer exactly when it is a core method, or optional probing met an empty discovery and the method is known |
| Probes.ProbeDisjoint | src/compatibility/transport.rs:223-378 | supported and missing methods are disjoint; vendor extensions are exactly the discovered methods outside the matrix |
| Probes.ProbeCovers | src/compatibility/transport.rs:305-334 | supported and missing together are exactly the methods the probe decides about: with optional probing, the known and core methods; without it, the core methods and the known ones discovery lists |
| Probes.NotFoundIsIncompatible | src/compatibility/domain.rs:643-658 | "method not found" for a required core method always ends in Incompatible with a finding that names it, even if discovery lists the method |
| Probes.DenyingEndpointIsIncompatible | src/compatibility/transport.rs:209-348 | an endpoint that answers "method not found" to a required core method, whatever was said before, ends up Incompatible in every successful probe |
| Probes.WarningsReported | src/compatibility/transport.rs:346-347 | every warning of a reply is reported, reports ascend without repetition, and any of them rules out Compatible |
| Probes.WarningsExplained | src/compatibility/transport.rs:336-347 | every reported warning is one of a reply, or the one of a Horizon call that gave no evidence |
| Probes.NoRetentionIffReported | src/compatibility/transport.rs:277-291 | the retention window is zero exactly when the endpoint itself says so: a derived one never is |
| ProbeFields.LedgerFields | src/compatibility/transport.rs:254-276 | the newest ledger is the health reply's, or else that of getLatestLedger, each by the first of its names that holds a number |
| ProbeFields.ProtocolFields | src/compatibility/transport.rs:246-263 | the protocol is that of getLatestLedger or else of getNetwork, and a number beyond 32 bits is none |
| ProbeFields.RetentionFields | src/compatibility/transport.rs:277-291 | the window is the reported one or else, with a health reply, the derived one |
| ProbeFields.TextFields | src/compatibility/transport.rs:246-303 | the network identity is the digest of the passphrase found, and which texts count as a version |
| ProbeFields.LimitFields | src/compatibility/transport.rs:292-303 | limits come from health and version reply, and the version reply decides where both have one |
| ProbeFields.HorizonFields | src/compatibility/transport.rs:380-417 | what is read from a Horizon root, and that any object is accepted as one |
| Json.GetIff | src/compatibility/transport.rs:503-519 | a field is the last one of its name in an object |
| Json.U64FieldIff | src/compatibility/transport.rs:509-515 | the first of the names whose field holds a 64-bit number, or a text that reads as one, decides |
| Json.StringFieldIff | src/compatibility/transport.rs:503-507 | the first of the names whose field is a string decides |
| Strings.ParseU64Iff | src/compatibility/transport.rs:509-515 | what reads as a number: an optional plus sign, any zeros, and its decimal digits, within 64 bits |
| Probes.GateMissesWhatTheProbeMissedIff | src/compatibility/domain.rs:786-835 | what a feature gate finds missing is what the probe found missing exactly when the probe decided about every method of the feature: with optional probing always, without it when the methods are core or discovered |
| Probes.UnaskedHardFeature | src/compatibility/domain.rs:786-835 | a probe without optional methods that neither asks for nor discovers a method of a hard feature is Incompatible, whatever the endpoint supports |
| Domain.GateFeature | src/compatibility/domain.rs:786-835 | the gate's loops and reassignments compute the decision of the specification |
| Domain.Evaluate | src/compatibility/domain.rs:574-755 | the evaluator's level, decisions and sorted findings are those of the specification; the `FindingRules` below pin it over the fields of matrix and evidence |
| Domain.EvaluateProtocol | src/compatibility/domain.rs:580-641 | level and findings of the protocol version |
| Domain.EvaluateEndpoint | src/compatibility/domain.rs:643-710 | level and findings of the endpoint evidence, in the order they are pushed; `FindingRules.EndpointFindingRules` and `FindingRules.EndpointLevelRules` say which |
| Domain.EvaluateFeatures | src/compatibility/domain.rs:712-746 | the feature loop merges every decision into the level and reports each that is not compatible |
| FindingRules.EndpointFindingRules | src/compatibility/domain.rs:643-710 | which findings the evidence gives, over its own fields: a missing required method by name, two different networks, two different protocols, a reported zero window, each warning |
| FindingRules.EndpointLevelRules | src/compatibility/domain.rs:643-710 | when that makes the level Incompatible or Degraded |
| FindingRules.ProtocolRules | src/compatibility/domain.rs:580-641 | which finding and level a protocol version gives, by the range and the status of the matrix |
| FindingRules.StatusRules | src/compatibility/domain.rs:580-641 | the first matrix entry of a version gives its status; without one it is unknown |
| FindingRules.GateRules | src/compatibility/domain.rs:786-835 | what the gate of a feature finds missing, and exactly when it is Incompatible, Unknown or Compatible |
| FindingRules.GateWithoutEvidence | src/compatibility/domain.rs:786-835 | without endpoint evidence the protocol range decides alone |
| FindingRules.FeatureFindingRules | src/compatibility/domain.rs:712-746 | a feature is reported exactly when its gate is not Compatible, as an error exactly when it is Incompatible |
| FindingRules.FindingsUnion | src/compatibility/domain.rs:574-755 | the report holds what protocol, endpoint and features give, and nothing else |
| FindingRules.ReportIsOrdered | src/compatibility/domain.rs:747-755 | errors come before warnings, and codes ascend among equals |
| FindingRules.VerdictIsWorst | src/compatibility/domain.rs:574-755 | the verdict is as bad as its worst part and no worse |
| FindingRules.MethodsDecide | src/compatibility/domain.rs:574-835 | where nothing but methods can spoil the verdict, it is Incompatible exactly for a lacking required method or one of a hard feature, and Compatible exactly when nothing lacks |
| Verdicts.VerdictAgreesWithFindings | src/compatibility/domain.rs:580-755 | Compatible exactly without findings; Incompatible exactly with an error finding or a protocol the matrix itself declares incompatible; Unknown exactly for an undecided protocol otherwise; no finding is informational |
| Verdicts.ReportAgreesWithVerdict | src/compatibility/domain.rs:747-755 | the same for the sorted report |
| Verdicts.GateImprovesIff | src/compatibility/domain.rs:786-835 | one gate is monotone in the supported methods exactly unless the protocol is unknown and the feature is soft with required methods |
| Verdicts.GateShrinks | src/compatibility/domain.rs:786-835 | more supported methods shrink what a gate misses and lower its level, apart from that one case |
| Verdicts.MoreMethodsNeverHurt | src/compatibility/domain.rs:574-835 | for every matrix, protocol and evidence, more supported methods never raise the overall level |
| Verdicts.RequiredMethodMissing | src/compatibility/domain.rs:643-658 | a required probe method that is not supported makes the verdict Incompatible and is reported by name |
| Builtin.BuiltinRequired | src/compatibility/domain.rs:142-314 | the shipped matrix requires exactly getHealth, getNetwork and getLatestLedger |
| Builtin.BuiltinConsistent | src/compatibility/domain.rs:341-373 | the shipped matrix knows the core methods and every method of its features, and declares no protocol incompatible |
| Builtin.BuiltinVerdict | src/compatibility/domain.rs:142-314 | with the shipped matrix Incompatible always comes with an error finding, and a missing required method always gives it |
| Builtin.OneMethodMissing | src/compatibility/domain.rs:142-314 | on a healthy endpoint that lacks one known method, the shipped matrix gives Incompatible for seven methods, Degraded for three, and Compatible for two |
| Builtin.AllMethodsSupported | src/compatibility/domain.rs:142-314 | on a healthy endpoint with all methods it gives Compatible for protocols 20 to 22, and Incompatible for any other |
| Builtin.KnownByUse | src/compatibility/domain.rs:142-314 | the known methods are those twelve |
| Builtin.EventsGateWorsens | src/compatibility/domain.rs:786-835 | without a protocol, the gate of the shipped soft feature "contract_events" goes from Degraded with no methods to Unknown with all of them |
| Builtin.CoreOnlyProbe | src/commands/compatibility.rs:419-427 | with the shipped matrix, a core-only probe is Incompatible unless discovery lists everything the hard features require; always, if discovery lists nothing |
| JsonTree.FindsFirstCarrier | src/compatibility/audit.rs:710-729 | the version found is that of the first value, in visiting order, that carries one; none is found exactly when no value does |
| JsonTree.OwnVersionIff | src/compatibility/audit.rs:710-729 | an object carries the first 32-bit number under "protocol_version", "protocolVersion" or "protocol" |
| JsonTree.AtRules | src/compatibility/audit.rs:710-750 | a path goes into items of arrays and field values of objects, and paths compose |
| JsonTree.BeforeIsStrict | src/compatibility/audit.rs:710-729 | of two different paths exactly one is visited first |
| JsonTree.OuterBefore | src/compatibility/audit.rs:710-729 | a value is visited before what is inside it |
| JsonTree.LeftBefore | src/compatibility/audit.rs:710-729 | what is to the left is visited before what is to the right, at any depth |
| JsonTree.CollectRpcMethods | src/compatibility/audit.rs:731-750 | exactly the methods of JSON-RPC 2.0 objects anywhere in the tree are collected |
| FileTree.CollectFiles | src/compatibility/audit.rs:631-665 | the walk succeeds exactly when everything it visits is readable and the files number at most the limit, and then returns them all in order; it fails for too many files exactly when they come before the first entry that cannot be read |
| FileTree.FilesUnderExact | src/compatibility/audit.rs:631-665 | those files are exactly the regular files outside symbolic links and ignored directories |
| FileTree.FilesUnderDistinct | src/compatibility/audit.rs:631-665 | each of them is listed once |
| FileTree.ReadableIff | src/compatibility/audit.rs:631-665 | a listing is readable exactly when no path outside ignored directories leads to a failure |
| Sorting.StableSortSorted | src/compatibility/audit.rs:261-268 | sorting by a total preorder gives a sorted permutation |
| Sorting.StableSortStable | src/compatibility/audit.rs:261-268 | and keeps the order of equal elements |
| Sorting.ClassConcatenates | src/compatibility/audit.rs:261-268 | the equal elements whose order is kept are picked out one by one |
| Sorting.SortDedupAscending | src/compatibility/transport.rs:346-347 | sorting and de-duplicating strings gives the ascending list of the distinct ones |
| Audit.AuditAt | src/compatibility/audit.rs:159-298 | given what the inspections report: the audit's findings are the tidied findings of files, inventory and endpoint, its level is their fold, and the endpoint status is the evaluator's |
| Audit.InspectFile | src/compatibility/audit.rs:191-227 | one round over a file counts it in every inventory it belongs to and adds the findings of every inspection it gets |
| Audit.FoldLevelMeaning | src/compatibility/audit.rs:275-283 | the fold is Incompatible with an error, otherwise Degraded with a warning, otherwise Compatible |
| Audit.DedupKeeps | src/compatibility/audit.rs:261-274 | in a list sorted by severity, dropping repetitions that ignore severity keeps each finding as itself or as one at least as severe |
| Audit.TidyKeepsLevel | src/compatibility/audit.rs:261-283 | sorting and dropping repetitions keeps the level equal to the fold over the raw findings, never Unknown, and invents no finding |
| AuditRules.NothingSaidIsLost | src/compatibility/audit.rs:261-274 | code, component, summary and evidence of every finding are in the report, at least as severe |
| AuditRules.NamesStayApart | src/compatibility/audit.rs:269-274 | two missing methods, and two warnings of a probe, stay two findings |
| AuditRules.NeighboursDiffer | src/compatibility/audit.rs:269-274 | no finding stands next to one that says the same |
| AuditRules.WorseOfTwo | src/compatibility/audit.rs:261-274 | of two findings on one topic the worse is reported, in whichever order they come |
| AuditRules.TidyIsOrdered | src/compatibility/audit.rs:261-268 | errors first, then warnings; codes and then summaries ascend among equals |
| AuditRules.AuditFindingsIff | src/compatibility/audit.rs:191-259 | exactly what an audit finds: what its files give by their names and contents, what is missing among them, and what the endpoint evidence gives |
| AuditRules.FileFindingsIff | src/compatibility/audit.rs:191-227 | a file is inspected under every name test it meets, and a fixture is an error when it is no JSON or targets a protocol that range, matrix or a hard feature rules out |
| AuditRules.IsFixtureIff | src/compatibility/audit.rs:674-680 | a fixture ends in ".json" and its absolute path speaks of a transaction, in any case of letters |
| AuditRules.InventoryGrows | src/compatibility/audit.rs:191-227 | one more file counts once everywhere its name belongs |
| AuditRules.ProtocolVerdict | src/compatibility/audit.rs:612-616 | when a protocol alone evaluates to Incompatible |
| Audit.CompatibleAudit | src/compatibility/audit.rs:228-283 | an audit is Compatible exactly when file findings are informational, a Cargo manifest was found, and endpoint evidence was given that itself evaluates to Compatible |
| Audit.IncompatibleAudit | src/compatibility/audit.rs:228-283 | an audit is Incompatible exactly when a file or the endpoint has an error finding |
| Audit.AuditMilderThanVerdictIff | src/compatibility/audit.rs:246-283 | the audit ranks below the verdict on its own endpoint exactly when nothing is an error and the protocol is undecided or declared incompatible by the matrix |
| Audit.MilderAuditExample | src/compatibility/audit.rs:246-283 | an endpoint without a protocol: the verdict is Unknown, the audit Degraded |
| Audit.ThresholdsNest | src/compatibility/audit.rs:130-136 | failing at the Incompatible threshold implies failing at Degraded, and each fails exactly on the severities it names |
| Cache.MigrateV0 | src/compatibility/cache.rs:197-222 | the migration fails on an undecodable record and otherwise gives the specified entries |
| Cache.CapabilityCache.Lookup | src/compatibility/cache.rs:58-71 | a lookup returns the entry of the endpoint's identifier with its age and freshness, or the load error |
| Cache.CapabilityCache.GetFresh | src/compatibility/cache.rs:73-85 | a fresh entry or nothing |
| Cache.FreshIff | src/compatibility/cache.rs:58-71 | in nanoseconds: evidence is fresh for less than one second more than the whole seconds of the time to live, and evidence from the future is fresh |
| Cache.FreshEntryIff | src/compatibility/cache.rs:73-85 | what a read finds, in nanoseconds |
| Cache.CapabilityCache.StoreEvidence | src/compatibility/cache.rs:87-101 | a store replaces the entry of its identifier; unsupported evidence, an unreadable file and a failing write are each reported and leave the file alone |
| Cache.CapabilityCache.RemoveExpired | src/compatibility/cache.rs:119-131 | a prune removes and counts exactly the stale entries, rewrites nothing when there is none, and reports a load error or a failing write without a change |
| Cache.CapabilityCache.List | src/compatibility/cache.rs:103-117 | all entries in the order of their identifiers |
| Cache.PruneCounts | src/compatibility/cache.rs:119-131 | the entries left are the entries before less the stale ones |
| Cache.OperationRules | src/compatibility/cache.rs:87-131 | a store files its evidence and nothing else; a prune drops what is too old and nothing else |
| Cache.RunIsLastStored | src/compatibility/cache.rs:87-131 | after any run of stores and prunes an entry is the last one stored, unless a prune met it stale |
| Cache.LastStoredIff | src/compatibility/cache.rs:87-101 | the plain map holds what the last store of an identifier brought, or what was there before any |
| Cache.SurvivesIff | src/compatibility/cache.rs:119-131 | an entry survives exactly when no prune after its last store meets it too old, in nanoseconds |
| Cache.ReadsAgreeIff | src/compatibility/cache.rs:73-131 | exactly when a read agrees with a plain last-store-wins map filtered by age |
| Cache.PruneAheadHidesEvidence | src/compatibility/cache.rs:119-131 | a prune one second ahead hides evidence from a read that the plain map still answers |
| Cache.ReadsLikeAPlainMap | src/compatibility/cache.rs:73-131 | while no prune is ahead of the reading time, it always does |
| Cache.PruneInvisible | src/compatibility/cache.rs:119-131 | a prune changes no read at its own time or later |
| Cache.RunKeepsKeys | src/compatibility/cache.rs:87-131 | every entry stays filed under its own identifier |
| Cache.MigrationKeepsLast | src/compatibility/cache.rs:197-222 | a migrated file holds, for each identifier, the last of its records |
| Cache.MigrationInventsNothing | src/compatibility/cache.rs:197-222 | and nothing else, every entry under its own identifier |
| TokenContract.Contract.InitializeToken | src/commands/new.rs:515-521 | initialize needs the administrator and resets the supply |
| TokenContract.Contract.MintTo | src/commands/new.rs:523-532 | a success adds the amount to one account and to the supply and leaves the rest alone; otherwise a panic changes nothing |
| TokenContract.Contract.TransferFrom | src/commands/new.rs:538-550 | a success with two accounts takes the amount from one and gives it to the other, and leaves every other account, the supply and the administrator alone; debit, second read and credit are one move, or a panic that changes nothing |
| TokenContract.Contract.Balance | src/commands/new.rs:534-536 | no entry reads as zero; in every state of a covered run with one initialization a balance is between zero and the supply |
| TokenContract.Contract.TotalSupply | src/commands/new.rs:552-554 | no entry reads as zero; in every state of a run with at most one initialization it is the sum of all balances |
| TokenContract.TransferMoves | src/commands/new.rs:538-550 | the same as a law of the storage: what a transfer that goes through changes, account by account |
| TokenContract.MintCredits | src/commands/new.rs:523-532 | what a mint that goes through changes, and that the administrator authorized it |
| TokenContract.InitializeResets | src/commands/new.rs:515-521 | exactly when an initialization goes through, and that it leaves the balances |
| TokenContract.SelfTransfer | src/commands/new.rs:538-550 | a transfer to oneself leaves every balance as it was, whatever the amount |
| TokenContract.SupplyIsSum | src/commands/new.rs:515-554 | in every run with at most one initialization the supply is the sum of all balances |
| TokenContract.ReinitializationConservesIff | src/commands/new.rs:515-521 | initializing again keeps supply and sum equal exactly when nothing is in circulation |
| TokenContract.ReinitializationExample | src/commands/new.rs:515-532 | initialize, mint five, initialize: the supply is zero and the balances sum up to five |
| TokenContract.RunTyped | src/commands/new.rs:515-554 | storage only ever holds i128 values |
| TokenContract.RunNeverNegativeIff | src/commands/new.rs:515-554 | no balance of a run is ever negative exactly when every call takes no more from the account it credits than is there at its time |
| TokenContract.NonNegativeAmountsCovered | src/commands/new.rs:515-554 | every run with non-negative amounts is such a run |
| TokenContract.BalancesBounded | src/commands/new.rs:515-554 | in such a run with at most one initialization every balance stays between zero and the supply, which fits an i128 |
| TokenContract.OnlyMintOverflows | src/commands/new.rs:523-550 | in such a run a transfer succeeds exactly when authorized and covered and never overflows; a mint overflows exactly when the supply does |
| TokenContract.TransferKeepsNonNegativeIff | src/commands/new.rs:538-550 | a transfer keeps balances non-negative exactly when the amount is not negative, goes to oneself, or takes back no more than the receiver has |
| TokenContract.MintKeepsNonNegativeIff | src/commands/new.rs:523-532 | a mint keeps balances non-negative exactly when it takes back no more than the account has |
| TokenContract.NegativeMintExample | src/commands/new.rs:523-532 | the smallest mint that leaves a negative balance |
| TokenContract.NegativeTransferExample | src/commands/new.rs:538-550 | the smallest transfer that leaves a negative balance |
| VotingContract.Contract.CreateProposal | src/commands/new.rs:620-639 | a new proposal gets the next identifier and empty tallies |
| VotingContract.Contract.CastVote | src/commands/new.rs:641-665 | a vote is stored once and counted on its side, or panics and changes nothing |
| VotingContract.Contract.CloseProposal | src/commands/new.rs:675-683 | its creator closes a proposal |
| VotingContract.Contract.Results | src/commands/new.rs:667-673 | the tallies, which in every reachable state are the numbers of distinct voters |
| VotingContract.RunKeepsValid | src/commands/new.rs:620-683 | in every run the tallies count the distinct addresses with a stored vote, and votes exist for proposals 1 to the count only |
| VotingContract.EmptyValid | src/commands/new.rs:620-683 | so that this holds of every run of a new contract |
| VotingContract.VotesAreFinal | src/commands/new.rs:641-665 | a vote never changes |
| VotingContract.ClosedIsFinal | src/commands/new.rs:641-683 | a closed proposal never changes and gets no further vote |
| VotingContract.ClosedRefusesVotes | src/commands/new.rs:641-683 | after a close, in every run, no vote on the proposal is accepted and its tallies stay |
| VotingContract.VoteIsCounted | src/commands/new.rs:641-665 | a vote that goes through counts once on its side, is written down, and changes nothing else |
| VotingContract.CreateOpens | src/commands/new.rs:620-639 | exactly when a proposal is created, open and without votes under the next number |
| VotingContract.CloseCloses | src/commands/new.rs:675-683 | exactly when a proposal is closed, and that nothing else changes |
| VotingContract.VoteAcceptedIff | src/commands/new.rs:641-665 | exactly which votes are accepted |
| NftContract.Contract.InitializeNft | src/commands/new.rs:747-751 | initialize needs the administrator and resets the supply |
| NftContract.Contract.MintTo | src/commands/new.rs:753-766 | mint stores a new token and counts it, or panics and changes nothing |
| NftContract.Contract.TransferFrom | src/commands/new.rs:775-788 | the owner hands a token over |
| NftContract.TransferHandsOver | src/commands/new.rs:775-788 | exactly when a token is handed over; the receiver owns it then, and uri, other tokens and supply stay |
| NftContract.MintCreates | src/commands/new.rs:753-766 | exactly when a token is minted, and with which owner and uri |
| NftContract.InitializeResets | src/commands/new.rs:747-751 | exactly when an initialization goes through, and that the tokens stay |
| NftContract.SupplyIsCount | src/commands/new.rs:747-799 | in every run with at most one initialization the supply is the number of tokens |
| NftContract.ReinitializationCountsIff | src/commands/new.rs:747-751 | initializing again keeps that exactly when there is no token |
| NftContract.ReinitializationExample | src/commands/new.rs:747-766 | initialize, mint a token, initialize: the supply is zero and there is a token |
| NftContract.TokensArePermanent | src/commands/new.rs:753-795 | a token never disappears and its uri never changes |
| NftContract.OwnerAuthorizesChange | src/commands/new.rs:775-788 | a run that changes a token's owner holds a transfer which the owner at the time authorized |
| NftContract.MintOverflowsIff | src/commands/new.rs:753-766 | the counter overflows only when every other u64 identifier is taken |
| Upgrade.Find | src/commands/upgrade.rs:656-666 | the first proposal of that identifier on that network |
| Upgrade.UpgradeStore.HandlePropose | src/commands/upgrade.rs:528-559 | a proposal is added, approved by its proposer, unless its identifier is taken |
| Upgrade.UpgradeStore.HandleApprove | src/commands/upgrade.rs:656-689 | which check fails first; otherwise an approval is added and reaching the threshold approves the proposal |
| Upgrade.UpgradeStore.HandleExecute | src/commands/upgrade.rs:715-874 | which check fails first; otherwise an execution appends a record and then marks the proposal, and a crash between the saves leaves it Approved |
| Upgrade.UpgradeStore.HandleRollback | src/commands/upgrade.rs:917-959 | the rollback target is the hash asked for if the history mentions it; by default it is what the latest record of that contract and network replaced, unless that is unknown |
| Upgrade.LatestIsMentioned | src/commands/upgrade.rs:917-959 | a default target always passes the later history check |
| Upgrade.LatestIff | src/commands/upgrade.rs:925-935 | the default comes from a matching record with no matching record after it, and there is none exactly when nothing matches |
| Upgrade.ExecuteRecords | src/commands/upgrade.rs:715-874 | exactly when an execution takes effect, and the record it leaves: deployed hash before, proposal hash after |
| Upgrade.RollbackUndoesExecute | src/commands/upgrade.rs:859-935 | across the two commands: after an execution that takes effect the default rollback target is the hash deployed before it |
| UpgradeRuns.NextGoverns | src/commands/upgrade.rs:528-874 | every command keeps identifiers distinct, approvals free of repeated keys with the proposer's first, Pending exactly below the threshold and a full quorum otherwise |
| UpgradeRuns.RunSound | src/commands/upgrade.rs:528-874 | so does every run, and every record tells of an approved or executed proposal with its contract, hash and network |
| UpgradeRuns.RunEvolves | src/commands/upgrade.rs:528-874 | the history only grows at its end and every proposal only moves from Pending to Approved to Executed |
| UpgradeRuns.NeverBack | src/commands/upgrade.rs:528-874 | status by status: nothing returns to Pending, approvals are final once Approved, and an executed proposal never changes |
| UpgradeRuns.QuorumOfDistinctKeys | src/commands/upgrade.rs:675-685 | whatever is approved was approved with as many different public keys as it needs |
| UpgradeRuns.QuorumOfDistinctWalletsIff | src/commands/upgrade.rs:675-685 | and by as many different wallets exactly when no two of the keys belong to one wallet |
| UpgradeRuns.RotatedWalletApprovesTwice | src/commands/upgrade.rs:546-685 | a wallet that proposes with threshold two, rotates its key and approves is a quorum by itself |
| UpgradeRuns.RecordsAccountedFor | src/commands/upgrade.rs:859-874 | a proposal's records are its execution and its crashes between the two saves |
| UpgradeRuns.RecordsAreCounted | src/commands/upgrade.rs:859-874 | the records counted there are the places in the history that name the proposal |
| UpgradeRuns.CrashesOnIff | src/commands/upgrade.rs:859-874 | and the crashes are the executions that show in the history but not among the proposals |
| UpgradeRuns.ExecutionsRecorded | src/commands/upgrade.rs:859-874 | Executed always leaves a record; without a crash there is exactly one for an executed proposal and none for another |
| UpgradeRuns.RecordsMatchProposals | src/commands/upgrade.rs:859-874 | every record belongs to exactly one proposal, of its contract, hash and network, which without crashes is Executed |
| TtlLint.CollectImports | src/commands/lint.rs:129-146 | the recorded positions are exactly those of the imports with a matching name, counting imports of every kind |
| TtlLint.ImportIndexMap.ProcessImport | src/commands/lint.rs:495-504 | one more import advances the index and is recorded by its name |
| TtlLint.NameRules | src/commands/lint.rs:539-550 | which import names count; the two longer patterns for an extension add nothing to the short one |
| TtlLint.RecordedSetIsCallIndicesIff | src/commands/lint.rs:135-140 | the recorded positions are the indices by which code calls the matching functions exactly when every matching import and every import before it is a function |
| TtlLint.MemoryImportHidesRead | src/commands/lint.rs:135-168 | a memory import before "storage_get": the body that calls it by index 0 shows no read |
| TtlLint.AnalyzeBody | src/commands/lint.rs:159-186 | the flags say which calls exist anywhere and whether some read has the counter above zero |
| TtlLint.BodyScan | src/commands/lint.rs:159-186 | on every nested body the counter at each call is the number of structures around it, and the body leaves the counter as it was |
| TtlLint.ContextRules | src/commands/lint.rs:159-186 | what is around each call of a nested body, structure by structure |
| TtlLint.EncodingRules | src/commands/lint.rs:159-186 | how nested bodies are laid out in the binary format |
| TtlLint.BodyEndsAtZero | src/commands/lint.rs:178-182 | the last End of a body finds the counter at zero and leaves it there |
| TtlLint.ScanMeaning | src/commands/lint.rs:159-186 | the flags are properties of the nesting; every read truly inside a loop is flagged |
| TtlLint.LoopFlagExactIff | src/commands/lint.rs:174-176 | the loop flag means "in a loop" exactly unless reads are only inside blocks or ifs |
| TtlLint.BlockFlaggedAsLoop | src/commands/lint.rs:174-176 | the smallest body on which it does not |
| TtlLint.AnalyzeTtlExpiry | src/commands/lint.rs:148-215 | exactly one finding per flagged function and check, in order, at the function's position after the imports |
| TtlLint.LintMeaning | src/commands/lint.rs:148-215 | which functions are flagged, in terms of their nested bodies |
| TtlLint.LintModule | src/commands/lint.rs:60-62 | the findings of a module, from its import section and its code section |
| TtlLint.ReadsSeenIff | src/commands/lint.rs:129-186 | the scan sees the calls of the matching imports in every nested body exactly in those modules |
| TtlLint.ModuleLintMeaning | src/commands/lint.rs:129-215 | what is flagged in such a module, in terms of the imported functions its nested bodies call; no read in a loop is missed |
| WatSplit.ScanStream | src/commands/lint.rs:236-281 | the streaming scan reports exactly the start lines of the functions it cuts whose text fails the check; `WatSplit.StreamedIsTheSplit` and `WatSplit.BalanceOfText` say which lines those are |
| WatSplit.AnalyzeVecIteration | src/commands/lint.rs:236-281 | the same for the storage-iteration check, whose texts `WatSplit.ChecksIff` spells out |
| WatSplit.AnalyzeMissingAuth | src/commands/lint.rs:283-325 | the same for the missing-auth check |
| WatSplit.SplitWatFunctions | src/commands/lint.rs:443-478 | the index loop returns prefix, suffix and start line of the functions it cuts; `WatSplit.IndexedIsTheSplit` and `WatSplit.BalanceOfText` say which lines those are |
| WatSplit.PartIsText | src/commands/lint.rs:443-478 | prefix and suffix together are the function's text |
| WatSplit.CountOfIsMultiplicity | src/commands/lint.rs:251-259 | every parenthesis of a line counts |
| WatSplit.BalanceOfText | src/commands/lint.rs:251-262 | the balance by which a function closes is how many more opening than closing parentheses its text holds |
| WatSplit.IsHeaderIff | src/commands/lint.rs:245 | a header is "(func" after nothing but whitespace |
| WatSplit.HeaderWithParameter | src/commands/lint.rs:236-478 | a function whose header holds a parameter and that closes on the next line is cut whole by both |
| WatSplit.FlaggedIff | src/commands/lint.rs:260-276 | a line is reported exactly when a function starts there whose text fails the check |
| WatSplit.FlaggedAscend | src/commands/lint.rs:236-325 | reports come in the order of the functions, one each at most |
| WatSplit.ChecksIff | src/commands/lint.rs:261-309 | what the two checks look for in a text |
| WatSplit.IndexedIsTheSplit | src/commands/lint.rs:443-478 | the index loop computes the only list of disjoint, increasing line ranges that start at a header, end at the first line with balance at most zero, and cover every header that closes |
| WatSplit.StreamedIsTheSplit | src/commands/lint.rs:236-281 | the streaming scan computes the only such list that never closes on a header line and ends at the first header that never closes |
| WatSplit.CutsAgreeIff | src/commands/lint.rs:236-478 | both cut alike exactly when every header met opens more than it closes and closes, or nothing closes after it |
| WatSplit.ResultsAgreeIff | src/commands/lint.rs:236-478 | they give the same texts and start lines on exactly those inputs |
| WatSplit.RegularTextsAgree | src/commands/lint.rs:236-478 | when every header line opens more than it closes and every function closes, both give the same functions, texts and start lines |
| WatSplit.OneLineFunctionLost | src/commands/lint.rs:253-262 | the smallest text on which they differ: one function of one line, which the streaming scan loses |
| WatSplit.OneLineFunctionsMerge | src/commands/lint.rs:253-262 | two one-line functions are one function for the streaming scan and two for the index loop |
| WatSplit.OneLineFunctionExists | src/commands/lint.rs:253-262 | and such a function is `(func)` |
| Wallets.ApplyKeepsNamesDistinct | src/commands/wallet.rs:551-1662 | no command makes two wallets share a name |
| Wallets.RunKeepsNamesDistinct | src/commands/wallet.rs:551-1662 | nor does any run of commands |
| Wallets.RenameBack | src/commands/wallet.rs:1069-1085 | renaming back restores the list in its order |
| Wallets.RemoveAdded | src/commands/wallet.rs:815-828 | removing a wallet just added restores the list |
| Wallets.RotateRules | src/commands/wallet.rs:1095-1203 | a rotated wallet has the new key, secret and network under its old name and date, and the end of its history keeps the old key, network and mark, the old secret only when asked; its neighbours stay |
| Wallets.InPlaceRules | src/commands/wallet.rs:780-1085 | what renaming, funding and adopting change of the first wallet of a name, field by field, and that everything else stays in its place |
| Wallets.ListRules | src/commands/wallet.rs:815-828 | removing takes a wallet out from between its neighbours |
| Wallets.AllowedRules | src/commands/wallet.rs:551-1085 | when a command may change the list |
| Wallets.RunKeepsKeyChains | src/commands/wallet.rs:1069-1203 | in every run, across renames, rotation history and current key are exactly the keys the wallet has held, in order |
| Wallets.CommandsKeepKeys | src/commands/wallet.rs:551-1662 | a run of wallet commands alone always meets the condition of that law |
| Wallets.AdoptKeepsChainsIff | src/interop/stellar/starforge.rs:26-66 | adopting an identity keeps the law exactly when it brings the key the wallet has |
| Wallets.AdoptLosesAKey | src/interop/stellar/starforge.rs:34-46 | the smallest run that loses a key |
| WalletStore.Store.Create | src/commands/wallet.rs:551-674 | which check fails first, and on success exactly one wallet is appended with its faucet outcome |
| WalletStore.Store.ImportFromMnemonic | src/commands/wallet.rs:1452-1505 | the same for a recovery phrase |
| WalletStore.Store.ImportFromSecretKey | src/commands/wallet.rs:1507-1563 | the same for a secret key |
| WalletStore.Store.FundWallet | src/commands/wallet.rs:780-813 | only the funded mark of the named wallet changes |
| WalletStore.Store.RemoveWallet | src/commands/wallet.rs:815-828 | the named wallet is removed, or the command fails without a change |
| WalletStore.Store.ForgetMerged | src/commands/wallet.rs:1049-1057 | forgetting a merged wallet removes it if it is there |
| WalletStore.Store.RenameWallet | src/commands/wallet.rs:1069-1085 | exactly the name changes, in place, when the old name exists and the new one does not |
| WalletStore.Store.RotateWallet | src/commands/wallet.rs:1095-1223 | the previous key is archived, with its secret only if a snapshot was asked for, and the new one takes its place |
| WalletStore.Store.ImportWallets | src/commands/wallet.rs:1605-1655 | an import fails with the first problem and changes nothing, or appends every wallet of the backup in order |
| WalletStore.NoDuplicate | src/commands/wallet.rs:1621-1626 | the loop over seen names accepts exactly the backups without a repeated name |
| WalletStore.Settings.ImportSucceedsIff | src/commands/wallet.rs:1609-1643 | an import succeeds exactly when every entry is valid and new and the backup is well formed |
| WalletStore.ImportOfExport | src/commands/wallet.rs:1333-1370 | a backup of all wallets brings every wallet back without its rotation history, and is accepted exactly when every wallet passes the import's own checks |
| WalletStore.BackupRules | src/commands/wallet.rs:1333-1655 | every entry of a backup becomes a wallet that says the same, field by field, and back |
| WalletStore.TextRules | src/utils/config/mod.rs:19-190 | what counts as a key, a secret and a name of a wallet or a network |
| WalletStore.Store.UpsertIdentity | src/interop/stellar/starforge.rs:26-66 | an identity overwrites the first wallet of its name in any case of letters, or is appended |
| PluginCapabilities.ParseCapabilities | src/plugins/loader.rs:435-445 | the loop over the parts computes the specified list |
| PluginCapabilities.RecognizedIff | src/plugins/loader.rs:437-444 | a capability is approved exactly when its name is one of the parts |
| PluginCapabilities.ParsePrinted | src/main.rs:424-433 | every list of capabilities arrives as it was printed, in order and with its repetitions |
| PluginCapabilities.PrintParsedIff | src/plugins/loader.rs:435-445 | printing what was parsed gives the string back exactly when it is the marker of the empty list or names capabilities only |
| PluginCapabilities.RunPluginLibrary | src/plugins/loader.rs:419-445 | what the subprocess takes from its command line |
| PluginCapabilities.CommandLineArrives | src/main.rs:435-441 | library, name and capabilities arrive; the arguments do exactly when there are any |
| PluginCapabilities.ReceivedRules | src/plugins/loader.rs:419-433 | fewer than three arguments are refused, and the separator is dropped exactly when it is in front and something follows it |
| PluginCapabilities.Words | src/main.rs:424-440 | the marker of the empty list, the capability names, the comma between them and the separator in front of the arguments, as they are sent |
| Strings.SplitJoin | src/main.rs:427-432 | splitting undoes joining when no part holds the separator |
| Strings.JoinSplit | src/plugins/loader.rs:437 | joining undoes splitting, on every string |

## Left out

- Remediation texts, timestamps of files and reports, schema and matrix versions, notes and release lists: they are copied through and decide nothing.
- Audit.AuditAt: does not model the contents of Cargo manifests, plugin manifests, compatibility manifests and WASM artifacts; what each inspection reports of a file is an input of the audit; only transaction fixtures are inspected in the model.
- The audit's canonical root and its errors: `Audit.AuditAt` takes the sorted files as given, and `FileTree.CollectFiles` is modelled by itself, with one directory listing as one value.
- HTTP, time-outs and status codes: a transport failure is one of the answers an endpoint may give.
- Names given twice in one JSON object: a parsed object has none. The accessors take the last, the walks over a tree see every field.
- A save that is torn within one file: each save of the upgrade files, the cache and the configuration happens whole or not at all. Two processes writing at once are not modelled either.
- Analysis, preparation, listing and the on-chain preflight checks of upgrades: they print only. Rejected and Expired are never set by the code that is modelled.
- The signer check of an upgrade execution: whether the signers suffice is an input.
- Operators after one that does not decode: the lint stops reading a body there, and the model's bodies are what was read. Exception-handling operators count as any other operator.
- Carriage returns before line ends: `WatSplit` takes the lines as already split.
- The text rewriting of the lint's fixer, the byte budgets and the line-by-line storage check.
- Multi-signature wallets, signer rotation, transaction batches and ceremonies: they do not change the wallet list.
- Loading and migrating the configuration file: the wallet list starts empty and each command sees what the last one saved. Removing or changing networks in between is not modelled.
- Base64 and key-derivation parts of an encrypted secret: whether a bundle is well formed is a parameter.
- Running a plugin, its sandbox and the trust checks before it.
