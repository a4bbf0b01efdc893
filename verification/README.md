# Universal transactions: a Dafny model

The SDK sends transactions that start on one chain and run on others, follows the
transactions they spawn, and encodes what travels between chains. This project models its
stateful algorithms and its codecs, and proves what they keep over whole runs. Network,
wallet and library calls are oracles: arbitrary functions, or labels chosen by an adversary.

| File | Subject |
|---|---|
| `Orchestrator.dfy` | the re-entrant executor: a tree of `execute` calls that mutate route, hook and terminal flag, and the hook chain that delivers its events |
| `CascadeTypes.dfy`, `CascadeWalk.dfy`, `CascadeTree.dfy` | the depth-bounded search over transactions, its tree, the stack that flattens it and the rewrite for display |
| `PollOutbound.dfy`, `PollGraph.dfy` | the breadth-first inspection of child transactions, and what its references mean |
| `LruCache.dfy` | the cache with recency and time-to-live |
| `SvmPayload.dfy`, `HexParsing.dfy` | the two nested binary payloads of Solana outbounds, with decoders written from their documented layouts |
| `AutoDetect.dfy`, `GuardedClient.dfy` | two interleaved protocols as labelled steps: the race of probes, and the single-flight promotion of a read-only client |
| `RpcFallback.dfy` | endpoint rotation with a sticky cursor and bounded waits |
| `Decimal.dfy`, `DecimalForms.dfy`, `GasCap.dfy` | printing and parsing of token amounts; fee, slippage and conversion arithmetic |
| `ChildInbounds.dfy`, `ChildEntries.dfy`, `Classify.dfy` | keys of child transactions and their resolver; classification of a receipt's logs |
| `Allowances.dfy` | the multicalls of executes and outbounds, and token allowances while they run |
| `Wrappers.dfy`, `Strings.dfy`, `Arithmetic.dfy` | optional values and outcomes, string operations, division with remainder |

Code that updates state in place is a class or a method with loops. Its contract ties the new
state to a function of the old one (`RunCall`, `Walk`, `Step`, `Layout`, ...), and the lemmas
about that function say what all runs keep. What such a function does in one place is stated a
second time without it: off the script, the records, the clock, the labels or the returned list.

## What does not hold as documented

Each of these is proved of the code as it is, with the exact condition or a concrete input.

- On CEA_TO_CEA the terminal failure 199-02 is emitted by the catch block and then suppressed
  by `fireProgressHook`, so no consumer hears it (`TerminalSafety`, `TerminalGuarantee`).
- `trackTransaction` leaves its detected route in the context; from then on a failing
  `execute` takes itself for a nested frame and emits no terminal (`SessionFrame`,
  `TerminalGuarantee`), and a Route 1 call runs under the route left behind and delivers no
  Route 1 event (`OwnRouteIff`).
- The wrapper installed by a cascade's `send` carries no tag, so an inner `execute` with the
  same hook, or the init hook, wraps it again and the hook hears each event twice
  (`SendWrapsTwice`; when exactly: `SendOnceIff`).
- A revisited key gives a `null` child, as an unsupported chain does (`BareIff`,
  `RevisitExample`); the `'cycle'` mark promised in the types is never set (`WalkMarks`).
- The attempts returned by the automatic detection go on growing while probes are in flight
  (`LateAttemptsGrow`; when exactly: `AttemptsFinalIff`, `AttemptsFinalForAllAnswersIff`).
- A client whose signer is a bare account is promoted to another read-only client, and again
  by the next write (`ReplacedAtMostOnceIff`). The guard declares a full signer, so a bare
  account gets there only by a cast.
- A cache whose maximum size is not positive still holds one entry
  (`WithinMaxSizeIffPositive`).
- Upper-case hex of a Solana signature gives another key than its base58 form
  (`OneKeyIffLowerCase`, `UpperCaseSplitsTheKey`).
- The documented order of kinds puts an inbound from a CEA before one from an EOA, but the
  first inbound log wins (`BestKindIff`, `HiddenCeaExample`).
- `parseUnits` accepts a minus sign without a digit, as zero, for every positive exponent
  (`LoneMinus`); no other string without a digit (`DigitlessIff`).
- Account keys of a wrong length are no error in the SVM payload: shorter ones are padded
  (`TilesTheBuffer`), longer ones cut (`LongKeysAreCut`); it throws only when one reaches past
  the end of the buffer (`RangeErrorIff`).

## Model

| member | source | states |
|---|---|---|
| Orchestrator.Executor.Execute | packages/core/src/lib/orchestrator/orchestrator.ts:199-416 | the whole new state, the exit and the observed events of a call, for every nesting tree of calls, returns and throws |
| Orchestrator.Executor.SendCascade | packages/core/src/lib/orchestrator/orchestrator.ts:492-508 | `send` installs its fan-out, runs, and restores the hook on both exits |
| Orchestrator.Executor.TrackTransaction | packages/core/src/lib/orchestrator/internals/response-builder.ts:454-520 | a failed lookup changes nothing; otherwise a resolved route stays in the context and each reconstructed event goes to the hook of the tracking and the hook of the orchestrator |
| Orchestrator.StackDiscipline | packages/core/src/lib/orchestrator/orchestrator.ts:404-415 | route and hook on exit equal those on entry, for every tree and exit |
| Orchestrator.RouteTable | packages/core/src/lib/orchestrator/route-detector.ts:159-222 | the detected route is that of the documented table |
| Orchestrator.TraceIsOutline | packages/core/src/lib/orchestrator/orchestrator.ts:248-416 | every frame, upgrade event and fired event of the script has its own entry, in order, under the route of its frame; exit and terminal flag are those of the script, each frame starting with the flag clear |
| Orchestrator.SilenceIff | packages/core/src/lib/orchestrator/internals/context.ts:132-151 | over every tree a fired event is silent iff it has a Route 1 id and its frame is on another route |
| Orchestrator.RouteOneIsHeard | packages/core/src/lib/orchestrator/orchestrator.ts:354-416 | in a top-level Route 1 call with no other route left behind every event, whatever its id, reaches the init hook and the per-call hook, once each |
| Orchestrator.NoDowngrade | packages/core/src/lib/orchestrator/orchestrator.ts:258-264 | below an ancestor on another route no frame runs as UOA_TO_PUSH, and no Route 1 event is delivered |
| Orchestrator.TerminalSafety | packages/core/src/lib/orchestrator/orchestrator.ts:305-351 | catch blocks emit one terminal exactly when an outermost call throws with the flag clear; it is the last event, its id fixed by the outermost route, and heard on every route but CEA_TO_CEA |
| Orchestrator.SessionFrame | packages/core/src/lib/orchestrator/internals/response-builder.ts:454-460 | over any sequence of operations the hook is unchanged and a route is left behind exactly by a resolved tracking |
| Orchestrator.TerminalGuarantee | packages/core/src/lib/orchestrator/orchestrator.ts:376-403 | after any history, a failing call with the flag clear emits its terminal iff no route was left behind, and it is heard iff besides the route is not CEA_TO_CEA |
| Orchestrator.OwnRouteIff | packages/core/src/lib/orchestrator/orchestrator.ts:248-264 | after any history a call runs under its own route iff it is not on UOA_TO_PUSH or no other route was left behind; otherwise none of its Route 1 events is delivered |
| Orchestrator.ExactlyOnce | packages/core/src/lib/orchestrator/orchestrator.ts:215-241 | when every frame carries no hook or the same one, each event reaches the init hook once and the per-call hook once, also when they are one function; none is missing, and only Route 1 ids away from Route 1 are silent |
| Orchestrator.ReplayDeliversOnce | packages/core/src/lib/orchestrator/internals/response-builder.ts:79-86 | after any history each reconstructed event reaches the hook of the tracking and the init hook, each once, also when they are one function |
| Orchestrator.OnceIffContiguous | packages/core/src/lib/orchestrator/orchestrator.ts:218-240 | with arbitrary hooks along a path, each is reached, and reached once, iff none is registered again after a different one |
| Orchestrator.TowerDelivers | packages/core/src/lib/orchestrator/orchestrator.ts:231-241 | executing that path of frames delivers its event through exactly those hooks |
| Orchestrator.SendOnceIff | packages/core/src/lib/orchestrator/orchestrator.ts:494-501 | below a `send`, along a path of frames, every hook hears an event once iff neither the hook of `send` nor the init hook is carried there and no other comes back after a different one |
| Orchestrator.SendTowerDelivers | packages/core/src/lib/orchestrator/orchestrator.ts:492-508 | running `send` over that path delivers its event through exactly those hooks |
| Orchestrator.SendWrapsTwice | packages/core/src/lib/orchestrator/orchestrator.ts:494-501 | a hop that carries the hook of its `send` has it hear every event twice, with or without an init hook |
| Orchestrator.SendDeliversOnce | packages/core/src/lib/orchestrator/orchestrator.ts:492-508 | over every tree below a `send` each event reaches the init hook and the hook of `send` first, once each, and then no hook that no frame carries |
| CascadeWalk.Walker.WalkFrom | packages/core/src/lib/universal-tx-detector/cascade.ts:152-197 | the tree and the visited keys of a search from any state |
| CascadeWalk.Walker.PushChildren | packages/core/src/lib/universal-tx-detector/cascade.ts:199-338 | the edges pushed, in order, and those kept when a lookup throws |
| CascadeWalk.KeysIgnoreCase | packages/core/src/lib/universal-tx-detector/cascade.ts:160 | visits share a key iff the chain is the same and the hashes differ at most in the case of letters |
| CascadeWalk.PlanIsRecords | packages/core/src/lib/universal-tx-detector/cascade.ts:199-338 | the visits planned for a node are exactly those its records name: for a Push node the record under the known id, or under the derived one if none is known; for another the resolutions of its logs |
| CascadeWalk.PushNodeEdges | packages/core/src/lib/universal-tx-detector/cascade.ts:219-290 | the edges of a Push node in order: each outbound, with a target iff it has a hash on a supported chain, then its refund and its revert if they have hashes |
| CascadeWalk.OnlyTheKnownRecordCounts | packages/core/src/lib/universal-tx-detector/cascade.ts:207-215 | with a known id neither the derivation nor any other record matters |
| CascadeWalk.ExternalNodeEdges | packages/core/src/lib/universal-tx-detector/cascade.ts:312-337 | the edges of another node in order: one for each follow-up, under the resolved id, and a bare one for a resolution without any |
| CascadeWalk.ChildrenFollowPlan | packages/core/src/lib/universal-tx-detector/cascade.ts:199-338 | the children of a node have the relations of those edges, in order; all of them if nothing failed or was cut |
| CascadeWalk.ExpansionStopsAtThrow | packages/core/src/lib/universal-tx-detector/cascade.ts:219-297 | the edges before the first visit that throws are kept, and no others |
| CascadeWalk.ThrowsIff | packages/core/src/lib/universal-tx-detector/cascade.ts:172-194 | a visit throws iff it is new, supported, and its detection throws, or it is off Push Chain, expanded, and its resolver or a visit below throws |
| CascadeWalk.NoteIff | packages/core/src/lib/universal-tx-detector/cascade.ts:291-297 | a node gets the failure note iff it is on Push Chain and its lookup or a visit below threw |
| CascadeWalk.WalkSound | packages/core/src/lib/universal-tx-detector/cascade.ts:160-186 | in every run keys in the tree are new and pairwise distinct, on supported chains, and depths step by one |
| CascadeWalk.WalkMarks | packages/core/src/lib/universal-tx-detector/cascade.ts:183-186 | in every run a node is marked as cut exactly when it is at the depth bound, and never as a cycle |
| CascadeWalk.BareIff | packages/core/src/lib/universal-tx-detector/cascade.ts:160-170 | an edge has no child iff it has no target, or its target was met before or is on an unsupported chain |
| CascadeWalk.RevisitIsBare | packages/core/src/lib/universal-tx-detector/cascade.ts:160-165 | of two edges of a node to one key the later has no child, and no mark says why |
| CascadeWalk.RevisitExample | packages/core/src/lib/universal-tx-detector/cascade.ts:69-76 | a record that names one external hash twice |
| CascadeWalk.WalkComplete | packages/core/src/lib/universal-tx-detector/cascade.ts:183-194 | without truncation or failure every queried edge of a tree node leads to a visited key, and visited supported keys are tree nodes |
| CascadeWalk.WalkReaches | packages/core/src/lib/universal-tx-detector/cascade.ts:199-338 | every tree node is reachable from the root through queried edges |
| CascadeWalk.TraceIsReachableSet | packages/core/src/lib/universal-tx-detector/cascade.ts:107-148 | without truncation or failure the tree's keys are exactly the supported keys reachable from the root along what the records name |
| CascadeWalk.TraceIsGraphReachability | packages/core/src/lib/universal-tx-detector/cascade.ts:107-148 | when edges depend on the key alone, that is plain graph reachability |
| CascadeTree.FlattenCascade | packages/core/src/lib/universal-tx-detector/cascade.ts:365-377 | the explicit stack returns exactly the recursive preorder, and ends |
| CascadeTree.NormalizeFixpoint | packages/core/src/lib/universal-tx-detector/normalize.ts:122-143 | a tree is unchanged iff it holds no raw SVM hash, and none is left |
| CascadeTree.NormalizeIdempotent | packages/core/src/lib/utils/external-tx-hash.ts:33-42 | normalising twice is normalising once |
| CascadeTree.NormalizeOnlySvmHashes | packages/core/src/lib/universal-tx-detector/normalize.ts:40-48 | shape, order and every field but SVM external hashes are kept |
| CascadeTree.DisplayOfRegistered | packages/core/src/lib/utils/external-tx-hash.ts:33-59 | a `0x` hash of an outbound to the first registered chain of its namespace becomes the base58 of its bytes on Solana, from which they are read back, and stays elsewhere |
| CascadeTree.DisplayKeeps | packages/core/src/lib/universal-tx-detector/normalize.ts:40-48 | other hashes, and those to chains that are not registered, stay |
| CascadeTree.FlattenNormalizeCommute | packages/core/src/lib/universal-tx-detector/normalize.ts:122-143 | flattening and normalising commute |
| PollOutbound.Inspect | packages/core/scripts/poll-outbound.ts:255-335 | the visited ids are exactly those within the depth of the seeds; each is queried once, at its shortest distance, in order of distance; nothing is queried for a negative depth |
| PollOutbound.InnerBallVisited | packages/core/scripts/poll-outbound.ts:259-264 | once the queue holds nothing below a level, every id nearer than it has been visited |
| PollOutbound.VisitStep | packages/core/scripts/poll-outbound.ts:277-334 | a visit keeps the loop's invariant: levels non-decreasing and spanning at most two values, distances exact, children covered |
| PollGraph.BallIsWalks | packages/core/scripts/poll-outbound.ts:259-264 | being within n steps is being the end of a walk of at most n steps from a seed |
| PollGraph.ChildrenOfRecord | packages/core/scripts/poll-outbound.ts:277-331 | the children of an id are those the direct search finds for its external hashes, and those of the fallback only if it finds none |
| LruCache.Cache.Get | packages/core/src/lib/cache/cache.ts:38-54 | a value is found iff its key has an entry in time; it becomes the newest, an entry out of time is dropped, other keys are kept |
| LruCache.Cache.Set | packages/core/src/lib/cache/cache.ts:56-71 | the newest entry is the one set; none is lost while there is room or the key is there; otherwise the oldest is |
| LruCache.Cache.Clear | packages/core/src/lib/cache/cache.ts:73-75 | exactly the entry of the key goes and the others keep their order |
| LruCache.RunBounded | packages/core/src/lib/cache/cache.ts:56-71 | over every trace keys stay distinct and the size within capacity |
| LruCache.WithinMaxSizeIffPositive | packages/core/src/lib/cache/cache.ts:56-71 | the size stays within the maximum over all traces iff the maximum is positive |
| LruCache.StepIncluded | packages/core/src/lib/cache/cache.ts:38-79 | one operation keeps a smaller cache included in a larger one, and a hit in the smaller is the same hit in the larger |
| LruCache.InclusionOverRuns | packages/core/src/lib/cache/cache.ts:33-79 | over whole traces on one clock the smaller cache is included in order, with at most K-k extras, and all its hits are shared |
| LruCache.InclusionFromEmpty | packages/core/src/lib/cache/cache.ts:28-31 | the same from two empty caches |
| LruCache.SetIsRetained | packages/core/src/lib/cache/cache.ts:38-71 | a value set is still found after any trace that touches fewer than capacity other keys, does not overwrite or clear it, and asks for it only in time |
| LruCache.SetThenGetIff | packages/core/src/lib/cache/cache.ts:33-36 | what was set at t is found at now iff it has no ttl, or a ttl of zero, or now <= t + ttl |
| LruCache.NoTtlIsKept | packages/core/src/lib/cache/cache.ts:33-36 | an entry without a ttl never times out over any trace |
| SvmPayload.HexToBytes | packages/core/src/lib/orchestrator/payload-builders.ts:530-537 | the loop reads any string two characters a byte, as `parseInt` would, with or without `0x` |
| SvmPayload.ReadHexIsUnhex | packages/core/src/lib/orchestrator/payload-builders.ts:530-537 | on hex digits that is the number they stand for |
| HexParsing.PairIsParseInt | packages/core/src/lib/orchestrator/payload-builders.ts:533-535 | each byte is what `parseInt` in base 16 makes of its two characters |
| SvmPayload.HexRoundTrip | packages/core/src/lib/orchestrator/payload-builders.ts:540-544 | reading back printed hex gives the bytes |
| SvmPayload.EncodeSvmExecutePayload | packages/core/src/lib/orchestrator/payload-builders.ts:562-610 | for keys of any length, the bytes that the writes leave in the buffer, 4+33N+4+M+1+32 of them, or the exception |
| SvmPayload.WriteFields | packages/core/src/lib/orchestrator/payload-builders.ts:578-607 | the offset-driven writes, in order, stopped by one past the end |
| SvmPayload.TilesTheBuffer | packages/core/src/lib/orchestrator/payload-builders.ts:549-557 | the writes tile the buffer without gap or overlap: it holds the documented layout, keys below 32 bytes padded with zeros |
| SvmPayload.LongKeysAreCut | packages/core/src/lib/orchestrator/payload-builders.ts:585-607 | account keys of more than 32 bytes that do not throw are cut to 32 in the layout |
| SvmPayload.RangeErrorIff | packages/core/src/lib/orchestrator/payload-builders.ts:585-607 | it throws iff the target is longer than 32 bytes or an account key reaches past the end |
| SvmPayload.ExecuteRoundTrip | packages/core/src/lib/orchestrator/payload-builders.ts:562-610 | decoding what the encoder returns gives the fields back |
| SvmPayload.DecodeLayout | packages/core/src/lib/orchestrator/payload-builders.ts:549-557 | decoding the layout returns every field |
| SvmPayload.DecodeIsExact | packages/core/src/lib/orchestrator/payload-builders.ts:549-557 | nothing but layouts decodes |
| SvmPayload.EncodingIsInjective | packages/core/src/lib/orchestrator/payload-builders.ts:562-610 | equal payloads have equal fields |
| SvmPayload.BigEndianValue | packages/core/src/lib/orchestrator/payload-builders.ts:580-582 | a length prefix reads back modulo its width |
| SvmPayload.LittleEndianValue | packages/core/src/lib/orchestrator/payload-builders.ts:653-662 | amounts and inner lengths read back modulo their width |
| SvmPayload.EncodeSvmCeaToUeaPayload | packages/core/src/lib/orchestrator/payload-builders.ts:628-687 | for any strings: the inner instruction in its layout, wrapped in the outer one, or the exception |
| SvmPayload.CeaErrorIff | packages/core/src/lib/orchestrator/payload-builders.ts:646-651 | it throws iff the gateway or a mint is longer than 32 bytes |
| SvmPayload.CeaRoundTrip | packages/core/src/lib/orchestrator/payload-builders.ts:612-687 | both layouts return gateway, token (absent is all zero), amount, payload and recipient; the amount exactly iff it fits in 64 bits |
| AutoDetect.Detector.OnReport | packages/core/src/lib/universal-tx-detector/auto-detect.ts:106-119 | a probe that answers or fails, early or late, keeps the invariant: the wait is resolved at most once and a result is never touched |
| AutoDetect.Detector.OnFinally | packages/core/src/lib/universal-tx-detector/auto-detect.ts:120-123 | it keeps the invariant, and once all probes are done the wait is resolved |
| AutoDetect.Detector.OnResume | packages/core/src/lib/universal-tx-detector/auto-detect.ts:127-136 | the result keeps every attempt, and has no detection iff all probes are done and none matched |
| AutoDetect.Play | packages/core/src/lib/universal-tx-detector/auto-detect.ts:87-136 | any schedule of the callbacks is a run |
| AutoDetect.ResolvesOnce | packages/core/src/lib/universal-tx-detector/auto-detect.ts:87-125 | in every interleaving the wait resolves at most once, once all probes are done exactly once, and a result is never replaced |
| AutoDetect.NoneMeansNoMatch | packages/core/src/lib/universal-tx-detector/auto-detect.ts:130-136 | no detection iff every probe finished without a match; otherwise it is some probe's match |
| AutoDetect.ExhaustiveWinner | packages/core/src/lib/universal-tx-detector/auto-detect.ts:130-136 | in exhaustive mode the winner is the first matching chain of the list, whatever the schedule |
| AutoDetect.WinnerSettled | packages/core/src/lib/universal-tx-detector/auto-detect.ts:132-134 | once every probe has reported, in any order, the winner is settled |
| AutoDetect.ResultAttempts | packages/core/src/lib/universal-tx-detector/auto-detect.ts:127-128 | one attempt per reported probe, matched ones first, each group in completion order |
| AutoDetect.AttemptTellsAnswer | packages/core/src/lib/universal-tx-detector/auto-detect.ts:106-119 | an attempt and its detection give the chain and the answer of the probe back |
| AutoDetect.LateAttempts | packages/core/src/lib/universal-tx-detector/auto-detect.ts:106-136 | later reports only append to the returned attempts |
| AutoDetect.AttemptsFinalIff | packages/core/src/lib/universal-tx-detector/auto-detect.ts:106-136 | the returned attempts are final in every run iff the mode is exhaustive, there is at most one chain, or no probe matches |
| AutoDetect.AttemptsFinalForAllAnswersIff | packages/core/src/lib/universal-tx-detector/auto-detect.ts:80-81 | whatever the chains answer, iff the mode is exhaustive or there is at most one chain |
| AutoDetect.LateAttemptsGrow | packages/core/src/lib/universal-tx-detector/auto-detect.ts:106-136 | whenever one probe matches and there is another, a schedule in which they grow |
| GuardedClient.Guard.BeginWrite | packages/ui-kit/src/lib/helpers/txnAuthGuard.ts:25-54 | a write joins the promotion under way or starts the only one |
| GuardedClient.Guard.OnReinit | packages/core/src/lib/push-chain/push-chain.ts:640-655 | a failure leaves the client alone; with a real signer a success promotes it, for the first time |
| GuardedClient.Guard.OnCheck | packages/ui-kit/src/lib/helpers/txnAuthGuard.ts:56-76 | the function is called iff the check passes, on the current client: with a real signer a promoted one, unless the awaited promotion found no wallet |
| GuardedClient.Guard.OnWallet | packages/ui-kit/src/lib/helpers/txnAuthGuard.ts:37-44 | a connected wallet goes on to `reinitialize`, a refusal ends the promotion as failed; the client is left alone |
| GuardedClient.Guard.OnFinally | packages/ui-kit/src/lib/helpers/txnAuthGuard.ts:52-54 | no promotion is left under way |
| GuardedClient.Guard.OnResume | packages/ui-kit/src/lib/helpers/txnAuthGuard.ts:51-70 | a write goes on iff its promotion succeeded |
| GuardedClient.Play | packages/ui-kit/src/lib/helpers/txnAuthGuard.ts:21-76 | any schedule of the steps is a run |
| GuardedClient.RunInv | packages/ui-kit/src/lib/helpers/txnAuthGuard.ts:21-76 | every reachable state keeps single flight, the client's and the writes' conditions |
| GuardedClient.OnePromotionAtATime | packages/ui-kit/src/lib/helpers/txnAuthGuard.ts:23-55 | at most one promotion is running in every interleaving |
| GuardedClient.PromotedOnce | packages/ui-kit/src/lib/helpers/txnAuthGuard.ts:25-55 | with a real signer the client is replaced at most once and never returns to read mode |
| GuardedClient.WritesUsePromotedClient | packages/ui-kit/src/lib/helpers/txnAuthGuard.ts:21-76 | no write whose promotion failed reaches its function; one after a successful promotion uses the promoted client |
| GuardedClient.FailedPromotionStops | packages/ui-kit/src/lib/helpers/txnAuthGuard.ts:30-55 | over all runs a promotion that met a malformed record, a refused wallet or a failing `reinitialize` never replaces the client, and no write that waits for it gets past it |
| GuardedClient.NoWalletLeavesClient | packages/ui-kit/src/lib/helpers/txnAuthGuard.ts:30-35 | a promotion without a wallet on record settles well and leaves the client |
| GuardedClient.ClientChangesIff | packages/ui-kit/src/lib/helpers/txnAuthGuard.ts:46-50 | a step changes the client iff it is a `reinitialize` that succeeds; a promotion starts iff a write meets a read-only client with none under way |
| GuardedClient.AwaitsReinitIff | packages/ui-kit/src/lib/helpers/txnAuthGuard.ts:37-46 | a promotion awaits `reinitialize` iff its wallet connected and it has had no answer yet |
| GuardedClient.CheckDecides | packages/ui-kit/src/lib/helpers/txnAuthGuard.ts:58-76 | a refused upgrade check rejects the write for good; a passed one calls its function on the client of that moment |
| GuardedClient.ReplacedAtMostOnceIff | packages/core/src/lib/push-chain/push-chain.ts:640-655 | the client is replaced at most once in all runs iff it needs no promotion or the signer is not a bare account |
| RpcFallback.PushClient.ExecuteWithRpcFallback | packages/core/src/lib/push-client/push-client.ts:104-165 | attempts in rotation order from the cursor; a success is the first answer and leaves the cursor there, a failure leaves it alone |
| RpcFallback.PushClient.ExecuteWithArchiveFallback | packages/core/src/lib/push-client/push-client.ts:179-211 | the archive is tried only after a prune miss, which an `undefined` answer is not, from its first URL; it never moves the cursor; attempts and waits of both passes |
| RpcFallback.SvmClient.ExecuteWithFallback | packages/core/src/lib/vm-client/svm-client.ts:42-79 | one attempt per endpoint from the cursor, 100 ms apart |
| RpcFallback.TotalFailureIsFair | packages/core/src/lib/push-client/push-client.ts:119-160 | a total failure tries each of n URLs exactly 5 times and waits at most 5000n - 2000 ms |
| RpcFallback.SvmFailureIsFair | packages/core/src/lib/vm-client/svm-client.ts:48-74 | a total failure tries each endpoint exactly once |
| RpcFallback.OneGoodEndpointIsEnough | packages/core/src/lib/push-client/push-client.ts:136-164 | wherever the cursor stands, a call succeeds if one endpoint always answers and only if one ever does; with steady endpoints, iff one of the list answers |
| RpcFallback.StickyCursor | packages/core/src/lib/push-client/push-client.ts:142-146 | with steady endpoints the next call is answered by the URL under the cursor at once |
| RpcFallback.FairRotation | packages/core/src/lib/push-client/push-client.ts:136-139 | c turns visit each URL exactly c times |
| RpcFallback.FiveTurns | packages/core/src/lib/push-client/push-client.ts:152-158 | the longest total wait of five turns |
| RpcFallback.TransientWait | packages/core/src/lib/push-client/push-client.ts:152-158 | the wait after a transient failure in each turn: 200, 400, 800, 1600, then 2000 ms |
| RpcFallback.PlainFailuresWait | packages/core/src/lib/push-client/push-client.ts:152-158 | other failures wait 100 ms each |
| Decimal.FormatTokenUnits | packages/core/src/lib/formatters.ts:3-35 | the printed form, and the errors for negative decimals or precision |
| Decimal.FormatParseRoundTrip | packages/core/src/lib/utils.ts:355-445 | parsing a printed value, negative ones included, gives it back truncated toward zero to the printed decimals |
| Decimal.FormatParseExact | packages/core/src/lib/formatters.ts:18-34 | without a precision it gives the value itself |
| Decimal.TruncateMeaning | packages/core/src/lib/formatters.ts:28-31 | truncation is the multiple of the unit nearest on the side of zero |
| Decimal.OneMoreDecimal | packages/core/src/lib/utils.ts:412-432 | a string that parses with d decimals parses with d+1, to ten times the value |
| Decimal.LoneMinus | packages/core/src/lib/utils.ts:399-432 | a lone minus sign is zero iff the exponent is positive, otherwise an error |
| Decimal.DigitlessIff | packages/core/src/lib/utils.ts:385-432 | a string without a digit is accepted iff it is a minus sign, but for white space, and the exponent is positive; then it is zero |
| DecimalForms.ParseWritten | packages/core/src/lib/utils.ts:399-432 | an optional sign, digits, an optional point and digits, with a digit somewhere, parse to the number they say |
| DecimalForms.ParseTooLong | packages/core/src/lib/utils.ts:419-424 | with more decimals than the exponent they are refused |
| DecimalForms.ParsesOnlyWritten | packages/core/src/lib/utils.ts:399-432 | nothing else parses, but for white space around it and a lone minus sign |
| DecimalForms.SpacesDoNotMatter | packages/core/src/lib/utils.ts:391-397 | white space around the string does not matter |
| DecimalForms.PrintedIsCanonical | packages/core/src/lib/formatters.ts:18-34 | the printed form has a minus sign iff the value is negative, no leading zero, no trailing zero, and no more decimals than allowed |
| ChildInbounds.ChildPreimagesAreUnambiguous | packages/core/src/lib/universal-tx-detector/child-inbounds.ts:91-102 | child preimages are equal iff chain, normalised hash and log index are |
| ChildInbounds.SameHashOffSolana | packages/core/src/lib/universal-tx-detector/child-inbounds.ts:56-63 | off Solana two hashes normalise alike iff they differ at most in a `0x` |
| ChildInbounds.ChildIsNotPc | packages/core/src/lib/universal-tx-detector/child-inbounds.ts:91-115 | no child preimage is a Push preimage |
| ChildInbounds.PcPreimagesAreUnambiguous | packages/core/src/lib/universal-tx-detector/child-inbounds.ts:108-115 | Push preimages are equal iff chain and hash are, up to `0x` |
| ChildInbounds.SpellingsNormalize | packages/core/src/lib/universal-tx-detector/child-inbounds.ts:66-68 | what `0x`-hex, bare hex and base58 of one signature normalise to |
| ChildInbounds.OneKeyIffLowerCase | packages/core/src/lib/universal-tx-detector/child-inbounds.ts:56-69 | the three spellings of a 64-byte signature give one key iff the hex is lower case |
| ChildInbounds.UpperCaseSplitsTheKey | packages/core/src/lib/universal-tx-detector/child-inbounds.ts:66-68 | a signature with two keys |
| ChildInbounds.ResolveChildInboundsFromLogs | packages/core/src/lib/universal-tx-detector/child-inbounds.ts:152-237 | entries and diagnostics of all logs; an undecodable hash throws at the first log that needs a key |
| ChildInbounds.OneEntryPerUsableLog | packages/core/src/lib/universal-tx-detector/child-inbounds.ts:159-236 | exactly one entry per log with a non-negative index |
| ChildInbounds.PositionsAreTheUsable | packages/core/src/lib/universal-tx-detector/child-inbounds.ts:160-166 | those logs, in order, all of them and no others |
| ChildInbounds.EntriesHaveDistinctIds | packages/core/src/lib/universal-tx-detector/child-inbounds.ts:167-171 | within a transaction ids are equal iff log indices are, if the hash does not collide |
| ChildEntries.EntryTellsRecord | packages/core/src/lib/universal-tx-detector/child-inbounds.ts:188-212 | the entry of a record gives its id, log, status, present hashes and, field by field, its outbounds |
| ChildEntries.NotFoundIff | packages/core/src/lib/universal-tx-detector/child-inbounds.ts:172-187 | an entry is not found iff the lookup failed or answered without an id |
| ChildEntries.DiagnosticsAreComplaints | packages/core/src/lib/universal-tx-detector/child-inbounds.ts:160-219 | the diagnostics are the negative indices and the failed lookups, at most one for each log |
| Classify.ClassifyAll | packages/core/src/lib/universal-tx-detector/classify.ts:274-291 | one entry per known log |
| Classify.EntriesKeepTheKnown | packages/core/src/lib/universal-tx-detector/classify.ts:282-290 | the list keeps exactly the known logs, in order |
| Classify.ClassifyAgreesWithAll | packages/core/src/lib/universal-tx-detector/classify.ts:63-99 | UNKNOWN iff the list is empty; otherwise kind, identifiers and primary log are those of the earliest entry with the best event |
| Classify.ResultCarriesLogs | packages/core/src/lib/universal-tx-detector/classify.ts:63-99 | whatever the kind, the result carries all logs and their emitters |
| Classify.BestKindIff | packages/core/src/lib/universal-tx-detector/types.ts:8-13 | the kind is the best documented kind in the list iff no later CEA inbound is hidden by the first inbound |
| Classify.HiddenCeaExample | packages/core/src/lib/universal-tx-detector/classify.ts:38-42 | two receipts with the same logs in another order and different kinds |
| Classify.FlagAgreesWithKind | packages/core/src/lib/universal-tx-detector/classify.ts:115-124 | the decoded flag agrees with the kind iff the argument is a boolean or falsy |
| Classify.PayloadIsSummarised | packages/core/src/lib/universal-tx-detector/classify.ts:235-241 | the preview is a prefix of at most 32 bytes, the length that of the whole payload |
| Classify.EntryRecoversEvent | packages/core/src/lib/universal-tx-detector/events.ts:23-246 | what any of the seven events was emitted with is read back off its entry, up to the fields left out, whatever else the receipt holds |
| Classify.ReceiptRecoversEvents | packages/core/src/lib/universal-tx-detector/classify.ts:274-291 | the list of a receipt gives back each emitted event, in its place |
| Classify.EntryIsLocalIff | packages/core/src/lib/universal-tx-detector/classify.ts:179-187 | an entry is the one its log has alone, unless it is a finalized outbound without an account and an execution names one |
| Classify.EmittersAreDistinct | packages/core/src/lib/universal-tx-detector/classify.ts:64 | the emitters are the addresses of the logs, each once |
| Allowances.BuildExecuteMulticall | packages/core/src/lib/orchestrator/payload-builders.ts:21-135 | the errors exactly; a bare value, then the funds once, then the data; what is sent in total is the value unless it is parked |
| Allowances.BuildOutboundApprovalAndCall | packages/core/src/lib/orchestrator/payload-builders.ts:424-481 | the last call alone sends the request, to the gateway, with all of the native value; the others approve its target on the burnt token, and from any allowances are never refused and leave exactly the burn |
| Allowances.LegsAreSafe | packages/core/src/lib/orchestrator/payload-builders.ts:436-478 | from any allowances, with arbitrary other calls in between, no approval of an outbound is refused, and its call to the gateway finds an allowance for whoever it goes to of exactly its burn |
| Allowances.NoApproveReverts | packages/core/src/lib/orchestrator/payload-builders.ts:436-462 | a list of outbounds alone never reverts on an approval |
| Allowances.EachLegSendsOnce | packages/core/src/lib/orchestrator/payload-builders.ts:464-480 | each outbound request is sent once, in order |
| GasCap.QuoteMaxPCForGasCap | packages/core/src/lib/orchestrator/max-pc-for-gas.ts:61-78 | quotes exactly for non-negative amounts and integer buffers in range; value minus cap is the fee |
| GasCap.QuoteFromNativeValue | packages/core/src/lib/orchestrator/max-pc-for-gas.ts:84-101 | quotes exactly when the value covers a non-negative fee and the buffer is valid |
| GasCap.CapIsLeast | packages/core/src/lib/orchestrator/max-pc-for-gas.ts:117-121 | the cap is the least integer x with 10000x >= amount(10000+bps) |
| GasCap.CapIsMonotone | packages/core/src/lib/orchestrator/max-pc-for-gas.ts:117-121 | the cap grows with amount and buffer |
| GasCap.CapIsBetween | packages/core/src/lib/orchestrator/max-pc-for-gas.ts:103-121 | the cap lies between the amount and twice the amount |
| GasCap.CapIsExactIff | packages/core/src/lib/orchestrator/max-pc-for-gas.ts:117-121 | the cap equals the amount iff amount or buffer is zero |
| GasCap.LegByLeg | packages/core/src/lib/orchestrator/max-pc-for-gas.ts:117-121 | over n legs f(sum) <= sum of f <= f(sum)+n-1 |
| GasCap.LegByLegIsTightIff | packages/core/src/lib/orchestrator/max-pc-for-gas.ts:117-121 | the difference of n-1 is reached iff n is at most 10000 |
| GasCap.QuoteCoversNativeValue | packages/core/src/lib/orchestrator/max-pc-for-gas.ts:84-101 | a quote from a value covers it, by at most the gas leg more, and equals it iff buffer or gas leg is zero |
| GasCap.RequoteIsStable | packages/core/src/lib/orchestrator/max-pc-for-gas.ts:84-101 | quoting a quote's value again without buffer keeps cap and value |
| GasCap.QuoteIsLeast | packages/core/src/lib/orchestrator/max-pc-for-gas.ts:61-78 | cap and value of a quote are the least that cover the gas leg with its buffer, and the fee |
| GasCap.Defaults | packages/core/src/lib/orchestrator/max-pc-for-gas.ts:61-68 | without a buffer the quote is that of ten percent, without a fee that of none |
| GasCap.SlippageToMinAmount | packages/core/src/lib/utils.ts:587-640 | the inputs accepted: an integer slippage in range and an amount that is not blank and reads as an integer |
| GasCap.SlippageIsNearest | packages/core/src/lib/utils.ts:620-632 | the minimum is the integer nearest to what the slippage leaves on the side of zero, for negative amounts too, never larger than the amount |
| GasCap.SlippageReadsBack | packages/core/src/lib/utils.ts:632-634 | the string returned reads as that minimum |
| GasCap.UsdcRoundTrip | packages/core/src/lib/push-client/push-client.ts:221-236 | USDC to PUSH and back is the identity, for negative amounts too |
| GasCap.PushRoundTrip | packages/core/src/lib/push-client/push-client.ts:221-236 | PUSH to USDC and back loses less than 10^11, toward zero, and nothing iff the amount is a multiple |
| GasCap.Worth | packages/core/src/lib/push-client/push-client.ts:221-236 | an amount of PUSH buys b units iff b units cost no more |
| GasCap.OnePush | packages/core/src/lib/push-client/push-client.ts:218-236 | one PUSH is a tenth of a USDC, both ways |

## Left out

- Network, wallet, signing and contract calls: oracles, or labels of the adversary.
- ABI encoding, hashing and base58: call data is structured, hashes are opaque functions, base58 is a codec whose output has no zero digit and is shorter than 128 characters for 64 bytes.
- Route handlers (`_executeMultiChain`, `_executeStandardPayload`, funds flows): arbitrary scripts of events, nested calls, terminal marks and throws.
- The replay buffer of Route 1 (`eventBuffer`) and `attachPerCallHookForWait`: the events are modelled, not the copy kept for later `wait` calls.
- Concurrent top-level `execute` calls, and concurrent users of an RPC cursor: one call at a time, as the code assumes.
- `waitForAll` tracking and the multihop root mapping of progress events.
- The `onNode` callback and the joined string form of visited keys: a key is the pair of chain and lower-cased hash.
- Reference reuse in the normalisers: values are compared, not identities.
- Completeness of a search that was truncated or failed: the code does not provide it.
- CascadeTree.NormalizeNode: the hex of a hash is decoded by an oracle, so malformed hex is not distinguished.
- SvmPayload.LongKeysAreCut: a list with both too long and too short keys, where a short key may keep bytes of a long one before it, is described by `Placed` alone.
- Decimal.ParseUnits: the checks on the dynamic types of its arguments, which the types rule out.
- `formatUnits`, which goes through floating point, and the message-matching `normalizePcInsufficientFundsError` and `collectErrorMessages`.
- ChildInbounds.ResolveChildInboundsFromLogs: a missing list in a chain record is an empty one; the display form of hashes added by `resolveChildInboundsFromDetection` is the rewrite of `CascadeTree`.
- Classify.Classify: the name of a transaction type, a table over its number; arguments that are fractional numbers, on which `BigInt` throws; absent and `undefined` fields are one.
- Allowances.BuildExecuteMulticall: its log messages, and the lookup of token addresses, an optional address here.
- Route validation, token and chain tables, other payload builders, account versions, user interface: finite tables or single branches.
