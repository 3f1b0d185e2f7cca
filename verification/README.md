# faultcore: verified models

faultcore injects network faults. A Python side publishes fault policies into shared memory; a Rust engine,
loaded into the process under test, reads them and decides what happens to every socket call. This project
models the parts of both sides that have state, steps or bit-level arithmetic, and proves what they keep.

| file | what it models |
|---|---|
| `ShmProtocol.dfy` | publishing a configuration row and a rule table, and reading both, as interleaved steps on shared memory |
| `UplinkReorder.dfy`, `DownlinkReorder.dfy`, `Permutations.dfy` | the queue of staged sends and the one-slot swap of receives, over runs of calls |
| `TargetRules.dfy`, `Cidr.dfy`, `StableSort.dfy` | matching target rules, selecting one, merging it, and the registry's sort |
| `RuleApplication.dfy` | the protocol and the selection together |
| `TidSlot.dfy`, `Bits.dfy`, `Powers.dfy` | the thread-id hash in Rust and in Python, with the arithmetic below it |
| `TlsSni.dfy`, `Utf8.dfy` | finding the server name in a TLS ClientHello |
| `FlowControl.dfy`, `BlockingFlow.dfy`, `SessionGuard.dfy`, `ChaosBase.dfy`, `PayloadTransform.dfy` | layer R3, at once and with its delays; layers R1, R2 and R7 |
| `ChaosEngine.dfy`, `Histogram.dfy`, `RecordReplay.dfy` | the pipeline with its counters, delay percentiles, record and replay |
| `Prelude.dfy`, `Layers.dfy` | vocabulary: words, bytes, decisions |

Each component has the source's own form. Objects that update fields are classes whose methods are proved
equal to a function of the old state; loops are methods with invariants; runs are sequences of calls over that
function, and the main lemmas are about all runs. What the rest of the system answers (the engine's decision, a
real send, the clock, a coin) is an input of the call that asks for it.

Where the code does not meet a promise, the model keeps the code and states the exact condition:

* `clear` zeroes the generation word in the middle of a publish. A row is untorn, and rules are applied with the
  row they were published with, in all runs exactly when the row was first read at another generation than zero;
  there are runs in which a torn row is read, and even applied.
* A queued send whose result the code ignores can be lost, and so is a send of nothing that is staged, although
  its caller is told 0, which is success. What was accepted is what was delivered and what is still queued
  exactly when the kernel refused no queued send and no send of nothing was staged. `close` drops the queue.
* Sends of nothing, and sends made without a configuration, overtake staged datagrams without limit. For every
  configuration, the bound on overtaking holds over a class of runs exactly when the class has neither.
* A swap that takes an empty datagram second takes it for none. Every datagram taken from the kernel is handed
  over or set aside exactly when no swap does so.
* A receive made without a configuration bypasses a datagram set aside. The order of arrival is changed by
  exchanges of neighbours only exactly when no such receive bypasses a datagram already overtaken.
* `docs/shm_protocol.md` says equal priorities go by registration order. The code looks at the match class
  first, so this holds exactly when no later rule of that priority matches more specifically.
* A shortfall of tokens can round to a delay of zero and pass unpaid. Of the requests continued at once, from an
  empty bucket and at one rate throughout, the token bucket enforces its rate exactly at rates of at most 10^9
  and at 2, 4 and 8 times 10^9. From every fill up to the burst, and for the highest of rates that change from
  request to request, it does so exactly at rates of at most 10^9.
* A delayed request on a blocking socket is sent after its delay without being charged. Counting every request
  when it is released, over all runs of a class of requests, the rate is enforced exactly if the class has only
  empty ones, or none delayed and the rate is one of those above; single delayed bytes already exceed every rate.
* A byte budget of 2^64-1 can never be exceeded by the saturating counter that is compared with it. An unknown
  session action refuses nothing, but `is_valid` keeps it out of every row that is read
  (faultcore_network/src/shm_contract.rs:177).

## Model

| member | source | states |
|---|---|---|
| `ShmProtocol.RunKeepsInv` | faultcore_network/src/shm_runtime.rs:338-381 | every interleaving of one writer's publishes with one reader's reads keeps the protocol invariant |
| `ShmProtocol.StableReadIsUntorn` | faultcore_network/src/shm_runtime.rs:338-359 | a row a stable read returns, generation word included, is one completely published row, of the generation read first, if that was not zero or no `clear` was begun |
| `ShmProtocol.ReadsAreUntornExactlyAfterZero` | faultcore_network/src/shm_runtime.rs:338-359 | for every generation, the rows first read at it are untorn in all runs if and only if it is not zero |
| `ShmProtocol.AppliedRulesAreInLockstep` | faultcore_network/src/interceptor_bridge.rs:379-422 | rules read without a lock and then applied are those of the very publish of the configuration they are merged into, if that was first read at another generation than zero or no `clear` was begun; and they are found within three rounds |
| `ShmProtocol.LockstepHoldsExactlyAfterZero` | faultcore_network/src/interceptor_bridge.rs:379-422 | for every generation, what is applied to rows first read at it is in lockstep in all runs if and only if it is not zero |
| `RuleApplication.MergedRuleIsThePublishedBest` | faultcore_network/src/interceptor_bridge.rs:391-419 | in every run the rule merged into a configuration is the best match in the table published with that configuration (first generation not zero), and the merged configuration has the rule's target fields, no targets left, and every other field as published |
| `ShmProtocol.UndisturbedReadReturnsTheRow` | faultcore_network/src/shm_runtime.rs:338-359 | with no publish under way a read returns the row as it stands, at its first attempt |
| `ShmProtocol.UndisturbedReaderAppliesTheRules` | faultcore_network/src/interceptor_bridge.rs:391-419 | with no publish under way the rules are applied in the first round |
| `ShmProtocol.PublishedCanBeApplied` | src/faultcore/shm_writer.py:234-244 | from every run, whatever row with targets and whatever table are published next can be read and applied, under a generation later than all before |
| `ShmProtocol.RefreshedReaderAppliesTheNewRules` | faultcore_network/src/interceptor_bridge.rs:396-403 | a reader that finds another row than the one it holds, and is not disturbed again, applies the new row with its rules in the next round |
| `ShmProtocol.ExhaustedOnlyByPublishes` | faultcore_network/src/interceptor_bridge.rs:391-422 | a reader gives up on the rules only after four stable reads of different generations: each of its three rounds saw the generation in memory move, unless it began with a row read at generation zero, and without a `clear` saw a publish completed |
| `ShmProtocol.UnavailableOnlyIfDisturbed` | faultcore_network/src/shm_runtime.rs:338-359 | a row is unavailable only if a stable copy was rejected or ten attempts of one read each met an odd or a moving generation |
| `ShmProtocol.UntargetedHasNone` | faultcore_network/src/interceptor_bridge.rs:392-394 | only a row without targets is reported as having none, and it was published so, if first read at another generation than zero or no `clear` was begun |
| `ShmProtocol.ClearCanTearARead` | src/faultcore/shm_writer.py:817-824 | a reachable run in which the zeroing inside `clear` makes a reader return half of each of two rows |
| `ShmProtocol.ClearCanApplyATornRow` | src/faultcore/shm_writer.py:817-824 | a reachable run in which two of them make it apply such a row |
| `UplinkReorder.UplinkConservation` | faultcore_interceptor/src/lib.rs:526-622 | over every run each accepted datagram was delivered (apart from duplicates), refused as a queued send, or is queued, forgotten when staged empty, or is queued, once and in order; the accepted payloads are those delivered and those queued if and only if no queued send was refused and no empty one staged |
| `UplinkReorder.AcceptedIsReported` | faultcore_interceptor/src/lib.rs:526-622 | the accepted payloads are exactly those of the calls that returned no error, in order |
| `UplinkReorder.RefusedSendsOnlyFlush` | faultcore_network/src/runtime.rs:467-500 | a configured send decided to be dropped, timed out, failed, or still delayed on a non-blocking socket returns -1, accepts nothing, and sends the expired datagrams only |
| `UplinkReorder.StagedSendsJoinTheQueue` | faultcore_interceptor/src/lib.rs:590-600 | a staged send succeeds, with its bytes, flags and address as given or mutated, and is last in the queue unless it is empty |
| `UplinkReorder.OtherSendsReachTheKernel` | faultcore_interceptor/src/lib.rs:600-621 | every other send reaches the kernel after the expired datagrams, with its bytes, flags and address as given or mutated, is accepted if and only if the kernel takes it, and is duplicated if it was counted |
| `UplinkReorder.ARefusedQueuedSendIsLost` | faultcore_interceptor/src/lib.rs:223-239 | a run whose staged datagram is refused on release: accepted, not delivered, not queued |
| `UplinkReorder.AStagedEmptySendIsLost` | faultcore_interceptor/src/lib.rs:1103-1118 | whatever the configuration, a staged send of nothing returns 0 and is neither sent nor queued |
| `UplinkReorder.CloseLosesTheQueue` | faultcore_interceptor/src/lib.rs:734-749 | after a close everything accepted was delivered if and only if, besides, nothing was queued |
| `UplinkReorder.BoundedOvertaking` | faultcore_interceptor/src/lib.rs:588-621 | a staged datagram is overtaken by at most as many sends that release the queue as the queue limit it was staged under, staged ones never overtake each other, and the queue never exceeds that limit |
| `UplinkReorder.FixedConfigBoundsOvertaking` | faultcore_network/src/runtime.rs:405-429 | with one fault configuration throughout and no empty sends, at most max(1, window) later datagrams overtake a staged one and at most that many are queued |
| `UplinkReorder.OvertakingBoundHolds` | faultcore_interceptor/src/lib.rs:526-622 | for every configuration, the bound holds over all runs of a class of calls if and only if the class has no empty sends and no calls without the configuration |
| `UplinkReorder.FlushTakesExactlyTheExpired` | faultcore_network/src/runtime.rs:384-403 | the prefix flush removes exactly the expired datagrams, since they were staged in clock order |
| `UplinkReorder.WireIsDelivered` | faultcore_interceptor/src/lib.rs:608-619 | every datagram handed to the kernel was taken if and only if it refused no queued send, which is read off its answers to the calls |
| `UplinkReorder.FreeSendsOvertakeWithoutBound` | faultcore_interceptor/src/lib.rs:604-621 | whatever the window, empty sends and sends made without a configuration overtake a staged datagram any number of times |
| `UplinkReorder.FlushExpiredReorder` | faultcore_network/src/runtime.rs:384-403 | the flush loop takes the expired prefix, with the clock read anew at every test |
| `UplinkReorder.EnforceReorderWindow` | faultcore_network/src/runtime.rs:405-418 | the window loop takes the oldest datagrams beyond max(1, window) and leaves the rest |
| `UplinkReorder.Descriptor.HandleUplinkSend` | faultcore_interceptor/src/lib.rs:526-622 | one intercepted send, in place, is one step of the run model, with its result |
| `UplinkReorder.Descriptor.StageReorderSend` | faultcore_interceptor/src/lib.rs:592-600 | staging and enforcing the window, in place |
| `UplinkReorder.Descriptor.Close` | faultcore_network/src/runtime.rs:274-278 | closing drops the queue, in place |
| `DownlinkReorder.DownlinkConservation` | faultcore_interceptor/src/lib.rs:625-714 | over any run every datagram taken from the kernel, empty ones included, is handed over, set aside or swallowed by a swap, once, and at most one is set aside; they are those handed over and set aside if and only if no swap takes an empty datagram second |
| `DownlinkReorder.AnEmptySecondIsSwallowed` | faultcore_interceptor/src/lib.rs:657-669 | a swap that takes two datagrams, the second of them empty, and hands over one |
| `DownlinkReorder.CloseLosesTheOneSetAside` | faultcore_interceptor/src/lib.rs:734-749 | after a close every datagram taken was handed over if and only if, besides, none was set aside |
| `DownlinkReorder.DownlinkOrder` | faultcore_interceptor/src/lib.rs:625-714 | of the datagrams not swallowed, delivery differs from arrival by disjoint exchanges of neighbours if and only if no receive made without a configuration bypasses a datagram already overtaken |
| `DownlinkReorder.DownlinkSwapsNeighboursOnly` | faultcore_interceptor/src/lib.rs:641-687 | while the configuration is kept, delivery differs from arrival by disjoint exchanges of neighbours |
| `DownlinkReorder.SwapsDisplaceByOne` | faultcore_interceptor/src/lib.rs:657-673 | such an order moves no datagram by more than one place |
| `DownlinkReorder.NonBlockingKeepsOrder` | faultcore_interceptor/src/lib.rs:674-687 | on non-blocking sockets the order of arrival is kept |
| `DownlinkReorder.DownlinkKeepsBytes` | faultcore_network/src/runtime.rs:125-138 | every datagram arrives byte for byte, or is set aside so, if and only if no receive has too small a buffer, mutates what it hands over, or swallows an empty one |
| `DownlinkReorder.LargeBuffersKeepBytes` | faultcore_network/src/runtime.rs:125-138 | with mutation off and every buffer as large as the largest datagram, that is so if and only if no swap takes an empty datagram second |
| `DownlinkReorder.UnconfiguredReceivesBreakTheOrder` | faultcore_interceptor/src/lib.rs:711-713 | a run in which a receive without configuration breaks the neighbour-swap order |
| `DownlinkReorder.RefusedReceivesTakeNothing` | faultcore_network/src/runtime.rs:467-500 | a configured receive decided to be dropped, timed out, failed, or still delayed on a non-blocking socket returns -1 and takes nothing from the kernel, if nothing is set aside |
| `DownlinkReorder.TheOneSetAsideComesFirst` | faultcore_interceptor/src/lib.rs:641-644 | with a configuration the datagram set aside is handed over before anything is decided |
| `DownlinkReorder.OtherReceivesTakeOne` | faultcore_interceptor/src/lib.rs:674-714 | every other receive that stages nothing takes the next datagram and hands it over, mutated only under a configuration |
| `DownlinkReorder.StagedBlockingSwaps` | faultcore_interceptor/src/lib.rs:657-666 | a staged receive on a blocking socket takes two datagrams and hands over the second |
| `DownlinkReorder.StagedNonBlockingSetsAside` | faultcore_interceptor/src/lib.rs:674-682 | a staged receive on a non-blocking socket sets its datagram aside and returns -1 |
| `DownlinkReorder.StagedAloneIsHandedOver` | faultcore_interceptor/src/lib.rs:657-687 | a staged receive with nothing to swap with hands over the one datagram it takes |
| `DownlinkReorder.Descriptor.HandleDownlinkRecv` | faultcore_interceptor/src/lib.rs:625-714 | one intercepted receive, in place, is one step of the run model, with its result |
| `DownlinkReorder.Descriptor.Close` | faultcore_network/src/runtime.rs:274-278 | closing drops the datagram set aside, in place |
| `TlsSni.TlsClientHelloSni` | faultcore_interceptor/src/lib.rs:416-511 | for every byte string the cursor-based parser terminates in bounds and returns the name the nested vectors mean |
| `TlsSni.SerializedHelloIsRead` | faultcore_interceptor/src/lib.rs:416-511 | every serialized ClientHello, with any fields, extensions and trailing bytes, is read as announcing the normalized first host name of its first server_name extension |
| `TlsSni.TestRecordIsRead` | faultcore_interceptor/src/lib.rs:1384-1414 | the record that function builds is read back for every host |
| `TlsSni.CleanHostIsReadBack` | faultcore_interceptor/src/lib.rs:1384-1414 | the record built around any text without blanks or dots to trim is read as that text with `A` to `Z` in lower case |
| `Utf8.NormalizedName` | faultcore_interceptor/src/lib.rs:500-502 | a name comes of host bytes if and only if they are UTF-8 for blanks, a part that is not empty, dots and blanks, with as much as possible trimmed, and it is that part with `A` to `Z` in lower case |
| `Utf8.NamesAreLowercase` | faultcore_interceptor/src/lib.rs:500-502 | no name is empty, ends in a dot or holds an upper-case ASCII letter |
| `Utf8.WhitespaceIs` | faultcore_interceptor/src/lib.rs:500-502 | what is trimmed are the 25 characters of the Unicode White_Space property |
| `Utf8.DecodeEncoded` | faultcore_interceptor/src/lib.rs:416-511 | the UTF-8 check on a name accepts every encoded text and recovers it |
| `Utf8.EncodeDecoded` | faultcore_interceptor/src/lib.rs:416-511 | whatever the check accepts is the encoding of what it decodes to, so nothing overlong or malformed passes |
| `Cidr.PrefixMatchIsNumericPrefix` | faultcore_network/src/interceptor_bridge.rs:312-326 | the byte-and-mask test holds if and only if the two addresses agree as big-endian numbers after dropping the bits past the prefix |
| `Cidr.BigEndianFirst` | faultcore_network/src/interceptor_bridge.rs:312-326 | the number meant by the bytes of an address counts its first byte most |
| `Cidr.LongerPrefixImpliesShorter` | faultcore_network/src/lib.rs:509-523 | an address inside a network is inside every larger network around it |
| `TargetRules.WildcardMatchesSubdomains` | faultcore_network/src/interceptor_bridge.rs:213-224 | a wildcard takes exactly the names that put labels and a dot before its suffix |
| `TargetRules.MatchClassRanks` | faultcore_network/src/interceptor_bridge.rs:258-310 | server names outrank host names, host names outrank addresses, and exact names outrank wildcards |
| `TargetRules.NameRuleMatches` | faultcore_network/src/interceptor_bridge.rs:258-288 | a rule with a name matches if and only if it is an enabled name rule with one name, which takes the observed name, and any port or protocol it asks for is met by a known endpoint |
| `TargetRules.AddressRuleMatches` | faultcore_network/src/interceptor_bridge.rs:290-310 | a rule without a name matches if and only if the endpoint is in range, in its family, and equal to its address or within its network, as numbers |
| `TargetRules.SelectBest` | faultcore_network/src/interceptor_bridge.rs:328-353 | the loop returns the first greatest matching rule by (priority, class), and nothing if and only if no rule matches |
| `TargetRules.SelectBestTargetRule` | faultcore_network/src/interceptor_bridge.rs:328-353 | the same for the source's classes, among the first `count` rules |
| `TargetRules.SelectionIsTheScan` | faultcore_network/src/interceptor_bridge.rs:328-353 | every selection meeting that contract is the rule a left-to-right scan ends with, so it is unique |
| `TargetRules.SelectionIgnoresOrderAcrossPriorities` | src/faultcore/policy_registry.py:189-203 | selection depends only on the order of the rules within each priority |
| `TargetRules.SelectionSurvivesRegistrySort` | src/faultcore/policy_registry.py:199-203 | selecting from the registry's sorted table and from registration order gives the same rule |
| `StableSort.SortIsDescending` | src/faultcore/policy_registry.py:199-203 | the sort loses and adds nothing and never raises a priority |
| `StableSort.SortIsStable` | src/faultcore/policy_registry.py:199-203 | rules of one priority keep their order |
| `TargetRules.DocumentedTieBreak` | docs/shm_protocol.md:161-164 | the documented rule is selected if and only if no later rule of its priority has a higher match class |
| `TargetRules.RegistrationOrderCanLose` | faultcore_network/src/interceptor_bridge.rs:341-347 | a wildcard registered before a name it takes, at equal priority: the later rule is selected |
| `TargetRules.TargetNameRoundTrip` | src/faultcore/target_name_helpers.py:39-45 | the name Python pads into a row is the name Rust reads from it |
| `TargetRules.ApplyMultiTarget` | faultcore_network/src/interceptor_bridge.rs:379-422 | at most three rounds; the rule merged is the best of a table read in a round that began and ended with one generation, merged into the configuration of that generation (the rule's target fields, no targets left, the generation and fault fields kept), and the final filter lets the result through with the schedule applied |
| `TargetRules.SingleTargetMatches` | faultcore_network/src/lib.rs:330-358 | a single target concerns exactly the known endpoints of its protocol, port and family with its address or within its network, as numbers; one of kind 0 concerns all |
| `Bits.XorBits` | faultcore_network/src/shm_runtime.rs:34-37 | the exclusive or of the model is the bitwise one |
| `TidSlot.RustAndPythonAgree` | src/faultcore/shm_writer.py:208-210 | wrapping words of any width from 16 bits and unbounded integers hash every thread id to the same row |
| `TidSlot.SlotIsBijectiveOnBlock` | faultcore_network/src/shm_runtime.rs:34-37 | on every aligned block of 65536 thread ids the hash has a two-sided inverse |
| `FlowControl.WindowConforms` | faultcore_network/src/layers/r3_flow_control.rs:31-102 | at the rates that pay for every shortfall, the requests continued at once in every window of every run carry at most twice the rate plus the rate times its length, in bits |
| `FlowControl.EmptyBucketConforms` | faultcore_network/src/layers/r3_flow_control.rs:31-102 | from an empty bucket at a fixed rate that bound on the requests continued at once holds over all runs if and only if the rate is at most 10^9 or is 2, 4 or 8 times 10^9 |
| `FlowControl.EveryFillConforms` | faultcore_network/src/layers/r3_flow_control.rs:88-101 | from every fill up to the burst that bound, on the same requests, holds if and only if the rate is at most 10^9 |
| `FlowControl.MixedRatesConform` | faultcore_network/src/layers/r3_flow_control.rs:69-86 | at rates that change from request to request, that bound at the highest of them holds over all runs from an empty bucket if and only if the highest is at most 10^9 |
| `BlockingFlow.BlockingRateIsEnforced` | faultcore_network/src/runtime.rs:479-487 | counting every request at its release, delayed or not, the bound holds over all runs of a class of requests if and only if they are empty, or none is delayed and the rate pays for every shortfall |
| `BlockingFlow.DelayedBytesFail` | faultcore_network/src/layers/r3_flow_control.rs:88-101 | at every rate that pays for shortfalls there are runs of single bytes whose delayed releases exceed it |
| `BlockingFlow.FreeShortfallsFail` | faultcore_network/src/layers/r3_flow_control.rs:88-101 | at rates at which a shortfall can be free, single bytes exceed the rate without any delay |
| `FlowControl.RateChangeDefeatsFastRates` | faultcore_network/src/layers/r3_flow_control.rs:69-86 | one empty request at another rate leaves an empty bucket with a fill from which every rate above 10^9 is exceeded |
| `FlowControl.IdleBucketGrantsTheBurst` | faultcore_network/src/layers/r3_flow_control.rs:31-68 | after two idle seconds any request up to the whole burst passes and is charged |
| `FlowControl.RetryAfterTheDelayPasses` | faultcore_network/src/layers/r3_flow_control.rs:88-101 | a delayed request that fits the burst passes when tried again after the announced delay |
| `FlowControl.RefillBound` | faultcore_network/src/layers/r3_flow_control.rs:31-48 | a refill adds no more than was earned since the last one and stops at the capacity, for all the rounding |
| `FlowControl.R3FlowControl.TryAcquire` | faultcore_network/src/layers/r3_flow_control.rs:50-68 | refill and the compare-and-exchange loop take exactly the tokens needed or none, however often the exchange fails |
| `FlowControl.R3FlowControl.ProcessWithBytes` | faultcore_network/src/layers/r3_flow_control.rs:69-102 | one request, in place, is one step of the run model, with its decision |
| `SessionGuard.OpsBudgetHolds` | faultcore_network/src/layers/r1_session_guard.rs:67-94 | a limit on operations holds over all sessions if and only if the budget is enabled with a known action |
| `SessionGuard.BytesBudgetHolds` | faultcore_network/src/layers/r1_session_guard.rs:71-94 | a limit on bytes holds over all sessions if and only if, besides, it is below 2^64-1 or only one operation is allowed |
| `SessionGuard.FrugalSessionsAreNeverRefused` | faultcore_network/src/layers/r1_session_guard.rs:49-94 | a session within all its limits is never refused, and its counters hold what it used |
| `SessionGuard.AdmittedExactlyWithinLimits` | faultcore_network/src/layers/r1_session_guard.rs:49-94 | under a known action the sessions admitted throughout are exactly those within the limits and in time |
| `SessionGuard.RefusalsAreExact` | faultcore_network/src/layers/r1_session_guard.rs:27-95 | a call is refused if and only if time, operations or bytes have run out; the refusal is what the action asks for and leaves the session as it is |
| `SessionGuard.TimeRunsOut` | faultcore_network/src/layers/r1_session_guard.rs:60-66 | time is up if and only if the limit in milliseconds has passed, or the whole range of the clock has |
| `SessionGuard.ExhaustionIsPermanent` | faultcore_network/src/layers/r1_session_guard.rs:60-69 | once time or operations have run out, every later call is refused and the session stays as it is |
| `SessionGuard.ByteRefusalIsPermanentAtItsSize` | faultcore_network/src/layers/r1_session_guard.rs:71-83 | a size refused for its bytes stays refused, with every larger one, whatever comes between |
| `SessionGuard.R1SessionGuard.Precheck` | faultcore_network/src/layers/r1_session_guard.rs:40-95 | one check, in place, is one step of its descriptor's session; other descriptors are untouched |
| `SessionGuard.R1SessionGuard.ClearFdState` | faultcore_network/src/layers/r1_session_guard.rs:97-102 | clearing forgets one session and touches no other |
| `ChaosBase.FreshLossBeginsABurst` | faultcore_network/src/layers/r2_chaos_base.rs:156-181 | a fresh loss begins exactly max(1, length) drops, during which no coin is flipped and the loss model stands still |
| `ChaosBase.LossFollowsTheModel` | faultcore_network/src/layers/r2_chaos_base.rs:76-99 | outside a burst the two-state model moves first, and the loss probability is that of the state it moved to, or the plain one if it is off |
| `ChaosBase.PartsPerMillion` | faultcore_network/src/layers/r2_chaos_base.rs:65-74 | of every million rolls in a row an event happens on as many as its probability says |
| `ChaosBase.InterleavingProjects` | faultcore_network/src/layers/r2_chaos_base.rs:76-99 | any interleaved run over the shared maps is, for each descriptor, the run of an automaton of its own |
| `ChaosBase.BurstsSurviveInterleaving` | faultcore_network/src/layers/r2_chaos_base.rs:156-188 | bursts run to their end in each descriptor's own sequence, whatever the others do |
| `ChaosBase.R2ChaosBase.Process` | faultcore_network/src/layers/r2_chaos_base.rs:156-188 | one operation, in place, is one step of the interleaved model, with its decision |
| `ChaosEngine.FirstTerminalDecides` | faultcore_network/src/chaos_engine.rs:191-229 | the pipeline's verdict is the first terminal decision as reported, or else the sum of the delays capped at 2^64-1 |
| `ChaosEngine.OnlyConcernedLayersDecide` | faultcore_network/src/layers/r3_flow_control.rs:109-111 | what layers that do not apply would say changes neither the verdict nor the counters |
| `ChaosEngine.StagesConcerned` | faultcore_network/src/chaos_engine.rs:191-229 | a connection asks R2, R4 and R5, a transfer R2 to R5 and a lookup R6 only: there, and nowhere else, a lone answer decides or delays, and is counted as what it is |
| `ChaosEngine.StreamsAskFourStages` | faultcore_network/src/chaos_engine.rs:248-292 | a stream evaluation in either direction asks R2 to R5, after R1 and before R8 |
| `ChaosEngine.RunConserves` | faultcore_network/src/chaos_engine.rs:53-71 | after any sequence of evaluations and resets, R2 counts what R0 admits and R1 does not refuse, and each of R3 to R6 counts what the stage before let go on |
| `ChaosEngine.ChaosEngine.ProcessPipeline` | faultcore_network/src/chaos_engine.rs:191-229 | the loop returns that verdict and records one entry for every stage reached, none beyond |
| `ChaosEngine.ChaosEngine.EvaluateStreamPre` | faultcore_network/src/chaos_engine.rs:248-292 | a stream evaluation records R0, R1, the pipeline and R8 as reached, and keeps the counters balanced |
| `ChaosEngine.ChaosEngine.EvaluateConnect` | faultcore_network/src/chaos_engine.rs:231-246 | a connection records R0 and the pipeline, returns the verdict, and keeps the counters balanced |
| `ChaosEngine.ChaosEngine.EvaluateDnsLookup` | faultcore_network/src/chaos_engine.rs:310-324 | the same for a lookup |
| `PayloadTransform.ApplyMutation` | faultcore_network/src/layers/r7_payload_transform.rs:125-210 | each mutation yields what it means (a mask added, the leftmost match replaced, and so on), and nothing unless the result fits and differs |
| `PayloadTransform.Corrupt` | faultcore_network/src/layers/r7_payload_transform.rs:135-146 | the corruption loop adds a mask that depends on length, count and seed but not on the data |
| `PayloadTransform.RepeatingRestores` | faultcore_network/src/layers/r7_payload_transform.rs:135-146 | corrupting twice, and swapping twice, restores the buffer |
| `PayloadTransform.CutUndoesInject` | faultcore_network/src/layers/r7_payload_transform.rs:147-161 | cutting the injected span restores the buffer |
| `PayloadTransform.WhatMutationsKeep` | faultcore_network/src/layers/r7_payload_transform.rs:125-210 | truncation keeps the front, a broken encoding spoils the first byte only, a swap exchanges two places only |
| `PayloadTransform.SeedIsRecovered` | faultcore_network/src/layers/r7_payload_transform.rs:121-123 | every state of the generator tells the seed it came from |
| `PayloadTransform.ReplaceChangesLeftmost` | faultcore_network/src/layers/r7_payload_transform.rs:162-186 | only the leftmost occurrence changes, and putting the pattern back restores the buffer |
| `PayloadTransform.EffectIffApplicable` | faultcore_network/src/layers/r7_payload_transform.rs:125-210 | for each mutation, the exact condition under which it takes effect |
| `Histogram.HistogramRefinesSortedList` | faultcore_network/src/observability.rs:211-231 | the percentile of the histogram is the least bucket bound at or above the nearest-rank value of the sorted samples, or the last bound |
| `Histogram.BoundInMilliseconds` | faultcore_network/src/observability.rs:7-16 | the bound reported for a value is the least of 1, 5, 10, 50, 100, 250, 500 and 1000 milliseconds not below it, and a second above that |
| `Histogram.NoSamplesNoDelay` | src/faultcore/reporting/core.py:136-141 | without samples the percentiles of the report and of the histogram are zero |
| `Histogram.PercentilesAreOrdered` | faultcore_network/src/observability.rs:211-231 | a higher percentile is never reported lower, whatever the counters hold |
| `Histogram.CountOfAscending` | src/faultcore/reporting/core.py:136-141 | the k-th of the sorted values is at most b if and only if k values are |
| `Histogram.PercentileFromHistogram` | faultcore_network/src/observability.rs:211-231 | the walk finds the first bucket at which the saturating total reaches the rank |
| `Histogram.AdvancedMetrics.RecordDelayNs` | faultcore_network/src/observability.rs:146-156 | recording adds one sample to the samples the counters count, the delay counter with them |
| `Histogram.AdvancedMetrics.Snapshot` | faultcore_network/src/observability.rs:233-243 | p50, p95 and p99 are ordered and are the sorted list's percentiles rounded up to bounds |
| `RecordReplay.RoundTrip` | faultcore_network/src/record_replay.rs:28-68 | a decision written as an event is read back with mutations turned into continue and error texts collapsed |
| `RecordReplay.RoundTripIsExactFor` | faultcore_network/src/record_replay.rs:28-68 | a decision survives unchanged if and only if it is not a mutation and not an error with another text |
| `RecordReplay.ReadAndWritten` | faultcore_network/src/record_replay.rs:28-68 | an event read and written again is unchanged if and only if it is no mutation and carries no value its decision has no use for |
| `RecordReplay.ReplayFollowsTheRecording` | faultcore_network/src/record_replay.rs:90-127 | replaying any events over any calls gives the recorded decisions up to the first call they do not answer, and the fail-fast error ever after |
| `RecordReplay.ReplayOfARecordedRun` | faultcore_network/src/record_replay.rs:90-127 | replaying a recorded run over the same sites returns every decision as far as it survives recording, whatever the engine would decide now |
| `RecordReplay.RecordReplayCore.EvaluateOrReplay` | faultcore_network/src/record_replay.rs:90-127 | one evaluation, in place, is one step of the run model; in replay the engine is not asked |

## Left out

- Weak memory, several writers to one row at a time, and a generation that wraps: the protocol is modelled on
  sequentially consistent memory with one writer and an unbounded generation word. It is a relation over steps
  and not a class, because its claims are about every interleaving of them.
- A row is cut into cells that are read and written at once; field ranges other than the magic and the number of
  rules are the reader's free choice to reject.
- Removing an empty queue from the map of descriptors, which is not atomic: one descriptor, used by one thread.
- A receive under MSG_PEEK leaves the datagram with the kernel, so a swap hands one over twice: every real receive
  of the model takes what it returns, and -1 stands for an error or the end of a stream.
- A close ends a run: only the two lemmas about it look past the last call.
- Delayed requests count in `BlockingFlow.dfy` only, at one rate and on blocking sockets. On others the caller is
  told to try again, and how the descriptor's own waiting time lets such a request through later is not modelled.
- Null buffers, socket metadata, the libc and TLS library hooks, and the errno values.
- Concurrent refills of one bucket and the rounding of floating point: the bucket is sequential and exact, and a
  capacity that is not whole is rounded down, as the stored tokens are.
- Counters that wrap past 2^64-1: the counters of ChaosEngine are unbounded, those of AdvancedMetrics are exact
  as long as the number of samples fits a word.
- Histogram.HistogramRefinesSortedList: assumes the product of sample count and percentile fits a word, because
  the source saturates it there.
- Random numbers, including the seeded generator of R2 and the duplicate count drawn from it: coin outcomes are
  inputs.
- Layers R4, R5 and R6, and the gates in front of a payload mutation: what they decide is an input.
- The most-hit target rules of a snapshot, what a schedule does to the fault fields, the observed host names and their expiry.
- Parsing rates, durations, ports, host names and targets, and the rest of the Python interface and its reports;
  files, JSON and compression around record and replay.
