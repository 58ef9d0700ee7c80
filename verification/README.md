# A Dafny model of httpjail's stateful protocols

httpjail runs a command in a network jail and decides every HTTP request with a rule engine. Most of
it is plumbing; this project models the parts whose correctness depends on interleavings, crashes,
restarts or streams, and proves properties of all their runs.

`dafny verify dfyconfig.toml` checks the whole project.

## The parts

**The canary protocol** (`Resources`, `Lease`, `LeaseRuns`, `LeaseSafety`, `LeaseTiming`,
`LeaseCanary`, `LeaseRecovery`, `LeaseHeartbeat`, `ManagedJail`). Every jail keeps a canary file fresh for as long as
it owns operating-system resources; every other instance scans for stale canaries, frees the
resources of their owners and removes the file. `Lease` is a transition system over any number of jails and scanners, with the main
thread, the heartbeat thread and the scanner of each process at the granularity of single file
operations, file operations that fail, a crash of any jail or scanner at any point, and a clock that
may jump. Every theorem is about one jail and asks nothing of the others. Two different times decide
two different properties. That a live jail is not reaped rests on the age of its canary: `LeaseTiming`
derives it from how long its threads may stay at each point, and shows the bound to be exact. That its
resources are never without a canary rests on the length of its inner setup alone: `LeaseCanary`. That
an ended jail is recovered rests on no time at all: `LeaseRecovery`. `LeaseHeartbeat` is what keeps a
running jail's canary fresh when touches fail. `ManagedJail` is the owner object with its heartbeat, and the scan loop, without
interference from other processes.

**Hot reload of JavaScript rules** (`HotReload`, `V8Engine`). Any number of workers, one lock, one
atomic (code, mtime) pair, and a writer that changes the rule file at any moment. What is executed is
never stale, and every evaluation can finish.

**The line processor** (`ProcEngine`, `RuleResponse`, `RequestFraming`, `Json`, `JsonGrammar`,
`JsonPrint`, `Decimal`, `Hex`). A child process that is restarted when anything goes wrong, one request
line and one reply line per exchange, one retry; the JSON text on both sides, with a reader that is
proved to accept exactly the grammar of RFC 8259.

**The namespace ruleset** (`Egress`). The two chains as data, an interpreter for them, and connection
tracking, over traces of packets, replies and expirations.

**Upstream limits and loops** (`LimitedBody`, `ByteLimit`, `Headers`, `LoopPrevention`). The
truncating body wrapper, its composition with header accounting and with the rule's reply, and chains of proxies.

**Resources, addresses, arguments** (`LinuxJail`, `Subnet`, `DockerArgs`). Setup with every failure
point, teardown by handle and by name, the address plan, and the rewriting of `docker run` arguments.

## Assumptions

- Jail ids are unique; a jail id that was used is never used again.
- In the canary protocol, an inner cleanup that returns Ok has freed its resources.
  `LinuxJail.CleanupFreesIff` says exactly when that is true of the Linux jail, whose cleanup always
  returns Ok.
- Distinct states of the rule file have distinct modification times, and the engine starts with a
  code and a modification time read from one state. `HotReload.StartingPairIsCurrentIff` says exactly
  what the second half is needed for.
- An evaluation of the line processor runs to its end; a pipe is first-in first-out; a well-behaved
  child prints one line per request.
- What a limited body has handed on plus its next frame is below 2^64; so it is for every body
  shorter than that (`LimitedBody.ShortBodiesFit`).

## Where the code and its documentation differ

- `src/jail/managed.rs:98-100` says that a canary is never deleted unless the resources are certainly
  gone. Explicit cleanup deletes it whatever the inner cleanup returned
  (`ManagedJail.ExplicitCleanupKeepsLeaseIff`), and the Linux cleanup returns Ok even when deletions
  fail (`LinuxJail.CleanupFreesIff`). A scanner can also remove the canary of a jail whose setup has
  returned Ok, exactly when that setup may outlast the orphan timeout (`LeaseCanary.LeaseHoldsIff`).
- `src/jail/linux/resources.rs:205-212` calls the unmount at the target of resolv.conf idempotent. Every
  cleanup of a netns directory takes one more mount off it, whoever made it (`LinuxJail.Lifetime`).
- `docs/advanced/request-body-limiting.md` says that the limit applies to complete requests. Headers
  are always sent in full (`ByteLimit.LimitCoversWholeRequestIff`).
- `src/jail/linux/docker.rs:384` speaks of Docker's arguments; the filter also runs over the
  container's own command (`DockerArgs.FilterChangesNothingIff`), and does not know the alias `--net`,
  with which the container gets a second network (`DockerArgs.OnlyOwnNetworkIff`).
- The listed options of `src/jail/linux/docker.rs:283-284` are not all that take a value, so the value of
  another one can be taken for the image (`DockerArgs.UnlistedValueIsImageIff`).
- `src/proxy.rs:39` speaks of comma-separated nonces; the code appends separate header values, and
  so does the model. An intermediary that joins them into one value as that comment suggests defeats
  the loop check (`LoopPrevention.JoinedHidesNonceIff`).

## Model

| member | source | states |
|---|---|---|
| LeaseSafety.JailStepKeepsSlotInv | src/jail/managed.rs:224-301 | every step of the owner and its heartbeat keeps: a live jail has a canary and has not been told to stop, and there is a heartbeat only while the owner runs or cleans up |
| LeaseSafety.DecideKeepsInv | src/jail/managed.rs:73-83 | a scanner that compares within its delay never judges a live jail stale when the jail's gap plus that delay is at most the timeout |
| LeaseSafety.StepKeepsInv | src/jail/managed.rs:52-301 | every action of every jail and scanner keeps the invariant of one jail; only reads and comparisons of its own canary are bounded in time |
| LeaseSafety.NoLiveJailIsReaped | src/jail/managed.rs:64-104 | over all runs, a jail whose own gap plus delay fit the timeout is never being freed or its canary removed while it is live, whatever other jails and scanners do and wherever they die |
| LeaseTiming.JailStepKeepsPace | src/jail/managed.rs:124-138 | how old a live jail's canary can be at each point of the heartbeat loop |
| LeaseTiming.DisciplinedRunIsPaced | src/jail/managed.rs:116-138 | bounds on how long one jail's threads stay at each point imply a bound on the age of its canary, over whole runs |
| LeaseTiming.StayAlive | src/jail/managed.rs:127-135 | a running jail can keep within its bounds for any length of time |
| LeaseTiming.TooSlowReapsLiveJail | src/jail/managed.rs:73-97 | whenever the oldest canary plus the scanner's delay exceed the timeout, some run within the bounds reaps a live jail |
| LeaseTiming.LiveJailsAreSafeIff | src/jail/managed.rs:64-138 | the exact condition on a jail's setup, step and sleep times and on the delay of scanners that judge it under which no run reaps it alive |
| LeaseTiming.DefaultsAreSafeIff | src/jail/mod.rs:98-105 | that condition for the default one-second heartbeat and ten-second timeout |
| LeaseCanary.JailStepKeepsSlotInv | src/jail/managed.rs:224-301 | every step of the owner and its heartbeat keeps: resources are held under a canary or were abandoned, a jail in its inner setup has the canary it began with, a cleanup that returned Ok left nothing |
| LeaseCanary.DecideKeepsInv | src/jail/managed.rs:73-83 | a jail in its inner setup is never judged stale when that setup has lasted no longer than the timeout, however late the scanner compares |
| LeaseCanary.StepKeepsInv | src/jail/managed.rs:52-301 | every action of every jail and scanner keeps the lease invariant of one jail |
| LeaseCanary.ResourcesImplyCanary | src/jail/managed.rs:94-103 | over all runs in which the jail's own inner setup fits in the timeout, crashes anywhere, a jail with resources has its canary unless its owner deleted it after its own Err |
| LeaseCanary.AbandonedOnlyAfterOwnErr | src/jail/managed.rs:238-241 | an owner abandons resources only after an Err of its inner setup or explicit inner cleanup |
| LeaseCanary.ResourcesNeverWithoutCanary | src/jail/managed.rs:98-103 | without such an Err, the jail's resources are never without its canary, at any point of any such run |
| LeaseCanary.LateRemoveStealsCanary | src/jail/managed.rs:94-103 | whenever a setup may outlast the timeout, some run leaves a jail whose setup returned Ok with resources and no canary |
| LeaseCanary.LeaseHoldsIff | src/jail/managed.rs:94-103 | the lease of a jail holds in all its disciplined runs exactly when its inner setup fits in the timeout; steps, sleeps, scanner delays and other jails do not matter |
| LeaseRecovery.EndedIsWinding | src/jail/managed.rs:94-103 | when a jail with a quick setup ends, every scanner at work on it still owes at least what the jail has left |
| LeaseRecovery.RemovalRecovers | src/jail/managed.rs:94-103 | once a scan at work on an ended jail owes at least what the jail has, its removal of the canary leaves nothing, for good, in whatever interleaving |
| LeaseRecovery.CompletedScanRecovers | src/jail/managed.rs:64-104 | after any run at all, any completed scan that decides more than the timeout after the mtime it read leaves nothing of a crashed or dropped jail, whoever moves in between |
| LeaseRecovery.LastWriteStands | src/jail/managed.rs:291-299 | the last canary write of an ended jail is what every later visit reads, and it stands until a scanner removes it, with a quick setup until the jail is recovered |
| LeaseRecovery.ScanCannotBeStopped | src/jail/managed.rs:73-103 | whatever others do, the next move of a visit stays possible and brings it closer to its end |
| LeaseRecovery.EndedJailCanBeRecoveredIff | src/jail/managed.rs:64-104 | after any run, an ended jail that no scanner holds can still be recovered exactly when it has a canary or has nothing left; a leak without a canary is for good |
| LeaseRecovery.FailedExplicitCleanupLeaks | src/jail/managed.rs:259-265 | a run in which an explicit cleanup fails and the process is killed before its drop, after which no continuation recovers the jail |
| LeaseRecovery.RecoveredStaysRecovered | src/jail/managed.rs:52-108 | nothing any process does brings back an ended and recovered jail |
| LeaseRecovery.DropKeepsLease | src/jail/managed.rs:282-301 | in every run, a joined owner changes its canary only when nothing is left, a drop after Ok leaves nothing, and a drop after Err leaves its canary |
| LeaseRecovery.AtMostOneMoreWrite | src/jail/managed.rs:171-175 | after the stop flag is set the heartbeat writes the canary at most once more in any schedule, so it reappears at most once |
| LeaseRecovery.DroppedCanaryNeverReappears | src/jail/managed.rs:150-167 | in any schedule, a canary deleted by the drop, or gone when the owner ended, never comes back |
| LeaseHeartbeat.RunningJailBeats | src/jail/managed.rs:124-138 | in every run, whatever touches fail, a running jail has not been told to stop and its heartbeat is in its loop; a heartbeat that has ended was told to |
| LeaseHeartbeat.RunningJailCanStamp | src/jail/managed.rs:127-135 | from any point of the loop of a running jail, also right after a failed touch, at most one sleep leads to a canary with the current time, created anew if it is missing |
| LeaseHeartbeat.OneTouchPerSleep | src/jail/managed.rs:127-135 | in any schedule there is a whole sleep between two touches, failed ones included |
| LeaseHeartbeat.FaultsCanStrike | src/jail/managed.rs:94-103 | in any world the clock may jump, a started jail may crash leaving canary and resources as they are, a touch may fail, a scanner may die, its cleanup may fail |
| ManagedJail.CanaryDirectory.CleanupOrphans | src/jail/managed.rs:53-108 | one pass frees exactly the stale jails before the first entry that cannot be read or cleaned, removes their canaries, keeps that entry's canary with what its cleanup did not free, and looks at nothing after it |
| ManagedJail.StaleAsInProtocol | src/jail/managed.rs:73-83 | the loop's age test is the one by which a scanner of the protocol begins to clean up |
| ManagedJail.ManagedJail.Setup | src/jail/managed.rs:224-248 | a scan of the other jails, and if that went through a run of the protocol that ends running with a fresh canary or aborted, with the exact canary and resources after each failure |
| ManagedJail.ManagedJail.BeatMove | src/jail/managed.rs:124-138 | each move of the heartbeat thread is the protocol's next one, a failed touch costing one sleep; told to stop, it comes closer to its end, and without a pending touch it leaves the canary alone |
| ManagedJail.ExplicitCleanupKeepsLeaseIff | src/jail/managed.rs:255-268 | whatever the heartbeat does meanwhile, explicit cleanup keeps the lease exactly when the inner cleanup freed all that the jail had, which Ok guarantees; what it did not free is left without a canary |
| ManagedJail.ManagedJail.Cleanup | src/jail/managed.rs:255-268 | explicit cleanup, first or repeated, is a run of the protocol; it keeps the lease exactly when all that the jail had was freed or the file could not be deleted |
| ManagedJail.ManagedJail.StopHeartbeat | src/jail/managed.rs:150-167 | wherever the thread is, it is told to stop and runs to its end; the canary is never lost, and changes only if the thread was past its test of the flag |
| ManagedJail.ManagedJail.Drop | src/jail/managed.rs:282-301 | drop, from any point of the heartbeat, is a run of the protocol; the canary goes only if the inner cleanup returned Ok |
| HotReload.StepKeepsInv | src/rules/v8_js.rs:257-303 | every step of every worker and the writer keeps the order of versions, the validity of stored code and the lock discipline; the stored version never goes back |
| HotReload.RunKeepsOrder | src/rules/v8_js.rs:257-303 | the same for whole runs |
| HotReload.SameMtimeMeansSameCode | src/rules/v8_js.rs:264-268 | in any run, a stored mtime equal to the file's means the stored code is the file's |
| HotReload.EvaluationIsNeverStale | src/rules/v8_js.rs:377-386 | an evaluation never runs a version older than the file's when it began, as long as every version since is valid |
| HotReload.EvaluationRunsCurrentRules | src/rules/v8_js.rs:377-386 | with no write before it loads, an evaluation runs exactly the file's version, whatever the other workers do |
| HotReload.InvalidVersionsKeepRules | src/rules/v8_js.rs:280-300 | while every version fails to read or compile, the stored rules stay as they are |
| HotReload.StartingPairIsCurrentIff | src/rules/v8_js.rs:53-60 | exactly which starting pairs make every evaluation current while the file rests |
| HotReload.LockIsHeldByItsWorker | src/rules/v8_js.rs:272-302 | in every run the reload lock is held exactly by the worker in the part under it, so it is always let go |
| HotReload.EvaluationCanFinish | src/rules/v8_js.rs:377-386 | after any run, every evaluation that has begun can come to its execution without another write |
| HotReload.WorkerCanBeginAgain | src/rules/v8_js.rs:377-386 | after any run, a worker that is executing or idle can begin another evaluation at once |
| HotReload.UnchangedFileNeedsNoLock | src/rules/v8_js.rs:257-270 | an evaluation that finds the stored mtime, or none, executes the stored code three moves later without the lock |
| HotReload.DoubleCheckSavesReload | src/rules/v8_js.rs:274-279 | a worker that gets the lock after the same mtime was stored does not read the file again |
| V8Engine.V8JsRuleEngine.Evaluate | src/rules/v8_js.rs:377-386 | run alone, evaluate is one of the runs of the transition system, executes the code that run loads, and leaves the lock free |
| V8Engine.V8JsRuleEngine.CheckAndReloadFile | src/rules/v8_js.rs:257-303 | the reload check takes the system from the mtime read to the code load, and leaves the pair that run stores |
| V8Engine.V8JsRuleEngine.ReloadUnderLock | src/rules/v8_js.rs:272-302 | the same for the double check under the lock |
| V8Engine.V8JsRuleEngine.ReadAndStore | src/rules/v8_js.rs:280-300 | the same for reading, validating and storing |
| Decimal.ReadShow | src/rules/common.rs:53-58 | a number written in decimal reads back as itself |
| JsonGrammar.ReadsExactlyTheGrammar | src/rules/common.rs:107-109 | the reader accepts exactly the documents of the grammar of RFC 8259, sections 2 to 7, and gives each its one value: white space, every escape, surrogate pairs, all numbers |
| JsonPrint.PrintedIsSpelled | src/rules/common.rs:70-78 | what the printer writes is of that grammar |
| JsonPrint.RoundTrip | src/rules/common.rs:107-109 | printing any value, with numbers of any form, and reading it back gives the value |
| JsonPrint.StringRoundTrip | src/rules/common.rs:5-13 | quoting and escaping any text is undone by the reader |
| JsonPrint.TextHasNoControl | src/rules/proc.rs:203-204 | printed text holds no control character, so no newline |
| RuleResponse.ResponseRoundTrip | src/rules/common.rs:70-116 | every answer, with any text, any 64-bit limit and absent fields, is read back from any of its spellings, whatever white space surrounds it on the reply line |
| RuleResponse.WrittenIsSpelled | src/rules/common.rs:70-78 | the serialiser's text is one of those spellings |
| RuleResponse.AnswerIff | src/rules/common.rs:40-78 | the derived deserialiser reads exactly the answers: each of the two fields at most once, null for absent, unknown fields ignored, the last limit of a policy counts |
| RuleResponse.OtherTextIsDenial | src/rules/common.rs:86-116 | a reply that shows and neither is one of the words nor spells an answer is a denial with that text as its message |
| RuleResponse.PlainTextIsDenial | src/rules/common.rs:111-116 | so is every reply that is no JSON object or array |
| RuleResponse.PolicyRoundTrip | src/rules/common.rs:31-68 | every policy survives the custom deserialiser |
| RequestFraming.TextRoundTrip | src/rules/common.rs:5-28 | a serialised request is one line from which the request can be read back |
| RequestFraming.FramingIsUnambiguous | src/rules/proc.rs:118-122 | the stream written to a child splits on newlines into exactly the requests, in order, with nothing left over |
| ProcEngine.KilledChildNeverAnswers | src/rules/proc.rs:38-41 | in every run, a child that has been killed never decides anything again: later replies come from the child then guarded or from one started since |
| ProcEngine.ProcRuleEngine.EnsureProcessRunning | src/rules/proc.rs:45-102 | a live child is kept, any other is replaced, and a child without handles does not survive |
| ProcEngine.ProcRuleEngine.SendRequestToProcess | src/rules/proc.rs:106-187 | the reply is the one of the simple specification, and the state that of one exchange |
| ProcEngine.ProcRuleEngine.ExecuteProgram | src/rules/proc.rs:189-260 | the retry loop returns the decision of the first non-blank reply among at most two exchanges, else Deny |
| ProcEngine.ProcRuleEngine.Drop | src/rules/proc.rs:274-283 | after any balanced state, no child outlives the engine |
| ProcEngine.ExchangeKeepsSync | src/rules/proc.rs:106-187 | one exchange starts at most one child, keeps one only after a reply, and keeps lines read equal to lines written |
| ProcEngine.RunKeepsSync | src/rules/proc.rs:189-260 | after every evaluation of every run the guarded child is synchronised, all other children are killed, and at most two were started |
| ProcEngine.EveryReplyAnswersItsOwnRequest | src/rules/proc.rs:138-186 | against a one-line-per-request child, every reply that decides an evaluation answers exactly that evaluation's request |
| ProcEngine.AllowedOnlyByOwnReply | src/rules/proc.rs:215-259 | an evaluation is allowed exactly by an allowing reply that was read in that same evaluation, to that same request |
| ProcEngine.ReplyOfIff | src/rules/proc.rs:118-166 | an exchange has a reply exactly when there is a child that took the request and printed a line that is not blank |
| ProcEngine.BlankLineIsRetried | src/rules/proc.rs:156-163 | an evaluation whose first line is blank is decided by its second exchange |
| ProcEngine.UnansweredIsDenied | src/rules/proc.rs:245-260 | without a reply an evaluation denies with a fixed reason; an unusable URL denies with its own |
| ProcEngine.SpelledAnswerDecides | src/rules/proc.rs:212-240 | for every answer in any spelling, the decision, the byte limit and the message that comes with a denial are exactly the answer's |
| ProcEngine.WordsDecide | src/rules/common.rs:86-103 | the lines true and false, with either line end, allow and deny |
| ProcEngine.SentenceDenies | src/rules/common.rs:111-116 | a plain sentence denies, and is the reason |
| ProcEngine.FailedExchangeForgetsChild | src/rules/proc.rs:145-185 | after a failed exchange no child is kept, so no late line is ever read |
| Egress.FilterVerdict | src/jail/linux/nftables.rs:141-160 | the filter chain accepts exactly tracked traffic and permitted destinations |
| Egress.NatVerdict | src/jail/linux/nftables.rs:127-138 | which packets the nat chain rewrites, and to what |
| Egress.EgressIsConfined | src/jail/linux/nftables.rs:123-162 | after any history, whatever leaves is for the host's DNS or proxy ports, or is an ICMP error about a confined flow |
| Egress.TrackedFlowWasAdmitted | src/jail/linux/nftables.rs:144-145 | every tracked flow has an earlier first packet that the filter chain admitted as new |
| Egress.NewFlowAdmittedIff | src/jail/linux/nftables.rs:130-160 | exactly which new flows are admitted, and that web traffic to any address goes to the proxy |
| Egress.IcmpErrorAdmittedIff | src/jail/linux/nftables.rs:144-145 | an ICMP error leaves, as it is, exactly when it is about a tracked flow, replied to or not |
| Egress.FlowLifeCycle | src/jail/linux/nftables.rs:144-145 | an admitted flow is new until a reply, established from then on, and judged afresh after its entry has expired |
| Egress.FlowKeepsItsDestination | src/jail/linux/nftables.rs:144-145 | as long as its entry lives, every later packet of an admitted flow is admitted and goes to the same place |
| LimitedBody.LimitedBody.PollFrame | src/limited_body.rs:94-155 | one poll changes the wrapper and returns as specified; the slice is in range and the branch for no remaining bytes is never taken |
| LimitedBody.LimitedBody.IsEndStream | src/limited_body.rs:157-160 | true promises that the next poll returns the end and changes nothing; when the inner body knows its end, exactly that |
| LimitedBody.LimitedBody.SizeHintUpper | src/limited_body.rs:162-176 | the advertised bound is the one proved sound |
| LimitedBody.PollsTrack | src/limited_body.rs:94-155 | after any number of polls the bytes handed on are the first max of the bytes consumed, the counter is their number, and at an end they are the first max of the whole body |
| LimitedBody.ShortBodiesFit | src/limited_body.rs:113-153 | bodies shorter than 2^64, and bodies whose frames leave room for the limit, never make the counter wrap |
| LimitedBody.EndIsFinal | src/limited_body.rs:98-106 | for every body, once the end has been returned, every later poll returns it and changes nothing |
| LimitedBody.BelowLimitNothingChanges | src/limited_body.rs:136-153 | below the limit frames, trailers, errors and waits pass unchanged |
| LimitedBody.UpperBoundIsSound | src/limited_body.rs:162-176 | what is still to come never exceeds the advertised upper bound |
| LimitedBody.UpperBoundIsTight | src/limited_body.rs:162-176 | with an exact inner bound, what comes until the end is exactly what is advertised |
| ByteLimit.HeaderSizeIsHeadLength | src/proxy.rs:100-118 | the count is the length of the head of the request in HTTP/1.1 form |
| ByteLimit.SmallHead | src/proxy.rs:100-118 | the head of a small request, letter by letter |
| ByteLimit.DecimalLengthIsRead | src/proxy.rs:122-127 | a Content-Length written in decimal is read back |
| ByteLimit.ApplyRequestByteLimit | src/proxy.rs:94-159 | the loop over the headers and the two checks compute the specified outcome |
| ByteLimit.RejectedIff | src/proxy.rs:122-158 | for every request: rejected exactly when a readable length and the headers, as a machine sum, exceed the limit; the rejection names that length and limit, and everything else is admitted with what the headers left |
| ByteLimit.LengthIsReadIff | src/proxy.rs:122-127 | exactly which headers give a length: the first Content-Length is a numeral below 2^64, perhaps with a plus sign |
| ByteLimit.UpstreamIsBounded | src/proxy.rs:94-159 | headers plus body never exceed the larger of limit and headers, and an ended body was cut to exactly what the headers left, even when the sum wraps |
| ByteLimit.RejectedIffTooLarge | src/proxy.rs:122-142 | without wrap-around a request is rejected exactly when headers plus Content-Length exceed the limit |
| ByteLimit.AdmittedThoughTooLargeIff | src/proxy.rs:128-129 | exactly which too large Content-Lengths are admitted because the sum wraps |
| ByteLimit.AccurateLengthIsNeverTruncated | src/proxy.rs:144-158 | an admitted request with an accurate Content-Length arrives whole |
| ByteLimit.LimitCoversWholeRequestIff | src/proxy.rs:144-158 | an admitted request as a whole stays within the limit exactly when its headers do, wrapped Content-Lengths included |
| ByteLimit.RepliedLimitHolds | src/proxy.rs:614-648 | from the reply line to the wire: an answer that limits to n bytes either rejects a request for a length above n or bounds what any number of polls sends upstream |
| ByteLimit.RepliedDecisionHolds | src/proxy.rs:590-612 | an allowing answer without a limit sends the body as it is, a denying one sends nothing and hands on its message |
| Headers.HeaderMap.Remove | src/proxy.rs:183-185 | the name has no values left, every other name keeps its own |
| Headers.HeaderMap.Append | src/proxy.rs:191-195 | the name gains a last value, every other name keeps its own |
| Headers.HeaderMap.Insert | src/proxy.rs:206-210 | the name has exactly the new value, every other name keeps its own |
| LoopPrevention.NonceReadsBack | src/proxy.rs:410-415 | a nonce reads back as its random number |
| LoopPrevention.NonceInjective | src/proxy.rs:410-415 | distinct random numbers give distinct nonces |
| LoopPrevention.DetectsLoop | src/proxy.rs:550-564 | the check finds a loop exactly when our nonce is among the values of the header |
| LoopPrevention.PrepareUpstreamRequest | src/proxy.rs:171-225 | proxy headers are gone, our nonce comes after all earlier ones, Host matches the target, everything else is kept |
| LoopPrevention.HandlerForwards | src/proxy.rs:538-598 | a request that passes the check and is prepared makes a forwarding hop |
| LoopPrevention.NoncesAccumulate | src/proxy.rs:187-195 | the nonce of every earlier instance is in the header when the request arrives |
| LoopPrevention.ForwardedOncePerInstance | src/proxy.rs:550-564 | however requests are routed, each instance forwards a request at most once |
| LoopPrevention.ForwardingTerminates | src/proxy.rs:181-195 | among N instances a request is forwarded at most N times |
| LoopPrevention.JoinedHidesNonceIff | src/proxy.rs:550-564 | an instance that gets the loop header joined into one value forwards its own request again unless its nonce was the only value |
| LinuxJail.NamesInjective | src/jail/linux/mod.rs:118-131 | resource names of different jails differ |
| LinuxJail.InterfaceNameFits | src/jail/linux/resources.rs:100-103 | the interface name fits the kernel's 15 characters exactly for ids of up to 12 |
| LinuxJail.ManagedResource.Drop | src/sys_resource.rs:69-77 | dropping runs the cleanup of what is held once, and holds nothing afterwards |
| LinuxJail.CleanupOrphaned | src/jail/linux/mod.rs:589-603 | cleanup by name attempts all four deletions, unmounts once at the target of resolv.conf, and always returns Ok |
| LinuxJail.CleanUp | src/jail/linux/mod.rs:571-583 | one cleanup leaves only what cannot be deleted and touches nothing else |
| LinuxJail.LinuxJail.Setup | src/jail/linux/mod.rs:440-472 | succeeds exactly when every command does and both names are free; at whatever command it stops, only this jail's resources have changed, nothing after it was run, and there is a handle for everything added but two cases named in the contract |
| LinuxJail.LinuxJail.CreateNamespace | src/jail/linux/mod.rs:173-179 | succeeds exactly when the command does and the name is free, and adds the namespace with a handle exactly then |
| LinuxJail.LinuxJail.SetupVethPair | src/jail/linux/mod.rs:182-212 | at most the jail's pair is added; on success its other end is in the namespace |
| LinuxJail.LinuxJail.StartDnsServer | src/jail/linux/mod.rs:391-421 | at most the jail's directory and the resolv.conf stub are added; on success there is a handle for the directory |
| LinuxJail.LinuxJail.SetupHostNat | src/jail/linux/mod.rs:350-373 | at most the jail's host table is added; on success there is a handle for it |
| LinuxJail.LinuxJail.SetupLinks | src/jail/linux/mod.rs:440-454 | the first half of setup touches only the jail's own links |
| LinuxJail.LinuxJail.SetupServices | src/jail/linux/mod.rs:456-463 | the second half touches only the jail's own directory, table and rules |
| LinuxJail.LinuxJail.DropFields | src/jail/linux/mod.rs:62-75 | dropping the fields removes every kind there is a handle for unless it cannot be deleted, touches only this jail's resources, and does nothing after a complete cleanup |
| LinuxJail.Lifetime | src/jail/managed.rs:282-301 | for every failure point of setup and for every way a jail ends, dropped, cleaned up and dropped, or cleaned up with the drop never run, nothing of the jail is left but what cannot be deleted; all other namespaces, pairs, tables and directories are as before, and the mounts on the host's resolv.conf stay exactly when there were none or it is no link |
| LinuxJail.CleanupTouchesOnly | src/jail/linux/mod.rs:589-603 | cleanup by name changes no namespace, pair, table or directory but the jail's; its one unmount is stated by CleanupOrphaned |
| LinuxJail.CleanupLeaves | src/jail/linux/resources.rs:45-69 | exactly what a cleanup leaves when some kinds cannot be deleted |
| LinuxJail.CleanupFreesIff | src/jail/linux/mod.rs:571-603 | exactly when a cleanup, which always returns Ok, has freed everything |
| LinuxJail.CleanupIsComplete | src/jail/linux/resources.rs:280-304 | when deletions succeed, one pass removes everything of the jail and a second changes nothing |
| LinuxJail.OthersAreUntouched | src/jail/linux/resources.rs:71-76 | every other jail keeps all its resources |
| Subnet.PlanIsBlock | src/jail/linux/mod.rs:135-161 | the plan is the block of the hash modulo 16384, host and guest its two usable addresses, and no sum saturates |
| Subnet.PlanTexts | src/jail/linux/mod.rs:146-160 | the texts for host, guest and subnet read back, octet by octet, as exactly their addresses with a prefix of 30 |
| Subnet.FirstAndLastBlock | src/jail/linux/mod.rs:133-144 | the blocks begin and end where 10.99.0.0/16 does |
| Subnet.EveryBlockIsUsed | src/jail/linux/mod.rs:133-144 | every address of the /16 is in the block of some index |
| Subnet.BlocksDisjointIff | src/jail/linux/mod.rs:133-144 | blocks are disjoint exactly when the hashes differ modulo 16384 |
| Subnet.FormatIpInjective | src/jail/linux/mod.rs:20-22 | formatting an address loses nothing |
| Subnet.SameSubnetIff | src/jail/linux/mod.rs:157-160 | jails get the same subnet text exactly when their hashes agree modulo 16384 |
| DockerArgs.FilterNetworkArgs | src/jail/linux/docker.rs:385-405 | the index loop computes the recursive specification |
| DockerArgs.NoNetworkLeft | src/jail/linux/docker.rs:390-400 | no token of the result is `--network` or starts with `--network=` |
| DockerArgs.FilterChangesNothingIff | src/jail/linux/docker.rs:385-405 | the arguments come through unchanged exactly when none of them, the container's own command included, is a network flag |
| DockerArgs.FilterIsIdempotent | src/jail/linux/docker.rs:385-405 | filtering twice is filtering once |
| DockerArgs.FilterKeepsOrder | src/jail/linux/docker.rs:385-405 | the result is the arguments at increasing positions, and what is left out is exactly the network flags and the values they consume |
| DockerArgs.FindImageIndex | src/jail/linux/docker.rs:360-382 | the first argument that is neither dash-prefixed nor the value of a listed flag, None exactly when there is none |
| DockerArgs.UnlistedValueIsImageIff | src/jail/linux/docker.rs:283-284 | the value behind an option is taken for the image exactly when the option is none of the seven listed, also when Docker gives it a value |
| DockerArgs.BuildDockerCommand | src/jail/linux/docker.rs:288-357 | the command ends with exactly the filtered arguments, and fails exactly when they name no image |
| DockerArgs.AddOwnArgs | src/jail/linux/docker.rs:311-341 | before the user's arguments: the jail's network, every variable in order, and mounts for the first certificate path |
| DockerArgs.ContainerIsGiven | src/jail/linux/docker.rs:311-341 | the container gets the jail's network by name, every variable with its value in order, and the first certificate file and its directory read-only at the same place |
| DockerArgs.CertPathIff | src/jail/linux/docker.rs:318-326 | that file is the value of the first SSL_CERT_FILE |
| DockerArgs.OnlyOwnNetworkIff | src/jail/linux/docker.rs:314-354 | for any options that Docker reads values for, the container gets the jail's network only, exactly when no user option is the alias `--net`; variables and mounts can never add one |
| DockerArgs.AliasSelectsSecondNetwork | src/jail/linux/docker.rs:385-405 | the input `--net host image` comes through the filter and selects the host's network as well |

## Left out

- V8 compilation and execution, the console object and shell scripts: foreign engines; `valid` is an uninterpreted predicate.
- TLS, certificates and `src/proxy_tls.rs`: they rest on libraries that are not part of this model; the HTTPS forwarding path has no loop check, so the loop theorems are about the plain-HTTP handler.
- The DNS wire format (`src/jail/linux/dns.rs`), the macOS keychain, the weak jail, logging, the command line.
- A command that cannot be executed, after which `main` returns without cleanup or drop and leaves the jail to the scanners, `--no-jail-cleanup`, `enable_heartbeat == false` and a signal handler that runs explicit cleanup beside the main thread; the model has one owner thread per jail.
- LeaseCanary.ResourcesImplyCanary: the window between a failed inner setup, whose canary is deleted first, and the drop is excepted, as is a failed explicit cleanup, because the property is false there.
- serde_json's limits on nesting depth and on the range of floating-point numbers, which the reader of `JsonGrammar.ReadsExactlyTheGrammar` does not have.
- The parsing of URLs in `RequestInfo::from_request`; its error is an input of the evaluation.
- The umount itself failing, and processes that mount on resolv.conf meanwhile.
- Docker networks and routing tables, whose cleanup hangs on handles alone; name collisions in conntrack, IPv6 and inbound-initiated flows.
- The hash of a jail id and the random choice of ids: any number, and distinct ids.
- Chunked-encoding overhead on the wire, which the code does not count either.
