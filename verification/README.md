# Verified model of the roothash-chain script host, source maps and node state

A Dafny model of the parts of the repository whose correctness depends on more than one function at a
time, and proofs of what they keep. Check everything with `dafny verify dfyconfig.toml`.

| files | what they model |
|---|---|
| `HostState`, `HostMachine` | the forge-script Host: call-frame stack, pranks, broadcasts, nonces, cheatcode access; as a step machine on values, and as the mutable objects that carry out its steps |
| `HostTrace` | EVM executions as call trees: the hook calls they make, and what they mean to the Host without a stack; the step machine computes that meaning |
| `HostBroadcast`, `HostNonces`, `HostReplay`, `HostOrigin`, `HostPranks`, `HostCallers`, `HostStack` | what every run of the Host keeps: broadcast order, nonces and their gaps, panics, transaction origin, lifetime of pranks, what callees see as caller and origin, suspended frames, jump history, access, gas |
| `StateDump` | which accounts and slots an exported state holds |
| `SourceMap`, `SourceMapCompression`, `SourceMapAssembly`, `SourcePositions` | decoding of compressed Solidity source maps along assembled bytecode, and the lazy line/column table of UTF-8 text |
| `ConsoleFormat`, `ConsoleNumbers`, `Decimal` | the console's printf scanner and its exact big-integer notation |
| `Persistence` | the crash-safe file that remembers whether the sequencer runs |
| `GenesisAlloc`, `UpgradeSchedule` | genesis balances with in-place updates; the fork schedule |
| `EnrCodec` | the "opstack" entry of node records (EIP-778, RLP of Appendix B of the Ethereum Yellow Paper) |

## How the Host is modelled

The EVM is an environment. A frame's execution is a `Code`: its opcodes, its sub-calls and the
commands issued meanwhile. A sub-call to a precompile or to an account without code opens no frame.
Addresses, hashes and salts are numbers; `CreateAddress`, `CreateAddress2` and Keccak-256 are function
values of `Config`, of which nothing is assumed. A Go panic is the outcome `Panic`. Nonces and gas are
64-bit and wrap around. What the EVM itself promises (who the caller of a frame is, which address a
creation gets, which nonce writes it makes) is collected in `HostNonces.Faithful` and used only where
a statement needs it.

## What the proofs show about the code

* A prank that names both a sender and an origin never applies the origin: `handleCaller` returns the
  sender first. If all pranks with an origin are like that, the origin never changes
  (`HostOrigin.SenderShadowsOrigin`).
* The comment in `handleCaller` says that pranks do not apply to the cheatcode precompile, but the test
  is on the caller, not the callee. A cheatcode call made while a prank overrides only the origin
  leaves the overridden origin behind (`HostOrigin.OriginLeakExample`); origins balance exactly in runs
  without such a call (`HostOrigin.OriginBalances`).
* A broadcast sub-call that opens no frame, such as a plain transfer, bumps the sender's nonce but emits
  no broadcast and does not use up a single broadcast (`HostReplay.FramelessBroadcastCall`). Replayed as
  transactions, the records then miss a nonce; `HostReplay.NoncesHaveNoGap` says exactly when they do not.
* With a faithful EVM, the hooks of a running frame panic in two cases only: when CALLCODE opens a frame
  under a broadcast (`HostNonces.CallcodePanics`), and when CREATE2 is reported on a stack of fewer than
  four words, whose fourth the opcode hook reads (`HostNonces.ShortStackPanics`); geth also
  reports opcodes that it rejects for want of operands. `HostNonces.PanicsExactly` shows that these are all. A whole
  call from outside also panics when it opens no frame at all, such as a plain transfer: the exit hook then
  indexes an empty stack (`HostTrace.OutsideTransferPanics`, `HostNonces.RootPanics`).
* A frame is charged for the gas of its frameless sub-calls, which its own gas already includes
  (`HostBroadcast.FrameGas`).
* The console's comment says that `%%` prints one percent sign; the code prints both, and the second
  one may start a directive (`ConsoleFormat.DoublePercentIsKept`). A leading byte-order mark is dropped
  (`ConsoleFormat.NoValuesPrintMessage`).
* Fixed-precision printing loses the sign of numbers between -1 and 0
  (`ConsoleNumbers.FixedPrecisionExact`).
* `Check` compares the nine forks from regolith to jovian and never looks at interop, so interop alone is
  accepted and is active while no earlier fork is (`UpgradeSchedule.InteropAloneIsAccepted`). Fork times
  that wrap around at 2^64 can activate a later fork before an earlier one, too
  (`UpgradeSchedule.OverflowBreaksOrder`).
  `UpgradeSchedule.ForksActivateInOrder` gives the exact condition for all ten forks.
* Nothing syncs the directory after the rename, so a crash can undo a write that has reported success
  (`Persistence.CompletedWriteIsLost`). What it brings back is always complete: the very file that was in
  place when the file system last made renames durable (`Persistence.CrashBringsBackFlushed`).

## Model

| member | source | states |
|---|---|---|
| HostTrace.RunTrace | common/script/script.go:613-697 | Fed the hook calls of any call tree, on top of any suspended frames, the depth-driven stack machine reaches the state that the stackless recursive meaning of the tree gives, or panics with it; the frames beneath are the same ones |
| HostTrace.RunSub | common/script/script.go:571-697 | The hooks of one whole sub-call turn the calling frame into what the meaning of the sub-call says, and the run goes on from there |
| HostTrace.StepExit | common/script/script.go:571-656 | The exit of a callee pops exactly its frame and settles the caller's broadcast, origin and prank |
| HostTrace.RunRoot | common/script/script.go:525-697 | A whole call or creation from outside ends with an empty stack and the world that the meaning of its tree gives, and panics when that does, when it opens no frame, or when it starts with CREATE2 on a short stack |
| HostTrace.OutsideTransferPanics | common/script/script.go:585 | A call from outside to an account without code makes the entry and exit hooks only, and panics |
| HostTrace.ExecSameFrame | common/script/script.go:669-683 | Depth, scope and caller nonce of a frame never change while it lives |
| HostState.NewBroadcast | common/script/prank.go:216-272 | The record repeats what the frame ran: sender, callee, value, gas, and call data or init code; the address of a recorded CREATE follows from the recorded sender and nonce, that of a CREATE2 from the recorded sender, salt and init code |
| HostMachine.Host.HandleCaller | common/script/prank.go:36-54 | The method returns the overridden caller and applies the origin as the step machine does |
| HostMachine.Host.StartPrank | common/script/prank.go:58-85 | The top frame gets the prank, or the call is refused with the right error and nothing changes |
| HostMachine.Host.StopPrank | common/script/prank.go:88-113 | The top frame loses a prank of the named family; the silent and the refused cases change nothing |
| HostMachine.Host.Mode | common/script/prank.go:117-135 | The mode tells which kind of prank would be refused (a prank under a broadcast, a broadcast under a prank), whether there is a broadcast to stop, and whether the prank outlives the next child frame; outside of any frame it is none |
| HostMachine.Host.OnEnter | common/script/script.go:525-552 | The sender's nonce is bumped exactly for broadcast CALL and CREATE2 to other than the cheatcode and console addresses; a wrong last opcode panics |
| HostMachine.Host.CloseTop | common/script/script.go:618-651 | Popping a frame emits its broadcast, restores the origin and ends a single prank, in place on the parent object |
| HostMachine.Host.PopTop | common/script/script.go:616-655 | One turn of the popping loop settles the parent and removes exactly the top frame object |
| HostMachine.Host.UnwindCallstack | common/script/script.go:614-656 | The in-place popping loop computes the recursive unwinding, and keeps a prefix of the frame objects |
| HostMachine.Host.OnExit | common/script/script.go:571-587 | Gas is charged to the top frame and the stack is unwound; an empty stack panics |
| HostMachine.Host.OnOpcode | common/script/script.go:659-697 | Unwinding, cheatcode grant, opening of a frame and bookkeeping act on the objects as the step machine does on values; a changed scope and CREATE2 on a short stack panic |
| HostMachine.Host.AllowCheatcodes | common/script/script.go:306-309 | The address is added, and nothing else changes |
| HostMachine.Host.HandleAll | common/script/script.go:525-697 | Any sequence of hooks and commands leaves the objects in the state that the run of the step machine reaches, or panics with it |
| HostMachine.RememberJump | common/script/script.go:685-691 | Append, overlapping in-place shift and truncation leave exactly the last five entries |
| HostBroadcast.HooksEmitPostOrder | common/script/script.go:613-697 | The hooks of any call tree hand to the broadcast hook exactly the finished frames whose parent broadcast and opened them with CALL, CREATE or CREATE2, each with its record, in the tree's post-order |
| HostBroadcast.RunBroadcasts | common/script/script.go:618-640 | The broadcasts of a run are those of its eligible closings, in order, and every eligible closing has one |
| HostBroadcast.ClosingsArePostOrder | common/script/script.go:616-655 | Frames finish in the post-order of the call tree |
| HostBroadcast.FrameGas | common/script/script.go:585 | A frame's gas counter grows by the gas of its frameless sub-calls and by nothing else until its own exit |
| HostBroadcast.RecordedGas | common/script/prank.go:236 | A record reports the gas of its frame plus once more that of its frameless sub-calls |
| HostNonces.PanicsExactly | common/script/script.go:613-697 | With a faithful EVM the hooks of a running frame panic exactly when CREATE2 is reported on a short stack or CALLCODE opens a frame under an active broadcast |
| HostNonces.RootPanics | common/script/script.go:571-697 | A whole call from outside panics exactly when it opens no frame, or for one of these two reasons, from its first opcode on |
| HostNonces.ShortStackPanics | common/script/script.go:694-696 | Calling a contract whose code is the byte of CREATE2 alone makes the Host panic although the EVM keeps its promises |
| HostNonces.CallcodePanics | common/script/prank.go:267-269 | So does CALLCODE under a broadcast |
| HostNonces.CallBroadcastNonce | common/script/script.go:545-552 | A CALL broadcast names the account that was bumped and the nonce it had before the bump, also across wrap-around |
| HostNonces.CreateBroadcastNonce | common/script/prank.go:241-251 | A CREATE broadcast names the account whose nonce the EVM raised and the nonce it had before |
| HostNonces.NoncesAreUnique | common/script/prank.go:240-266 | In a run that lowers no nonce, no two CALL or CREATE broadcasts share sender and nonce, however broadcasts nest |
| HostNonces.RootNonces | common/script/script.go:545-552 | The same for the hooks of every whole call from outside that does not panic |
| HostNonces.RollbackReusesNonce | common/script/script.go:545-552 | Restoring the nonce between two broadcast calls makes them share it |
| HostNonces.FreshSenderStartsAtZero | common/script/script.go:545-552 | The first broadcast of an account without a nonce carries nonce 0 |
| HostReplay.NonceLedger | common/script/script.go:545-552 | In a faithful run that lowers no nonce, an account's nonce grows by its recorded broadcasts, its bumps for frameless sub-calls and what others write, exactly |
| HostReplay.RecordsAreCharged | common/script/prank.go:229-266 | The CALL and CREATE records that name a sender are as many as the broadcasts its nonce was raised for |
| HostReplay.HookBumps | common/script/script.go:525-552 | The entry hook raises, modulo 2^64, exactly the nonce of the sender of a broadcast CALL or CREATE2 to other than the cheatcode and console addresses |
| HostReplay.PrecompileCallsBumpNothing | common/script/script.go:541-543 | A run whose frameless sub-calls all go to these two addresses bumps no nonce for them |
| HostReplay.NoncesHaveNoGap | common/script/prank.go:240-266 | The nonces of a sender's CALL and CREATE records run without a gap from its nonce before the run to the one after it exactly when no CREATE2 broadcast, no frameless broadcast sub-call and no other write raises it |
| HostReplay.RootNoncesHaveNoGap | common/script/script.go:525-697 | The same for the hooks of a whole call from outside |
| HostReplay.FramelessBroadcastCall | common/script/script.go:545-552 | A broadcast CALL that opens no frame raises its sender's nonce by one, records nothing, so that the sender's nonces have a gap, and leaves even a single broadcast pending |
| HostOrigin.OriginBalances | common/script/script.go:642-649 | Every frame sees the same origin after each sub-call as before it exactly when no frameless sub-call is made under a prank that changes the origin |
| HostOrigin.RootOriginRestored | common/script/script.go:642-649 | A whole call without such a sub-call leaves the origin as it was |
| HostOrigin.OriginLeakExample | common/script/prank.go:40-50 | A cheatcode call under an origin-only prank leaves the overridden origin, and a prank started by it records that one for restoring |
| HostOrigin.SenderShadowsOrigin | common/script/prank.go:45-50 | If every prank with an origin names a sender and nobody writes the origin, the origin is the same after every event of every run |
| HostPranks.SinglePranksAreConserved | common/script/script.go:618-650 | In every run each non-repeating prank that a frame has or gains governs exactly one child frame, or is dropped by a command, or is still pending |
| HostPranks.SinglePrankGovernsNext | common/script/script.go:647-649 | Left alone, a non-repeating prank governs the frame's next child frame and no other |
| HostPranks.SubOnce | common/script/script.go:620-650 | A framed sub-call uses up a non-repeating prank and keeps a repeating one; a frameless sub-call uses up nothing |
| HostPranks.RepeatingPrankGovernsAll | common/script/script.go:642-650 | A repeating prank governs every child frame until the frame itself stops or replaces it, whatever its callees do |
| HostPranks.FamiliesNeverCross | common/script/prank.go:64-71 | In any run, a frame that is in some mode after each event ends in the same family of modes, prank or broadcast, as it started in: the two are always separated by mode none |
| HostPranks.FrameModeMeans | common/script/prank.go:117-135 | The mode of a frame tells which prank would be refused, whether there is a broadcast to stop, and whether the prank outlives the next child |
| HostCallers.GovernedCallers | common/script/prank.go:36-54 | In a faithful run every child frame opened by CALL, CREATE or CREATE2 sees as its caller the deployer for a broadcast CREATE2 that goes through it, else the governing prank's sender, else the frame itself |
| HostCallers.GovernedOrigins | common/script/prank.go:46-51 | In a faithful run without leaks every such child sees the governing prank's origin if it names one and no sender, and its parent's origin otherwise |
| HostCallers.CheatcodesAreUnpranked | common/script/prank.go:40 | No prank applies to a call whose caller is the cheatcode precompile |
| HostCallers.StartedPrankGoverns | common/script/prank.go:58-85 | A started prank governs the next child frame, or all when it repeats, with the sender, origin and family asked for, and restores the origin of when it started |
| HostCallers.RefusedStartChangesNothing | common/script/prank.go:64-71 | Starting a prank under one of the other family is refused with the right error, and the run goes on as without it |
| HostCallers.StartedSenderIsSeen | common/script/prank.go:46-48 | After a repeating start with a sender every frame called or created sees that sender |
| HostCallers.StoppedPrankGovernsNothing | common/script/prank.go:88-113 | After a stop no child frame is governed, and the frame has no prank; stopping without a broadcast is an error |
| HostCallers.StoppingTheOtherChangesNothing | common/script/prank.go:99-105 | Stopping the other family changes nothing, silently for a broadcast and with an error for a prank |
| HostCallers.StoppedSelfIsSeen | common/script/prank.go:88-113 | After a stop every frame called or created sees the frame itself |
| HostCallers.WrittenOriginIsSeen | common/script/script.go:825-827 | A written origin is what the frame and its unpranked children see |
| HostStack.RunAscending | common/script/script.go:614-679 | In every state reachable by any sequence of hooks, depths strictly increase up the stack |
| HostStack.OpcodeAscending | common/script/script.go:659-693 | After the opcode hook the top frame is the executing one, at the reported depth, with its opcode and program counter |
| HostStack.EnterPanics | common/script/script.go:531-537 | The entry hook panics exactly when a pranked frame enters by another opcode than its last |
| HostStack.SuspendedFramesUntouched | common/script/script.go:613-697 | Until a hook reports a depth below a frame, every field of every frame beneath it stays as it is |
| HostStack.JumpHistory | common/script/script.go:684-693 | A frame remembers exactly the last five program counters before a JUMPDEST, across all its sub-calls |
| HostStack.ChildJumpHistory | common/script/script.go:671-691 | A new frame starts with an empty history of at most five |
| HostStack.AccessIsEntitlement | common/script/script.go:662-668 | After any run an address has cheatcode access exactly when it had it before, was given it by the owner, or was deployed by an account that had it by then |
| StateDump.RemoveScripts | common/script/script.go:787-791 | Script addresses are removed up to the deployer's nonce, or up to the first that is the deployer itself |
| StateDump.CleanStorage | common/script/script.go:795-807 | Every account loses its zero slots and nothing else |
| StateDump.Export | common/script/script.go:783-822 | The dump holds exactly the committed accounts that are neither scripts nor temporary, without zero slots and otherwise untouched |
| StateDump.ScriptsLeftOut | common/script/script.go:786-791 | When all scripts up to the nonce are left out: always if none below the nonce is the deployer, and otherwise exactly if the later ones are not in the state |
| StateDump.DumpContents | common/script/script.go:783-822 | Account by account and slot by slot: what is left out, what is kept, and that the rest is as committed |
| StateDump.MissingDeployer | common/script/script.go:787-791 | Without a deployer account only the first script address is removed |
| SourceMap.ParseInstrMapping | common/srcmap/solutil.go:28-71 | The field-by-field parser with early exits computes the declarative expansion of an element |
| SourceMap.ExpandAccepts | common/srcmap/solutil.go:34-70 | An element is accepted exactly when it has at most five fields and its non-empty numeric fields are 32-bit decimals |
| SourceMap.ParsedNumbers | common/srcmap/solutil.go:38-44 | Numbers are read with a sign or none, leading zeros or not, up to the 32-bit limits |
| SourceMap.NothingElseParses | common/srcmap/solutil.go:38-44 | Nothing else is read as a number |
| SourceMap.ExpandedJump | common/srcmap/solutil.go:61-63 | The jump mark is the first character of the fourth field, or inherited |
| SourceMap.ParseSourceMap | common/srcmap/solutil.go:176-219 | The sweep produces each instruction's expanded element once per byte of the instruction, or fails |
| SourceMap.ParsedMap | common/srcmap/solutil.go:188-218 | There is at least one entry per byte of code and at most 32 more; the entry at each byte is the expanded element of the instruction that covers it; parsing fails exactly when an element in use does not parse |
| SourceMap.CoversOnce | common/srcmap/solutil.go:190-197 | No byte belongs to two instructions of the sweep |
| SourceMap.ElementsStayConstant | common/srcmap/solutil.go:198-204 | Once the map is exhausted, the last mapping repeats |
| SourceMapCompression.MapRestored | common/srcmap/solutil.go:28-71 | Decompression undoes compression for every legal choice of omitted fields |
| SourceMapCompression.CompressedMapParses | common/srcmap/solutil.go:176-219 | A compressed map of any code parses, and each byte gets the mapping of its instruction |
| SourceMapAssembly.SweepFindsInstructions | common/srcmap/solutil.go:190-196 | In code assembled from instructions the sweep finds each instruction where it was assembled to, data of PUSH1 to PUSH32 included |
| SourceMapAssembly.SweepCountsInstructions | common/srcmap/solutil.go:190-217 | The sweep meets as many instructions as were assembled |
| SourceMapAssembly.AssembledMap | common/srcmap/solutil.go:176-219 | A map parsed along assembled code has one entry per byte, and the bytes of each instruction get its element |
| SourceMapAssembly.AssembledMapRestored | common/srcmap/solutil.go:176-219 | Compressed and parsed along assembled code, every byte gets back the mapping of its own instruction |
| SourcePositions.LoadLineColData | common/srcmap/solutil.go:73-91 | The table holds, for the first byte of each rune, the line and the distance to the last newline, and zeros elsewhere |
| SourcePositions.CharsAreRunes | common/srcmap/solutil.go:82 | In UTF-8 text the positions that the loop visits are exactly the starts of the characters |
| SourcePositions.RuneIsChar | common/srcmap/solutil.go:82 | A rune of more than one byte is the encoding of a character |
| SourcePositions.PositionsIncrease | common/srcmap/solutil.go:80-88 | Positions of runes strictly increase with their offset |
| SourcePositions.PositionsIdentifyOffsets | common/srcmap/solutil.go:80-88 | In single-byte text a position identifies its offset |
| SourcePositions.CachedMap.Lookup | common/srcmap/solutil.go:122-156 | Whatever was looked up before, the answer is the one computed from scratch, and every cached table stays that of its file |
| SourcePositions.FoundPosition | common/srcmap/solutil.go:144-155 | The answer for a rune is its mapping's path, one plus the newlines before it, and the distance to the last of them or to the start |
| SourcePositions.NoPosition | common/srcmap/solutil.go:123-151 | Which program counters answer invalid, generated, unknown, a path without position, or a load error |
| ConsoleFormat.FormatSpecFromChars | common/script/console.go:164-198 | The character loop reads the directive that the grammar of the scan gives, and consumes as much |
| ConsoleFormat.ConsoleFormat | common/script/console.go:143-247 | The scanner loop with its flag and shrinking value list prints the filled-in pieces followed by the surplus values |
| ConsoleFormat.ScanIsLossless | common/script/console.go:200-237 | The pieces of a message put together are the message |
| ConsoleFormat.DirectivesAreWellFormed | common/script/console.go:164-198 | Wherever the scan stands, the next piece is a directive exactly when a well-formed one starts there |
| ConsoleFormat.FailedDirective | common/script/console.go:182-197 | What is no directive is kept up to the first character that is no digit, and scanning goes on behind it |
| ConsoleFormat.BrokenDirective | common/script/console.go:180-197 | A directive that the message breaks off is kept |
| ConsoleFormat.FillIsByRank | common/script/console.go:203-220 | The i-th directive becomes the i-th value, and directives beyond the values stay verbatim |
| ConsoleFormat.SurplusFollows | common/script/console.go:239-245 | Surplus values follow in order, each after a blank |
| ConsoleFormat.OutputIsByRank | common/script/console.go:200-247 | The whole output: the pieces with the i-th directive replaced by the i-th value, then the values left over, blank-separated |
| ConsoleFormat.NoValuesPrintMessage | common/script/console.go:202-237 | Without values the message is printed as it is, exactly unless it starts with a byte-order mark |
| ConsoleFormat.DoublePercentIsKept | common/script/console.go:223-232 | A percent sign before another is printed and the other one starts afresh |
| ConsoleNumbers.FixedPrecisionExact | common/script/console.go:56-67 | The printed numeral has no trailing zero and denotes x/10^p exactly when x is not negative or at least 10^p in size; otherwise its negation |
| ConsoleNumbers.PrecisionExact | common/script/console.go:48-54 | With a precision given, the text is that fixed-precision numeral, without an exponent |
| ConsoleNumbers.ExponentExact | common/script/console.go:48-54 | Mantissa and exponent read back give the integer, for every integer |
| ConsoleNumbers.TextIsInjective | common/script/console.go:60-65 | A printed text is that of one numeral only, so reading it back is unambiguous |
| Persistence.EveryRunIsSafe | rhs-node/node/config_persistence.go:55-126 | For every interleaving of callers, faults, flushes and crashes, the state file holds one complete value that reading accepts, and every completed read saw the last completed write |
| Persistence.InitInv | rhs-node/node/config_persistence.go:106-126 | A start without a state file, or with any file that reading accepts, is covered by the statement above |
| Persistence.PersistIsAllOrNothing | rhs-node/node/config_persistence.go:55-89 | While a caller holds the lock, whatever others do, a persist that fails leaves the value and one that succeeds replaces it by its own |
| Persistence.CrashKeepsOldOrNew | rhs-node/node/config_persistence.go:67-88 | After a crash at any point the file is complete and holds the last value renamed before renames last became durable; the value read before the crash survives exactly if that one is the same |
| Persistence.CrashBringsBackFlushed | rhs-node/node/config_persistence.go:67-88 | In every run the crash brings back the very file in place when renames last became durable, and the last value survives exactly if it was in place then |
| Persistence.CrashBringsBackStart | rhs-node/node/config_persistence.go:67-88 | If renames never became durable during the run, the crash brings back the file from before it |
| Persistence.CompletedWriteIsLost | rhs-node/node/config_persistence.go:84-88 | In any idle state a write can complete with success and be undone by a crash |
| Persistence.ActiveConfigPersistence.Persist | rhs-node/node/config_persistence.go:55-89 | The call sequence succeeds exactly without faults, and then the file is complete and synced; otherwise it is unchanged |
| Persistence.ActiveConfigPersistence.SequencerState | rhs-node/node/config_persistence.go:91-126 | A missing file reads as unset; a malformed one, one without the field and any other read error give an error |
| Persistence.ReadMeans | rhs-node/node/config_persistence.go:91-126 | Only a missing file reads as unset; text that does not decode and text without the field are errors |
| Persistence.EncodedText | rhs-node/node/config_persistence.go:21-23 | The written text is a JSON object with the one field |
| Persistence.DriverConfig.LoadPersisted | rhs-node/node/config.go:113-129 | A persisted state overrides the flag, an unset one or a disabled sequencer does not, an unreadable one is an error |
| Persistence.LoadAfterRun | rhs-node/node/config.go:113-129 | After any run loading succeeds and the node gets the value renamed last since the machine started, or else the one that survived until then; without a crash and with no call under way, the last completed write |
| GenesisAlloc.Copy | common/foundry/allocs.go:83-94 | The copy holds the same in balance objects that are all its own |
| GenesisAlloc.Genesis.AddBalance | common/genesis/layer_one.go:77-82 | One account's balance goes up in place, missing accounts and balances are made, and no other account changes |
| GenesisAlloc.Genesis.FundDevAccounts | common/genesis/layer_one.go:75-84 | Every development account is credited, and no balance object becomes shared |
| GenesisAlloc.Genesis.SetPrecompileBalances | common/genesis/layer_one.go:88-98 | Each of the 256 precompile addresses gains one wei |
| GenesisAlloc.CreditAllAt | common/genesis/layer_one.go:75-98 | Each account gets the amount once per mention and keeps code, storage and nonce |
| GenesisAlloc.GenesisSupply | common/genesis/layer_one.go:37-42 | The supply grows by exactly the number of development accounts times their balance, if asked for, plus 256 |
| GenesisAlloc.GenesisAccount | common/genesis/layer_one.go:37-42 | Each account holds what the dump says plus the development balance per mention plus one wei at the addresses 0 to 255 |
| GenesisAlloc.NewGenesisAccount | common/genesis/layer_one.go:76-96 | An account that only the genesis has is otherwise empty |
| GenesisAlloc.BuildL1DeveloperGenesis | common/genesis/layer_one.go:37-42 | The dump keeps all it holds although the genesis is credited in place |
| UpgradeSchedule.UpgradeScheduleDeployConfig.Check | common/genesis/config.go:556-580 | Accepted are exactly the schedules in which the set offsets of the nine forks from regolith to jovian form a non-decreasing prefix; interop is not looked at |
| UpgradeSchedule.AdjacentIsOrdered | common/genesis/config.go:558-578 | Comparing neighbours decides that |
| UpgradeSchedule.ForksActivateInOrder | common/genesis/config.go:385-394 | In an accepted schedule, of which only the first nine forks were compared, all ten active forks form a prefix at every time from genesis on exactly when no time wraps around past a fork still to come and interop is off or activates no earlier than any other fork |
| UpgradeSchedule.NotAfterIsOrder | common/genesis/config.go:385-394 | One fork is active whenever another is exactly when it is active at genesis, or the other is not and its offset is no larger |
| UpgradeSchedule.InteropAloneIsAccepted | common/genesis/config.go:538-580 | Interop at genesis with no other fork is accepted, and breaks the prefix |
| UpgradeSchedule.OverflowBreaksOrder | common/genesis/config.go:385-394 | An accepted schedule in which canyon's time wraps around, so that canyon is active at genesis and regolith is not |
| UpgradeSchedule.UpgradeScheduleDeployConfig.ActivateForkAtOffset | common/genesis/config.go:457-470 | Earlier forks are at genesis, later ones off, the schedule is accepted, and all ten forks activate in order whatever the genesis time |
| UpgradeSchedule.UpgradeScheduleDeployConfig.AllocMode | common/genesis/config.go:523-535 | The mode is the last of the nine compared forks with activation time zero, but never one before delta; without overflow it is the last one active at genesis |
| UpgradeSchedule.ZeroTimeIsActiveAtGenesis | common/genesis/config.go:385-394 | Without overflow those are the forks active at genesis |
| EnrCodec.PutUvarint | rhs-node/p2p/discovery.go:183-186 | The number's encoding is written at the offset, fits ten bytes, and nothing else is touched |
| EnrCodec.ReadUvarint | rhs-node/p2p/discovery.go:198-206 | The reading loop accepts what the encoding's inverse accepts and stops behind it |
| EnrCodec.ReadMeans | rhs-node/p2p/discovery.go:198-206 | What any bytes read as, minimal or not, and which are errors |
| EnrCodec.KnownEncodings | rhs-node/p2p/discovery.go:182-189 | Reference encodings of the two formats |
| EnrCodec.EntryRoundTrip | rhs-node/p2p/discovery.go:182-210 | Decoding returns the encoded pair, for all 64-bit values and whatever is appended |
| EnrCodec.OpStackENRData.EncodeRLP | rhs-node/p2p/discovery.go:182-189 | The pair fits the 20-byte buffer and its encoding decodes to the pair |
| EnrCodec.OpStackENRData.DecodeRLP | rhs-node/p2p/discovery.go:191-210 | The fields are set on success and kept on error |
| EnrCodec.RlpRoundTrip | rhs-node/p2p/discovery.go:187-196 | Every byte string survives RLP encoding and decoding |
| EnrCodec.RlpIsCanonical | rhs-node/p2p/discovery.go:192-195 | Decoding accepts only the one canonical encoding of a byte string |
| EnrCodec.FilterEnode | rhs-node/p2p/discovery.go:214-235 | A record is accepted exactly when its entry decodes to the low 64 bits of the configured chain ID and version 0 |
| EnrCodec.WrittenRecordsAreFiltered | rhs-node/p2p/discovery.go:182-235 | A record written by this code is accepted exactly if it has version 0 and the low 64 bits of the configured chain ID |

## Left out

- The Host's logging, labels, source-map lookup for logs, fork selection, trie commit, and the isolation of broadcasts (journal flush and access-list preparation): they do not touch the modelled state. With isolation, a revert past a flushed journal panics inside the state database, not in a hook.
- How the EVM executes: it is an environment, and only the promises in `HostNonces.Faithful` are used.
- HostReplay.NonceLedger: for code in which no frame opens at the cheatcode and console addresses, where the Host puts its precompiles.
- The cheatcode and console precompiles' ABI handling: reflection over another package.
- StateDump.RemoveScripts: requires the deployer's nonce to be below 2^64-1, because at 2^64-1 the loop counter wraps around and the code does not terminate.
- StateDump.Export: commit, active-fork error and the reading of accounts out of the trie are not modelled; the committed accounts are a parameter.
- GenesisAlloc.Copy: requires every balance to be present, because the code panics on a missing one; code and storage are values, so the aliasing of byte slices and storage maps is not captured.
- GenesisAlloc.BuildL1DeveloperGenesis: the deposit contract and the EIP-4788 accounts inserted afterwards are not modelled.
- SourcePositions.PositionsIncrease: for offsets below 2^32-1, which includes every offset a source map can name, because lines and columns are 32-bit.
- ConsoleFormat.ConsoleFormat: the formatting of a single value under a directive is a parameter; the switch over value types would add only easy members. Messages are sequences of characters, so malformed UTF-8 is not captured.
- ConsoleNumbers.ExponentExact: the width limit of Go's fmt package, one million digits, is not modelled.
- Persistence.EveryRunIsSafe: JSON decoding is a parameter of which only the round trip is assumed; locking is between callers of one persistence object.
- EnrCodec.FilterEnode: signature and identity scheme of the record are not modelled.
- Generated contract bindings, RPC, CLI, libp2p and discv5 wiring, peer scoring: field copying and calls into other packages.
