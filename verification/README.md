# Skynet: verified models

Skynet is an actor runtime in C and Lua. This project models its small, self-contained algorithms, and the two libraries bundled with it that carry the hardest ones, and proves what they are for.

- **LPeg** (`Peg*.dfy`). Patterns without captures have a big-step meaning (`PegSemantics`), the analyses of the compiler are proved sound against it (`PegAnalysis`), `PegVerify` proves when the grammar check gives termination, `PegLeftCalls` what it sees of left recursion, and `PegNullable` when the run of `nullable` ends. Code generation is both a function (`PegCodegen`) and the imperative compiler that appends and patches instructions (`PegCompile`). A continuation-style simulation (`PegSimulation`, `PegCorrect`) relates generated code to the meaning, relative to the follow set; `PegLayout` gives the potential under which jump chains end; `PegRewrite` and `PegOptimize` prove that closing calls and threading jumps keep every answer. `PegTheorem` puts the pieces together; `PegBuild` covers the tree constructors and `PegCharset` the bit loop that classifies charsets.
- **Timing wheel** (`Timer.dfy`). The wheel refines a plain list of (expiry, event).
- **Collector** (`Gc*.dfy`). Lua's incremental tri-colour collector over an abstract object graph, with the mutator writing between the steps.
- **Scheduler** (`MessageQueue.dfy`, `Scheduler*.dfy`). One ring queue as a class, and the whole system of workers, senders, creators and retirers as a state machine over atomic steps.
- **Socket send path** (`SocketStream.dfy`, `SocketSend.dfy`), **stream reassembly** (`Netpack.dfy`), **reader/writer lock and snapshots** (`RwLock.dfy`, `Stm.dfy`, `StmSafety.dfy`), **handle table** (`HandleProbing.dfy`, `NameDirectory.dfy`, `Handles.dfy`), **shared table** (`SharedTable.dfy`), **serialiser** (`SeriSpec.dfy`, `Seri.dfy`), **DES** (`Des.dfy`) and **Diffie-Hellman** (`DiffieHellman.dfy`). `Division`, `Bits`, `Words`, `Rings` and `Counting` hold what several of them share.

Code that changes state step by step is a class or a method proved against a specification function; what the program promises is then proved about that function or kept as the class's invariant. Protocols are state machines whose `Step` is one critical section or one atomic operation, and their theorems speak of every run.

Assumptions of the models:

- Memory is sequentially consistent.
- The caller's write of `ctx->handle` and the creation of the queue on the next line (skynet/skynet-src/skynet_server.c:155-156) are part of the register step.
- In the scheduler no handle is given out twice, so a context and its queue are named by their handle. `Handles` itself follows the source through the wrap of the numbering and says exactly what goes wrong there.
- Chunks that sockets deliver are not empty; integer keys of shared tables fit in 32 bits; sizes fit in a C `int`.
- Allocation does not fail.

Some claims turned out false of the code. Each is stated with an input or a run, and with the condition under which it holds:

- A grammar accepted by `verifygrammar` may be left recursive: `verifyrule` answers at a nested grammar with that grammar's nullability and drops the flag it was given (skynet/3rd/lpeg/lptree.c:1039). The grammar `{ A = -{ B = 'a' } * V"A" }` passes and has a meaning only where an 'a' comes next (`PegLeftCalls.AcceptedHidden`); with `false` in the inner grammar its code contains a cycle of jumps, so that `finaltarget` does not end (`PegLeftCalls.AcceptedCycle`). A grammar is free of left recursion if and only if the check passes with the flag kept (`PegLeftCalls.KeptIsExact`); it is kept when no run reaches a nested grammar that must consume with the flag set (`PegLeftCalls.NothingLost`), and every accepted left recursive grammar fails that guard (`PegLeftCalls.AcceptedLeftRecursion`).
- Neither is an accepted grammar sure to terminate with calls inside a look-behind, which `verifyrule` does not look into although `fixedlen` accepts some there (`PegVerify.AcceptedLoop`). With the flag kept and no calls inside look-behinds it does (`PegVerify.AcceptedTerminates`).
- `skynet_handle_register` reads a null context exactly when a wrap of the numbering falls inside a round of probes, slot 0 is empty and all other slots are held (`Handles.HandleStorage.Register`); `Handles.NullContextRun` gets there.
- `powmodp(P, 1)` is P and not 0; it is the power modulo P in all other cases (`DiffieHellman.PowerModP`).
- The padding loop of `ldesdecode` stops inside the last block, unless the text is a single block that decrypts to eight zeros (`Des.FindPadding`, `Des.DesDecode`).
- The write of `ctx->init` by the creator of a service may come after the context is freed (`SchedulerSteps.InitMayBeLate`). It is in time exactly while the handle is registered or somebody has the context in hand (`SchedulerSteps.InitInTime`, `SchedulerSteps.ContextLives`); the same holds of the log line that follows the write.
- A graceful close may lose a packet of a direct write that is still on (`SocketSend.LateDirectWrite`): everything accepted is written if and only if no direct write left a remainder (`SocketSend.Socket.CloseToTheEnd`).
- `force_close` frees the lists before it takes `dw_lock`, so that a direct write may still go on the wire, behind part of a packet that was freed (`SocketSend.TornRun`). The stream is whole packets and part of at most one unless the freed head was written in part and a direct write puts bytes behind it (`SocketSend.Socket.CloseUnderWrites`, `SocketSend.Socket.WireShape`).
- The doubling of the name capacity overflows an `int` at 2^30 names; the assertion behind it, which never fails before, does not notice (`Handles.HandleStorage.InsertNameBefore`).

## Model

| member | source | states |
|---|---|---|
| PegSemantics.FuelMonotone | skynet/3rd/lpeg/lpvm.c:149-294 | a definite result of the big-step meaning does not change with more fuel |
| PegSemantics.GivesUnique | skynet/3rd/lpeg/lpvm.c:149-294 | a pattern has at most one meaning at a position |
| PegSemantics.EvalBounds | skynet/3rd/lpeg/lpvm.c:149-294 | a match ends inside the subject and not before its start |
| PegAnalysis.NullableSound | skynet/3rd/lpeg/lpcode.c:196-230 | a pattern that can match without consuming is nullable |
| PegAnalysis.NoFailSound | skynet/3rd/lpeg/lpcode.c:196-230 | a nofail pattern never fails |
| PegAnalysis.FixedLenSound | skynet/3rd/lpeg/lpcode.c:236-273 | every match consumes exactly fixedlen characters when that is not negative |
| PegAnalysis.FirstSound | skynet/3rd/lpeg/lpcode.c:294-370 | with a next character outside the first set a match consumes nothing and is followed by a character outside the follow set; matching at the end of the subject sets the empty flag |
| PegAnalysis.NoFailFirst | skynet/3rd/lpeg/lpcode.c:294-370 | a pattern that cannot fail excludes no next character |
| PegAnalysis.HeadFailExact | skynet/3rd/lpeg/lpcode.c:377-399 | a head-fail pattern succeeds if and only if the next character is in its first set |
| PegVerify.AccumulatorOnly | skynet/3rd/lpeg/lptree.c:1002-1042 | with the flag kept at nested grammars it is only or-ed into the result of verifyrule |
| PegVerify.BoundIrrelevant | skynet/3rd/lpeg/lptree.c:1002-1042 | an accepted verdict of that check and its depth do not depend on the bound on the number of rules passed |
| PegVerify.VerdictIsNullable | skynet/3rd/lpeg/lptree.c:1002-1042 | what that check says of an accepted tree is its nullability |
| PegVerify.AcceptedIsRanked | skynet/3rd/lpeg/lptree.c:1045-1063 | if the flag is kept the left calls of an accepted grammar can be ranked: no left recursion |
| PegVerify.AcceptedIsSound | skynet/3rd/lpeg/lptree.c:952-969 | and all its loops have bodies that consume |
| PegVerify.AcceptedTerminates | skynet/3rd/lpeg/lptree.c:952-1063 | if the check, as written, accepts, the flag was kept and look-behinds contain no calls, matching has a definite result on every subject from every position, by remaining input, rank of left calls and tree size |
| PegVerify.LoopNeverEnds | skynet/3rd/lpeg/lpcode.c:236-273 | the grammar A = B(-A) has no result for any fuel |
| PegVerify.AcceptedLoop | skynet/3rd/lpeg/lptree.c:1002-1063 | that grammar passes every check, and has no meaning at any position of any subject |
| PegLeftCalls.SameVerdict | skynet/3rd/lpeg/lptree.c:1002-1042 | a run of verifyrule that never reaches, with the flag set, a nested grammar that must consume is the same with the flag kept |
| PegLeftCalls.NothingLost | skynet/3rd/lpeg/lptree.c:1045-1063 | so the flag is kept in a grammar that passes that guard |
| PegLeftCalls.KeptIsStricter | skynet/3rd/lpeg/lptree.c:1002-1042 | the check as written accepts whatever the check with the flag kept accepts |
| PegLeftCalls.KeptIsExact | skynet/3rd/lpeg/lptree.c:1045-1063 | with the flag kept the check passes all rules if and only if left calls can be ranked, that is without left recursion |
| PegLeftCalls.AcceptedLeftRecursion | skynet/3rd/lpeg/lptree.c:1045-1063 | a left recursive grammar that is accepted as written lost the flag in the run of some rule |
| PegLeftCalls.AcceptedHidden | skynet/3rd/lpeg/lptree.c:1038-1039 | the grammar A = -(B = c) * V"A" passes every check, has no look-behind, and has a meaning if and only if c comes next |
| PegLeftCalls.HiddenCode | skynet/3rd/lpeg/lpcode.c:823-837 | with a failing inner grammar the body of A is coded as a jump over the predicate and a call |
| PegLeftCalls.AcceptedCycle | skynet/3rd/lpeg/lpcode.c:641-645 | that grammar passes every check, and in its code the chain of jumps from the rule's start has no end |
| PegNullable.AnswerFits | skynet/3rd/lpeg/lpcode.c:196-230 | where the run of nullable ends its answer is the nullability under every assignment that fits the rules |
| PegNullable.AnswersExist | skynet/3rd/lpeg/lpcode.c:196-230 | if it ends on all rules that are called, its answers fit them |
| PegNullable.AcceptedAnswers | skynet/3rd/lpeg/lpcode.c:196-230 | it ends on every rule of an accepted grammar that kept the flag |
| PegCharset.CharsetType | skynet/3rd/lpeg/lpcode.c:41-82 | the loop over the 32 bytes with its counting tells empty, singleton (and which), full and other sets apart exactly as the set itself does |
| PegCompile.CompileState.Codegen | skynet/3rd/lpeg/lpcode.c:917-944 | the compiler that appends and patches instructions adds exactly the code, and the rule positions, that the code generation function gives |
| PegCompile.CompileState.CodeGrammar | skynet/3rd/lpeg/lpcode.c:868-884 | a grammar's call, jump and rules, with the position of every rule |
| PegCorrect.Simulates | skynet/3rd/lpeg/lpcode.c:917-944 | main simulation: wherever the code of a pattern stands, for any stack, dominating test, follow set and enclosing option, the machine ends where the pattern does, or fails when what follows would fail anyway |
| PegCorrect.SimulatesChoice | skynet/3rd/lpeg/lpcode.c:677-712 | the same for ordered choice: test instead of a choice point, reused choice, and plain choice |
| PegCorrect.SimulatesAnd | skynet/3rd/lpeg/lpcode.c:720-736 | the same for the and-predicate, by IBehind when the length is fixed |
| PegCorrect.SimulatesRep | skynet/3rd/lpeg/lpcode.c:776-813 | the same for repetition: span, loop by test, and partial commits on a new or a reused choice |
| PegCorrect.SimulatesNot | skynet/3rd/lpeg/lpcode.c:823-837 | the same for the not-predicate |
| PegCorrect.SimulatesSeq | skynet/3rd/lpeg/lpcode.c:899-944 | the same for sequences, whose first part has the first set of the second as follow set |
| PegCorrect.SimulatesGrammar | skynet/3rd/lpeg/lpcode.c:868-884 | the same for grammars |
| PegLayout.LayOut | skynet/3rd/lpeg/lpcode.c:917-944 | where left calls are ranked every chain of jumps and open calls in generated code descends in a potential, so none is a cycle |
| PegRewrite.SimulatedPreserves | skynet/3rd/lpeg/lpvm.c:149-294 | a relation between program points that a step keeps carries every answer of one program to the other |
| PegOptimize.FinalTarget | skynet/3rd/lpeg/lpcode.c:641-645 | the chase of jumps ends, at the instruction the chain leads to, which is no jump |
| PegOptimize.CorrectCalls | skynet/3rd/lpeg/lpcode.c:844-861 | closing all calls, those that a return follows as jumps, keeps every answer and leaves no open call |
| PegOptimize.Peephole | skynet/3rd/lpeg/lpcode.c:956-995 | jump threading keeps every answer, and afterwards every label leads to its final target |
| PegTheorem.AnswersUnique | skynet/3rd/lpeg/lpvm.c:149-294 | a program has at most one answer |
| PegTheorem.RealisedExactly | skynet/3rd/lpeg/lpvm.c:149-294 | compiled code answers a result if and only if the pattern means it |
| PegTheorem.Compile | skynet/3rd/lpeg/lpcode.c:1001-1010 | for accepted patterns with the flag kept and no calls in look-behinds, code generation, closing of calls and threading of jumps end and give code that on every subject and from every position answers the definite meaning of the pattern |
| PegTheorem.Match | skynet/3rd/lpeg/lpvm.c:149-294 | the interpreter's loop, with its stack, position and instruction pointer, computes the answer of the small-step machine |
| PegTheorem.CompileAndMatch | skynet/3rd/lpeg/lpvm.c:149-294 | compiling any such pattern and running the machine gives exactly its PEG result: the end position, or failure |
| PegBuild.MkSeqSame | skynet/3rd/lpeg/lptree.c:532-542 | the simplifications of lp_seq keep the meaning |
| PegBuild.OpenIsCautious | skynet/3rd/lpeg/lpcode.c:191-230 | what nofail says of a pattern with open calls holds once they are closed |
| PegBuild.MkChoiceSame | skynet/3rd/lpeg/lptree.c:551-566 | the simplifications of lp_choice, for which calls still open may fail, keep the meaning |
| PegBuild.MkSubSame | skynet/3rd/lpeg/lptree.c:627-646 | lp_sub, also on charsets, is "not b, then a" |
| PegBuild.MkAtLeastMeans | skynet/3rd/lpeg/lptree.c:572-602 | p^n matches p n times and then as often as it goes |
| PegBuild.MkAtMostMeans | skynet/3rd/lpeg/lptree.c:572-602 | p^-n matches p at most n times |
| PegBuild.CorrectAssociativity | skynet/3rd/lpeg/lptree.c:78-90 | the rotations end with a first part of another kind, and keep the meaning for all rules, subjects and positions |
| PegBuild.FinalFixAssociates | skynet/3rd/lpeg/lptree.c:100-126 | the fixed tree is right-associated throughout |
| PegBuild.FinalFixSame | skynet/3rd/lpeg/lptree.c:100-126 | the fixed tree means the same |
| Timer.MaskCompares | skynet/skynet-src/skynet_timer.c:75-93 | the masks of add_node, bit by bit, compare and take apart the quotients by the span of each level |
| Bits.SameAbove | skynet/skynet-src/skynet_timer.c:75-93 | two times with their low bits set are equal if and only if their quotients are |
| Timer.SlotStable | skynet/skynet-src/skynet_timer.c:119-139 | a tick, also across the wrap of the clock, changes add_node's choice for a pending expiry only if it was the list that timer_shift moves |
| Timer.ListToMove | skynet/skynet-src/skynet_timer.c:119-139 | the loop of timer_shift finds the list of the lowest level whose digit of the new time is not zero |
| Timer.Wheel.AddNode | skynet/skynet-src/skynet_timer.c:75-93 | the node goes to the end of the list for its expiry and all other lists stay |
| Timer.Wheel.TimerAdd | skynet/skynet-src/skynet_timer.c:96-106 | a timer of delay d, 1 <= d < 2^31, is appended to the plain list with its expiry modulo 2^32 |
| Timer.Wheel.MoveList | skynet/skynet-src/skynet_timer.c:109-116 | after redistributing the list every node is where add_node would put it now |
| Timer.Wheel.TimerShift | skynet/skynet-src/skynet_timer.c:119-139 | the clock ticks and every node still is where add_node would put it now |
| Timer.Wheel.TimerExecute | skynet/skynet-src/skynet_timer.c:160-170 | fires the timers due now, in order, while other threads add timers with the lock released |
| Timer.Wheel.TimerUpdate | skynet/skynet-src/skynet_timer.c:173-185 | one update of the wheel is one update of the plain list: the same events fire in the same order |
| Timer.FiresExactlyOnce | skynet/skynet-src/skynet_timer.c:75-185 | over every run of adds and updates a timer of delay d fires at the d-th following update, once, and at no other |
| Timer.PendingFires | skynet/skynet-src/skynet_timer.c:160-185 | a pending timer fires at the update its expiry is ahead of the clock, and at no other |
| Timer.NeverFires | skynet/skynet-src/skynet_timer.c:160-185 | what is not pending and not added never fires |
| Timer.SameExpiryInOrder | skynet/skynet-src/skynet_timer.c:142-157 | timers of equal expiry fire in the order in which they were added |
| GcHeap.BitTricks | skynet/3rd/lua/lgc.h:64-104 | the bit operations on the marked byte, the dead test included, say of the byte what the tests on colours say of the object |
| GcHeap.ReachClosed | skynet/3rd/lua/lgc.h:14-25 | whatever is reachable lies in every set closed under references, or is shared |
| GcHeap.ReachKept | skynet/3rd/lua/lgc.c:735-757 | a step that keeps reachable objects as they are and adds no references keeps reachability exactly |
| GcHeap.MarksTrans | skynet/3rd/lua/lgc.c:235-285 | marking steps compose |
| GcInvariant.ReachableIsLive | skynet/3rd/lua/lgc.h:14-25 | under the invariant every reachable object is there and not dead |
| GcInvariant.PropagateTri | skynet/3rd/lua/lgc.c:559-600 | traversing one gray object keeps "no black object points to a non-shared white one" and the gray lists complete |
| GcInvariant.PropagateMarking | skynet/3rd/lua/lgc.c:559-605 | and it keeps the whole state of a marking phase |
| GcInvariant.FlipIsSafe | skynet/3rd/lua/lgc.c:987-1031 | with nothing gray and the roots marked, flipping the white makes exactly the unmarked objects dead, and nothing reachable |
| GcInvariant.WhiteStart | skynet/3rd/lua/lgc.c:339-346 | a cycle may start from a heap whose own objects all have the current white |
| GcInvariant.FreeKeeps | skynet/3rd/lua/lgc.c:740-757 | freeing a dead object keeps everything reachable and the sweep's invariant |
| GcInvariant.WhitenKeeps | skynet/3rd/lua/lgc.c:740-757 | so does turning a live one white |
| GcWrites.WritesTri | skynet/3rd/lua/lgc.c:155-176 | a write opens at most the hole of the one value stored into something black |
| GcWrites.BackTri | skynet/3rd/lua/lgc.c:171-176 | the backward barrier closes that hole by greying the table |
| GcWrites.CreatedTri | skynet/3rd/lua/lgc.c:207-216 | a new white object on a thread's stack keeps the invariant |
| GcWrites.SharesTri | skynet/3rd/lua/lgc.h:95-99 | objects that become shared between states keep the invariant |
| GcCollector.Collector.MarkObject | skynet/3rd/lua/lgc.c:235-285 | marking makes an object black or puts it on the gray list, with whatever it forwards to |
| GcCollector.Collector.MarkUserdata | skynet/3rd/lua/lgc.c:235-285 | the userdata case, whose metatable and user value are marked at once |
| GcCollector.Collector.PropagateMark | skynet/3rd/lua/lgc.c:559-600 | the first gray object is traversed; threads stay gray and go to the grayagain list |
| GcCollector.Collector.RestartCollection | skynet/3rd/lua/lgc.c:339-346 | a cycle begins with its roots gray |
| GcCollector.Collector.AtomicPhase | skynet/3rd/lua/lgc.c:987-1031 | roots that moved and threads that changed without a barrier are traversed again; after the flip live objects are exactly the marked ones |
| GcCollector.Collector.SweepList | skynet/3rd/lua/lgc.c:740-757 | sweeping part of the list keeps the mutator's view of the heap and everything reachable |
| GcCollector.Collector.EnterSweep | skynet/3rd/lua/lgc.c:964-969 | sweeping begins |
| GcCollector.Collector.SingleStep | skynet/3rd/lua/lgc.c:1050-1102 | every step of the state machine keeps the invariant and what is reachable, and makes progress |
| GcCollector.Collector.RunUntil | skynet/3rd/lua/lgc.c:1109-1113 | the collector reaches the wanted state |
| GcCollector.Collector.FullGc | skynet/3rd/lua/lgc.c:1164-1180 | a full collection keeps everything reachable, as it was, and leaves nothing else that is not shared |
| GcCollector.OnlyReachable | skynet/3rd/lua/lgc.c:1164-1180 | what a complete cycle leaves was reachable when it began |
| GcCollector.Collector.Barrier | skynet/3rd/lua/lgc.c:155-164 | the forward barrier restores the invariant, by marking, or by whitening while sweeping |
| GcCollector.Collector.BarrierBack | skynet/3rd/lua/lgc.c:171-176 | the backward barrier restores it |
| GcCollector.Collector.SetField | skynet/3rd/lua/lgc.h:125-128 | storing any reachable object in a table, between any two steps, keeps the invariant |
| GcCollector.Collector.SetSlot | skynet/3rd/lua/lgc.h:121-124 | so does storing into closures, prototypes and userdata |
| GcCollector.Collector.SetMetatable | skynet/3rd/lua/lgc.h:129-132 | so does setting a metatable |
| GcCollector.Collector.SetUpvalue | skynet/3rd/lua/lgc.c:185-191 | so does setting a closed upvalue that any number of closures share |
| GcCollector.Collector.SetStack | skynet/3rd/lua/lgc.c:530-552 | so does changing a thread's stack, without a barrier |
| GcCollector.Collector.ClearField | skynet/3rd/lua/lgc.c:435-450 | so does removing a table entry |
| GcCollector.Collector.SetRoots | skynet/3rd/lua/lgc.c:987-1000 | so does running another thread or changing the metatables of basic types |
| GcCollector.Collector.NewObject | skynet/3rd/lua/lgc.c:207-216 | so does a new object |
| GcCollector.Collector.ShareObjects | skynet/3rd/lua/lgc.h:95-96 | so does sharing objects with other states |
| MessageQueue.MessageRing.MqPop | skynet/skynet-src/skynet_mq.c:138-172 | a pop takes the oldest message, or clears the flag of an empty queue, and keeps the overload threshold |
| MessageQueue.MessageRing.MqPush | skynet/skynet-src/skynet_mq.c:190-209 | a push appends, through every wrap and doubling, and tells whether the queue goes to the global list |
| MessageQueue.MessageRing.ExpandQueue | skynet/skynet-src/skynet_mq.c:175-187 | a full ring doubles with its messages in order |
| MessageQueue.MessageRing.MqLength | skynet/skynet-src/skynet_mq.c:112-125 | the number of messages waiting |
| MessageQueue.MessageRing.MqOverload | skynet/skynet-src/skynet_mq.c:128-135 | the overload is reported once |
| MessageQueue.MessageRing.MarkRelease | skynet/skynet-src/skynet_mq.c:220-228 | the release flag is set, and an unflagged queue goes to the global list |
| SchedulerSteps.StepInv | skynet/skynet-src/skynet_server.c:126-350 | every atomic step of every worker, sender, creator and retirer keeps the invariant |
| SchedulerSteps.RunInv | skynet/skynet-src/skynet_server.c:126-350 | so it holds after every run |
| SchedulerSteps.InvSafe | skynet/skynet-src/skynet_server.c:196-239 | in every run what the next step touches is there, but for the write of ctx->init, and the asserts of the source hold |
| SchedulerSteps.OnePlace | skynet/skynet-src/skynet_mq.c:43-75 | in every run each live queue is once in the global list, or in one owner's hands, or idle, empty and unflagged |
| SchedulerSteps.NeverStranded | skynet/skynet-src/skynet_mq.c:190-209 | a queue with messages is in the global list or in somebody's hands |
| SchedulerSteps.OneServer | skynet/skynet-src/skynet_server.c:297-350 | no two workers dispatch the same service at once, and none one that has not started |
| SchedulerSteps.OnceInOrder | skynet/skynet-src/skynet_server.c:230-350 | accepted messages are dispatched, discarded or dropped once each and in push order; all of them, once the queue is idle or freed |
| SchedulerSteps.FreedIsUnreachable | skynet/skynet-src/skynet_mq.c:231-250 | nothing leads to a freed queue |
| SchedulerSteps.Quiescent | skynet/skynet-src/skynet_server.c:297-350 | at rest everything accepted has been handled and each context has only the table's reference |
| SchedulerSteps.InitMayBeLate | skynet/skynet-src/skynet_server.c:158-181 | a run in which the creator sets ctx->init of a context already freed |
| SchedulerSteps.ContextLives | skynet/skynet-src/skynet_server.c:196-227 | a context is there exactly while its handle is registered or somebody has it in hand |
| SchedulerSteps.InitInTime | skynet/skynet-src/skynet_server.c:158-181 | in every run the context is there for that write if and only if its handle is registered or somebody holds a reference or is about to free it |
| SocketStream.Overtakes | skynet/skynet-src/socket_server.c:844-909 | a high packet that overtakes low ones keeps the order of each priority |
| SocketStream.QueuedUp | skynet/skynet-src/socket_server.c:844-909 | wherever send_socket puts a packet, the packets of each priority stay in the order in which they came |
| SocketStream.CleanBytes | skynet/skynet-src/socket_server.c:580-610 | a log of writes that reads as whole packets and part of at most one is, byte for byte, just that |
| SocketSend.Socket.WriteHead | skynet/skynet-src/socket_server.c:580-610 | a write of any length moves exactly those bytes from the head buffer to the stream and off wb_size |
| SocketSend.Socket.SendListTcp | skynet/skynet-src/socket_server.c:580-610 | for any sequence of write results stream and remaining bytes together, and finished and queued packets together, stay the same |
| SocketSend.Socket.RaiseUncomplete | skynet/skynet-src/socket_server.c:696-710 | the partly written low head becomes the whole high list |
| SocketSend.Socket.LowCheck | skynet/skynet-src/socket_server.c:741-750 | after the low list was sent a partly written head is raised, with nothing lost or reordered |
| SocketSend.Socket.SendBufferLocked | skynet/skynet-src/socket_server.c:726-765 | the four steps of send_buffer_ lose and reorder nothing, its asserts hold, and a half-closed socket goes only with nothing left to write |
| SocketSend.Socket.SendBuffer | skynet/skynet-src/socket_server.c:768-793 | the same with the remainder of a direct write put first; blocked while a sender has the lock |
| SocketSend.Socket.HandleData | skynet/skynet-src/socket_server.c:1138-1191 | a data request through the pipe is queued if the socket still takes data, and the sending count goes down |
| SocketSend.Socket.SendSocket | skynet/skynet-src/socket_server.c:844-909 | where the packet goes, and that it comes behind all others of its priority |
| SocketSend.Socket.HandleClose | skynet/skynet-src/socket_server.c:938-965 | what is queued is sent on; a close is graceful only if all that was accepted before, save a direct write still on, is written whole and in order; an idle socket is closed at once |
| SocketSend.Socket.NothingLeft | skynet/skynet-src/socket_server.c:933-935 | when nomore_sending_data says so, all accepted packets are written, but for a direct write still on |
| SocketSend.Socket.BeginClose | skynet/skynet-src/socket_server.c:410-421 | the half of force_close before dw_lock, at any time: both lists are freed, a head written in part with them |
| SocketSend.Socket.FinishClose | skynet/skynet-src/socket_server.c:422-436 | the half under dw_lock: everything taken has been written if and only if neither a list nor the remainder of a direct write was freed |
| SocketSend.Socket.ReportConnect | skynet/skynet-src/socket_server.c:1303-1334 | an error leads to force_close, success keeps what is queued |
| SocketSend.Socket.StartSend | skynet/skynet-src/socket_server.c:1575-1584 | a call begins, with what is accepted by then |
| SocketSend.Socket.Look | skynet/skynet-src/socket_server.c:1569-1585 | one read of the first check, without the lock, where only sending and type are sure |
| SocketSend.Socket.TryLock | skynet/skynet-src/socket_server.c:1585-1585 | the lock is taken if no sender has it |
| SocketSend.Socket.LookLocked | skynet/skynet-src/socket_server.c:1587-1587 | one read of the second check, under the lock; after the last the packet is accepted behind what is written and before what is queued, and all that was accepted before the call is written |
| SocketSend.Socket.DirectWrite | skynet/skynet-src/socket_server.c:1588-1628 | a direct write sends a prefix and leaves the rest in dw_buffer, so that no byte is lost or doubled; it tears the stream exactly if it puts bytes behind a head freed half written |
| SocketSend.Socket.IncSending | skynet/skynet-src/socket_server.c:1105-1124 | the count goes up, but not past its 16 bits |
| SocketSend.Socket.SendRequest | skynet/skynet-src/socket_server.c:1523-1537 | a request enters the pipe and counts as accepted |
| SocketSend.Socket.WholeCall | skynet/skynet-src/socket_server.c:1575-1638 | for any steps of all others between any two of its own, a direct write overtakes nothing accepted before its call: all of that is written whole |
| SocketSend.Socket.WireShape | skynet/skynet-src/socket_server.c:726-765 | the stream is whole packets and a prefix of at most one, whose remainder is dw_buffer, the head of the high list, or just freed, if and only if it is not torn; it never is before force_close |
| SocketSend.Socket.InOrder | skynet/skynet-src/socket_server.c:844-909 | the packets written of each priority are a prefix of those accepted |
| SocketSend.Socket.CloseToTheEnd | skynet/skynet-src/socket_server.c:938-965 | after a graceful close, with any steps of senders meanwhile, everything accepted is written, in each priority's order, if and only if no direct write left a remainder |
| SocketSend.Socket.CloseUnderWrites | skynet/skynet-src/socket_server.c:410-436 | whatever senders do before force_close gets the lock, the stream breaks if and only if the freed head was written in part and a direct write puts bytes behind it |
| SocketSend.TornRun | skynet/skynet-src/socket_server.c:410-436 | a run in which it breaks |
| SocketSend.LateDirectWrite | skynet/skynet-src/socket_server.c:938-965 | a run in which a graceful close drops the remainder of a direct write |
| Netpack.DeframeAppend | skynet/lualib-src/lua-netpack.c:183-307 | de-framing a stream in pieces, each continued from the tail of the last, gives the packets of the whole |
| Netpack.DeframeTail | skynet/lualib-src/lua-netpack.c:183-307 | a tail holds no packet |
| Netpack.PackDeframe | skynet/lualib-src/lua-netpack.c:431-452 | lpack fails exactly from 0x10000 bytes on, and else is undone by de-framing, whatever follows |
| Netpack.PackAllDeframe | skynet/lualib-src/lua-netpack.c:431-452 | any sequence of packets comes back whole |
| Netpack.NetQueue.FindUncomplete | skynet/lualib-src/lua-netpack.c:93-114 | takes the record of one socket out of the hash table and leaves all others |
| Netpack.NetQueue.SaveUncomplete | skynet/lualib-src/lua-netpack.c:170-180 | puts it back, alone for its socket |
| Netpack.NetQueue.PushData | skynet/lualib-src/lua-netpack.c:151-167 | appends to the ring, through every wrap and expansion |
| Netpack.NetQueue.ExpandQueue | skynet/lualib-src/lua-netpack.c:134-148 | a full ring grows with its packets in order |
| Netpack.NetQueue.PushMore | skynet/lualib-src/lua-netpack.c:189-215 | queues all packets of a buffer and keeps the unread tail as the socket's record |
| Netpack.NetQueue.FilterData | skynet/lualib-src/lua-netpack.c:228-307 | a chunk gives exactly the packets of tail and chunk together, at once if just one, and changes no other socket's tail |
| Netpack.NetQueue.Filter | skynet/lualib-src/lua-netpack.c:338-387 | for all sockets, in any interleaving and any splitting: what was emitted is the de-framing of the whole stream so far, with the tail in at most one record |
| Netpack.NetQueue.Close | skynet/lualib-src/lua-netpack.c:218-225 | a closed socket leaves no record |
| Netpack.NetQueue.Pop | skynet/lualib-src/lua-netpack.c:397-410 | packets leave in the order in which they came |
| RwLock.AcquireInv | skynet/skynet-src/rwlock.h:17-38 | every atomic operation of acquiring, the reader's retreat included, keeps the lock's invariant |
| RwLock.ReleaseInv | skynet/skynet-src/rwlock.h:40-48 | so does every one of releasing |
| RwLock.LockRunInv | skynet/skynet-src/rwlock.h:17-48 | so it holds in every run of any number of threads |
| RwLock.Exclusion | skynet/skynet-src/rwlock.h:17-48 | a writer is alone inside |
| RwLock.Balanced | skynet/skynet-src/rwlock.h:17-48 | with nobody inside or on the way the lock is as at first |
| StmSafety.AdvanceInv | skynet/lualib-src/lua-stm.c:47-115 | every atomic operation of readers and writers keeps "the count of a copy is the number of its holders" |
| StmSafety.RunInv | skynet/lualib-src/lua-stm.c:47-235 | so it holds in every run |
| StmSafety.NeverDangles | skynet/lualib-src/lua-stm.c:93-115 | no operation touches a freed copy, the assertion on the count holds, and what a reader keeps as last copy is there |
| StmSafety.FreedOnce | skynet/lualib-src/lua-stm.c:47-55 | a payload is freed at most once, and only when nobody holds it |
| StmSafety.NoneLeaks | skynet/lualib-src/lua-stm.c:195-235 | at rest every copy left is the object's or some reader's last |
| SharedTable.CountSize | skynet/lualib-src/lua-sharedata.c:67-89 | countsize counts the keys outside the array part, in whatever order lua_next gives them |
| SharedTable.FreeSlot | skynet/lualib-src/lua-sharedata.c:253-260 | fewer filled slots than keys leave one free: the search cannot run out |
| SharedTable.PlaceHead | skynet/lualib-src/lua-sharedata.c:213-235 | taking a free main position keeps all chains |
| SharedTable.PlaceBehind | skynet/lualib-src/lua-sharedata.c:238-272 | linking a key in behind its main position keeps all chains |
| SharedTable.AllFilled | skynet/lualib-src/lua-sharedata.c:277-325 | the finished hash part has no empty slot |
| SharedTable.Table.FillNoColliding | skynet/lualib-src/lua-sharedata.c:213-235 | fills the array part, and each main position with its first key |
| SharedTable.Table.TakeFree | skynet/lualib-src/lua-sharedata.c:238-272 | a colliding key gets a free slot: the assertion never fails |
| SharedTable.Table.FillColliding | skynet/lualib-src/lua-sharedata.c:238-272 | after the second pass the table is complete |
| SharedTable.Table.KeyHasSlot | skynet/lualib-src/lua-sharedata.c:277-325 | a key has a slot if and only if it is a key of the source outside the array part |
| SharedTable.Table.LookupKey | skynet/lualib-src/lua-sharedata.c:501-530 | finds every present key with its value and rejects every absent one, even from inside another key's chain |
| SharedTable.Table.Index | skynet/lualib-src/lua-sharedata.c:532-566 | the value that the source table has, for any key |
| SharedTable.Table.OrderVisits | skynet/lualib-src/lua-sharedata.c:579-646 | the order of iteration has each key of the source once |
| SharedTable.Table.NextKey | skynet/lualib-src/lua-sharedata.c:589-646 | from nil, or from any key, iteration goes to the next in that order, and ends |
| SeriSpec.TagBits | skynet/lualib-src/lua-seri.c:16-37 | type and cookie are joined and taken apart without loss |
| SeriSpec.IntRoundTrip | skynet/lualib-src/lua-seri.c:143-174 | every 64-bit integer in its shortest form comes back |
| SeriSpec.StrRoundTrip | skynet/lualib-src/lua-seri.c:191-213 | every string in its short or long form comes back |
| SeriSpec.SizeRoundTrip | skynet/lualib-src/lua-seri.c:218-237 | so does an array size in either form |
| SeriSpec.RoundTrip | skynet/lualib-src/lua-seri.c:297-532 | unpacking a packed value gives it back and consumes exactly its own bytes, whatever follows |
| SeriSpec.AllRoundTrip | skynet/lualib-src/lua-seri.c:343-612 | so for any sequence of values |
| Seri.WriteBlock.Push | skynet/lualib-src/lua-seri.c:66-85 | writing over the 128-byte blocks appends to one flat byte sequence |
| Seri.WriteBlock.PackOne | skynet/lualib-src/lua-seri.c:297-340 | appends the packed value, and fails exactly on values nested too deep |
| Seri.WriteBlock.SeriBytes | skynet/lualib-src/lua-seri.c:535-553 | the blocks are copied out as that flat sequence |
| Seri.WriteBlock.PackAll | skynet/lualib-src/lua-seri.c:600-612 | packs all values, or fails exactly when one is nested too deep |
| Seri.ReadBlock.UnpackOne | skynet/lualib-src/lua-seri.c:524-532 | reads what the format says is at the cursor and moves behind it, or fails on a malformed stream |
| Seri.ReadBlock.UnpackTable | skynet/lualib-src/lua-seri.c:435-465 | the same for tables, a negative size meaning no array part |
| Seri.UnpackAllValues | skynet/lualib-src/lua-seri.c:556-597 | reads values until the bytes end |
| Seri.PackThenUnpack | skynet/lualib-src/lua-seri.c:556-612 | packing and unpacking give back every sequence of values that is not nested too deep |
| HandleProbing.HandleBits | skynet/skynet-src/skynet_handle.c:55-56 | joining the harbour bits adds them, and the mask takes them off |
| HandleProbing.MaskIsSlot | skynet/skynet-src/skynet_handle.c:48-49 | the mask of a power of two, bit by bit, is the remainder |
| HandleProbing.HarborBitsDoNotMatter | skynet/skynet-src/skynet_handle.c:62-66 | a full handle and its low bits have the same slot |
| HandleProbing.DoublingSeparates | skynet/skynet-src/skynet_handle.c:62-66 | on doubling a handle stays in its slot or moves up by the old size |
| HandleProbing.NonzeroProbed | skynet/skynet-src/skynet_handle.c:40-58 | a round of probes tries every slot but 0, wherever it starts |
| HandleProbing.ZeroProbed | skynet/skynet-src/skynet_handle.c:40-58 | it tries slot 0 if and only if no wrap falls inside it |
| Handles.TakenMeansCrowded | skynet/skynet-src/skynet_handle.c:40-58 | a round finds nothing if and only if every slot is held, save slot 0 when a wrap passes it over |
| Handles.MissedExactly | skynet/skynet-src/skynet_handle.c:59-66 | the doubling meets an empty slot 0 if and only if all others are held and the wrap falls inside the round |
| Handles.RoomAfterDoubling | skynet/skynet-src/skynet_handle.c:40-70 | after one doubling the next round finds a slot |
| Handles.HandleStorage.FirstFree | skynet/skynet-src/skynet_handle.c:42-58 | the probing loop finds the first free slot of the round |
| Handles.HandleStorage.Double | skynet/skynet-src/skynet_handle.c:60-66 | no two contexts collide in the doubled array, and each sits at its handle modulo its length |
| Handles.HandleStorage.Register | skynet/skynet-src/skynet_handle.c:35-71 | the new handle is not live, is the first free one, and was never issued before unless the numbering has wrapped; says exactly when registering fails and how |
| Handles.NullContextRun | skynet/skynet-src/skynet_handle.c:59-66 | a run of registering and retiring, without a wrap yet, after which the next registration reads a null context |
| Handles.HandleStorage.Retire | skynet/skynet-src/skynet_handle.c:74-110 | exactly the live handle goes, with exactly its names |
| Handles.HandleStorage.RetireAll | skynet/skynet-src/skynet_handle.c:113-134 | no handle stays live, and only names of handles that were not live stay |
| Handles.HandleStorage.Grab | skynet/skynet-src/skynet_handle.c:137-153 | a context if and only if the handle is live, and the right one |
| NameDirectory.HalfDecided | skynet/skynet-src/skynet_handle.c:165-178 | what the comparison in the middle says of one half of the sorted names |
| NameDirectory.InsertKeeps | skynet/skynet-src/skynet_handle.c:186-233 | inserting at the place found keeps the names strictly sorted and adds one binding to the map |
| NameDirectory.WithoutKeeps | skynet/skynet-src/skynet_handle.c:86-97 | striking a handle out keeps them sorted and removes exactly its bindings |
| Handles.HandleStorage.FindName | skynet/skynet-src/skynet_handle.c:156-183 | binary search agrees with the map, with 0 for an unknown name |
| Handles.HandleStorage.InsertNameBefore | skynet/skynet-src/skynet_handle.c:186-209 | in the same array or a doubled one the new name stands between what was before and after it; the assertion on the capacity holds whenever the doubling does not overflow |
| Handles.HandleStorage.NameHandle | skynet/skynet-src/skynet_handle.c:236-244 | adds a binding exactly when the name is free and the capacity can still be doubled in an int |
| DiffieHellman.MulModP | skynet/lualib-src/lua-crypt.c:717-737 | the product modulo P in 64-bit words, with no wrong wrap-around, for a up to and including P |
| DiffieHellman.PowModP | skynet/lualib-src/lua-crypt.c:739-750 | congruent to the power modulo P, and less than P except for the first power of P |
| DiffieHellman.PowerModP | skynet/lualib-src/lua-crypt.c:753-758 | the power modulo P if and only if not (a = P and b = 1) |
| DiffieHellman.GeneratorNeverZero | skynet/lualib-src/lua-crypt.c:790-810 | 5 is invertible modulo P, so no power of it is 0 |
| DiffieHellman.SameSecret | skynet/lualib-src/lua-crypt.c:775-810 | both orders of exponents give the same power, which is not 0 |
| DiffieHellman.Exchange | skynet/lualib-src/lua-crypt.c:792-810 | fails exactly on a bad size or a zero key, and never sends 0 |
| DiffieHellman.Secret | skynet/lualib-src/lua-crypt.c:775-788 | fails exactly on bad sizes or a zero, and else gives the power, with the one exception |
| DiffieHellman.Agree | skynet/lualib-src/lua-crypt.c:775-810 | for all non-zero private keys both sides get the same secret, 5^(xy) modulo P |
| Des.PermutationsInverse | skynet/lualib-src/lua-crypt.c:204-226 | DES_FP and DES_IP undo each other |
| Des.InitialIsStandard | skynet/lualib-src/lua-crypt.c:204-213 | DES_IP is the table IP of FIPS PUB 46-3, with each half turned left by one bit |
| Des.RoundsBack | skynet/lualib-src/lua-crypt.c:230-243 | the subkeys in reverse order undo the rounds, for arbitrary S-boxes |
| Des.CryptBack | skynet/lualib-src/lua-crypt.c:317-338 | des_crypt with the subkeys turned round undoes des_crypt on every block |
| Des.PaddedEnds | skynet/lualib-src/lua-crypt.c:379-396 | the padding can be read from the end of a padded text in one way only |
| Des.Reverse | skynet/lualib-src/lua-crypt.c:402-409 | ldesdecode turns the subkeys round in pairs |
| Des.FindPadding | skynet/lualib-src/lua-crypt.c:422-438 | the loop, with its mixed signed and unsigned comparison, finds the padding exactly when there is one in the last block |
| Des.DesEncode | skynet/lualib-src/lua-crypt.c:367-399 | the padded text, block by block, for texts of any length |
| Des.DesDecode | skynet/lualib-src/lua-crypt.c:402-439 | gives back a text if and only if it was given the encoding of that text; says exactly when the padding loop leaves the block |
| Des.EncodeThenDecode | skynet/lualib-src/lua-crypt.c:367-439 | decoding undoes encoding for every key of 8 bytes and every text |

## Left out

- PegVerify.AcceptedTerminates: its two conditions are exact for left recursion only. A left recursive grammar, or one with a call in a look-behind, may still have a meaning on some or on all subjects, as `AcceptedHidden` has on some.
- PegTheorem.CompileAndMatch: has the same conditions, as a pattern without a meaning has nothing to agree with.
- PegTheorem.Compile: the analyses that it calls are given for grammars without left recursion; `PegLeftCalls` gives the code of one with it by hand.
- GcCollector.Collector.FullGc: speaks of non-shared objects; shared ones belong to another state.
- Handles.HandleStorage.RetireAll: nobody registers meanwhile; with registrations in between the source's loop just goes on.
- LPeg: captures, run-time captures, ktables, the stack limit, debug printing. The two instructions FailTwice and Commit on a wrong stack entry are modelled as stuck, and proved never to be.
- LPeg code layout: an instruction occupies one slot here, with its operands inside; the growth of the code array and dead slots of unused instructions are not modelled. Calls are closed in one pass at the end instead of once per grammar.
- LPeg trees: all rules of a pattern live in one table, and rules that nothing refers to are not checked; callrecursive marks rules and not call nodes.
- Collector: weak tables, ephemerons, finalizers (their lists are empty), fixed objects, open upvalues, emergency collections, stack shrinking, and the pacing by debt and estimates.
- Scheduler: the error reply for a dropped message is an activity of its own, which may be later than in the source, where the dropping loop waits for it; skynet_context_dispatchall, the log line after a launch, worker weights, the monitor, profiling, and the module's own code.
- Timer: the spin lock itself, dispatching into mailboxes, and delays of 0, which skynet_timeout answers itself.
- Sockets: the writes of send_buffer to its own lists one by one (under dw_lock, and unlocked readers may see anything of them), the count going down a step after a packet is queued; reading, UDP, listening, address lookup, events, the warning about large buffers, reuse of ids, user objects in buffers, and senders on a socket whose connection is still reserved.
- Netpack: copying and freeing of buffers, and the Lua side of the iterator.
- Snapshots: the lifetime of the stm_object itself; it lives throughout.
- Shared table: the dirty flag, reference counts, table values (values are abstract), the string map (string keys stand for themselves), and keys that are tables.
- Serialiser: the __pairs metamethod, the error for a NaN key of an unpacked table, stack and memory errors; reals and pointers are their eight bytes, words are little-endian.
- Handles: the read lock around each operation, and the reference that grab takes and retire releases.
- DES: the S-boxes and the key schedule are arbitrary functions; lrandomkey, hashes, HMAC, hex and base64.
- Everything else of the repository: services, Lua libraries, the Lua core, clustering, databases, logging, start-up.
