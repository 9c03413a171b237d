# A verified model of PETeR

PETeR is a process supervisor: a scheduler thread walks a schedule of timed work units, forks and
signals programs, reaps them and decides from their exits what to do next. This project models that
thread and its programs, the one-time-pad command protocol, the XML trees that configuration and
commands are read from and printed to, and the text algorithms beside them, and proves what they are
for. `dafny verify dfyconfig.toml` checks all of it.

## How it is put together

The **scheduler** is modelled three times, each time proved against the one before it.

1. `System` holds the data of one scheduler and of the part of the operating system it depends on
   (the children forked and not yet waited for, the signals sent, the clock), and every operation of
   `Program.cc` and `Scheduler.cc` as a function on it.
2. `Machine` is the thread as a state machine: one `Go` step is one round of one of the thread's
   loops, and between any two rounds a child may die, the clock may move either way and the socket
   thread may append a unit. Every sequence of labels is a run, so a lemma about `Run(m, labels)` is
   about every reachable state. `Registry`, `Conservation`, `UnitHistory`, `RestartBound`, `Runtimes`,
   `SwitchOff` and `Shutdown` prove what holds in all of them. `Exits` says what follows the death of
   a child, from its wait status to the units queued, and `Effects` what else a step of any run does
   that others can see, both in terms of the event log and of names. `BoundMet` is, for every number
   of commands and every limit, a run that meets the restart bound, and `TwoChildren` a run in which
   one program gets a second child. `Passes` and `Translation` say what the first pass and
   `what_next` do without running them.
3. `Supervisor` and `Thread` are the classes of the original with their fields, loops and in-place
   updates. Every method is proved to do to the abstract state what the function of the same name
   says, loops included (`Loops` gives the loops as functions), and `LoopRuns` shows that every loop
   is a run of the machine, so that `Turns` can say what a whole turn leaves.
   `SchedulerThread.Serve` puts the three together.

`fork` answers with any positive pid that no unreaped child holds; `waitpid` with any dead child that
matches, 0 or -1 as the children are; `kill` with success or failure. These answers, the outcome of
the checks before a fork, the wait statuses and the clock are parameters of the steps. A wait status
is Linux's: the exit code times 256, or the signal, plus 128 if a core was dumped.

The **pad** (`Otp`, `KeyProtocol`) works on bytes 0 to 255 through the tables and loops of the
original. The **XML** part has the printers (`XmlText`, `XmlPrinter`), what their output can be read
as (`XmlReading`), a scanner of tags, comments and text that shares nothing with the printers
(`XmlScanner`), the parser's handlers on an arena of nodes (`XmlBuilder`), what becomes of a tree
that is printed and read again (`XmlReplay`) and nodes, handlers, printers and child cursor on the heap
(`XmlNodes`). A document is what a parser reports: elements and text in chunks, the text between two
tags in any number of them. The **texts** are `Durations`, `Tokens`, `Substitution`, `ArgSplit` and
`RangeLists`, with `Decimal` for numerals.

## Where the code and its promises part

- A child's pid is forgotten while the child lives, when the maxruntime pass finds its program over
  its limit (src/Scheduler.cc:157-166), and the program can then be started again beside it:
  `TwoChildrenOfOne` is such a run. `CurrentIffNeverForgets` says that over any run every program's
  pid names its only child if and only if that pass never finds a program over its limit. The registry
  theorem holds in any case.
- The key of a reply that was lost is used again: the client goes on from behind its own request, the
  server had gone twice as far (src/otpcmd.cc:220, src/Socket.cc:283). `LostReplyOverlaps` says for
  which next request and reply.
- The time a child ended in the shutdown is the time the thread began: the inner `now`
  (src/Scheduler.cc:95) hides the outer one (src/Scheduler.cc:86), which the shutdown uses. The model
  follows the code.
- The manual speaks of SIGHUP for ending the programs (man/peter.1:107-110); the code sends each
  program's own stop signal, 15 by default (src/Scheduler.cc:263-264). The model follows the code.
- Stopping a program leaves `stop_mode` 0 (src/Scheduler.cc:117), so it is restarted like any other;
  `BooksBalance` has `stop_mode == 0` as one of its clauses.
- Printing and reading a tree again gives the same print exactly when the parser reports the text of
  every childless element in one chunk: `set_contents` overwrites (src/XMLNode.cc:331-334), so only
  the last chunk is kept. `PrintReplays` and `ReplayFixpoint` are if and only if.
- The lookup of a first child by name stops before the last child (src/XMLNode.cc:530);
  `LookupMisses` says exactly when it differs from a walk over all children.
- A command line that ends in an unquoted blank gives an empty argument at its end
  (src/util.cc:254-264); `PointersReadWords` covers it.
- A duration is written in weeks that fit an `int`; nothing but an empty string is written for a
  negative one down to -60 * 2^31 seconds.

## Model

| member | source | states |
|---|---|---|
| Registry.RegistryHolds | src/Scheduler.cc:104-348 | in every reachable state, maxruntime limits included, the pids other than 0 that are registered for a program are exactly the unreaped children, each under its owner, and each nonzero pid held is an unreaped child of that program; the "NULL Program?!" exit is never taken |
| Registry.CurrentIffNeverForgets | src/Scheduler.cc:150-190 | over every run: each unreaped child is the one its program's pid names, in every state, if and only if the maxruntime pass never finds a program over its limit |
| Registry.OneChildPerProgram | src/Program.cc:83-91 | as long as it does not, the programs holding a pid and the unreaped children are in bijection through `pid` and `running`, so no program has two children |
| Registry.NoLimitsNeverForget | src/Program.cc:578-585 | without maxruntime limits it never does |
| TwoChildren.TwoChildrenOfOne | src/Scheduler.cc:104-166 | a run in which a program with a maxruntime limit of 5 ends with two unreaped children |
| Registry.InvReap | src/Scheduler.cc:179-218 | burying a child and following its actions keeps the registry, a restart under the same pid included |
| Conservation.BooksBalance | src/Scheduler.cc:87-250 | in every reachable main-loop state `stop_mode` is 0, START events = `starts` = END and CRASH events + unreaped children, and `seq_idx` is (starts - unreaped children) modulo the sequence's length |
| UnitHistory.ServedOnceOnTime | src/Scheduler.cc:95-147 | every start or stop unit ever appended is either still in the schedule, once, and no tick so far was due for it, or was acted on exactly once, at the first tick not before its time |
| Effects.ActsAreDone | src/Scheduler.cc:104-128 | in any run, acting on a stop unit logs STOP and sends exactly the program's stop signal to the pid it holds, nothing if it holds none; acting on a start unit leaves a program with a pid alone, and gives one without a new running child, an EXIT unit or nothing, as the start turns out |
| SwitchOff.OffIffExitMet | src/Scheduler.cc:99-103 | in every reachable state the scheduler is off if and only if some EXIT unit ever appended is no longer pending, and no pending one has been passed by a whole walk |
| Exits.DeathIsFollowed | src/Scheduler.cc:182-216 | in every reachable state, reaping a child that exited with a code or died by a signal logs END or CRASH with its status, clears pid and registry, and draws the consequences: the next command in the middle of a sequence (the number of logged deaths tells where), at its end a LIMIT event per limit met and the orders of the list for that code or signal, without self-starts exactly if the last run was too short or the log has more starts than the limit |
| Exits.StatusTells | src/Scheduler.cc:193-204 | the fields of a wait status give back the exit code or the signal it was made from |
| Exits.StartLimitCountsStarts | src/Program.cc:508-513 | in every reachable main-loop state the start limit keeps a program from restarting if and only if its START events outnumber it |
| RestartBound.StartsBounded | src/Program.cc:476-550 | a program with n commands and start limit L, started by at most one unit and restarted only by its own exits, at most one self-start per list, has at most one child or pending start at any time and never more than n * (L/n + 1) starts |
| BoundMet.BoundIsMet | src/Program.cc:508-550 | for any commands and any limit there is such a program and a run in which it is started exactly n * (L/n + 1) times |
| RestartBound.EndsWhenEven | src/Program.cc:479-487 | a program without a child is at the end of its sequence exactly when its starts are a multiple of the sequence's length |
| Shutdown.ShutdownAccounts | src/Scheduler.cc:258-348 | when the main loop is left with no child forgotten and signalling children succeeds: in both wait loops the count of programs left is the number of unreaped children and of programs with a pid; after the SIGKILL phase every child left was sent signal 9 in that phase; READY without that phase means no child is left |
| Shutdown.NeverForgetsStopsClean | src/Scheduler.cc:157-166 | a run in which the maxruntime pass finds no program over its limit leaves the main loop with no child forgotten |
| Shutdown.KillPhaseIffSurvivors | src/Scheduler.cc:278-312 | the grace loop is left for the SIGKILL phase if a child is unreaped, and for READY if none is |
| Shutdown.ShutdownIsPatient | src/Scheduler.cc:273-344 | no run makes more than 10000 sweeps of the grace loop or 1000 waits after SIGKILL; under the same premises SIGKILL is used only after all 10000 sweeps, and a child is left at the end only after all 1000 waits |
| Shutdown.HeldAreChildren | src/Scheduler.cc:260-269 | counting the programs with a pid counts the unreaped children |
| Effects.SignalsAreSent | src/Scheduler.cc:112-318 | in every step of any run the signals sent are exactly the stop signal for a due stop unit, for an overdue program in its round of the maxruntime pass and for each program when the shutdown begins, and 9 for each program in the SIGKILL phase; each goes to an unreaped child, never to a pid already waited for |
| Effects.OverdueAreForgotten | src/Scheduler.cc:151-168 | in any run the maxruntime pass takes each program in turn and forgets and logs it exactly if the time since its last START event is over its limit |
| Effects.ReapsInTurn | src/Scheduler.cc:174-220 | in any run the reap loop stays with a program until no child it waits for is dead, and goes on with the pid the next one holds by then |
| Effects.ShutdownWaits | src/Scheduler.cc:280-344 | in any run, what each wait of the shutdown does to the children, the registry, the two counters and the program's end time |
| Effects.RoundsGoOn | src/Scheduler.cc:87-320 | in any run, what the rounds that wait for nobody lead to: the test of the main loop with the clock it reads, the count of successful stop signals, the end of a sweep, the count of programs sent signal 9, with the limits of 10000 and 1000 tries |
| Effects.WaitGives | src/Scheduler.cc:179 | a wait gives a dead child, the one it is for if it is for one, nothing only if no such child is dead, and -1 exactly if there is none |
| Effects.RequestsQueue | src/Socket.cc:335-370 | in any run a start or stop request queues one unit for now for the first program with the name, and nothing if there is none; a quit request an EXIT unit |
| Passes.VisitProgress | src/Scheduler.cc:96-136 | every round of the first pass brings the walk nearer its end, although starting a program may append an EXIT unit to the schedule being walked |
| Passes.WalkedFilters | src/Scheduler.cc:138-147 | after both passes the schedule is the order-preserving filter of the one before them |
| Passes.SurvivorsAre | src/Scheduler.cc:99-133 | that filter keeps exactly the start and stop units that are not due and the WAIT units, order and number included |
| Loops.FirstPassFilters | src/Scheduler.cc:96-147 | the first pass as a whole leaves exactly the survivors |
| Loops.ReapProgress | src/Scheduler.cc:179-219 | reaping a child leaves one dead child less, whatever its actions start, so the reap loop ends |
| Turns.TurnReapsAll | src/Scheduler.cc:170-220 | when a turn of the main loop that began in a reachable state ends, every pid held is that of a running child of that program, and if no child is forgotten no dead one is left |
| Translation.WhatNextTranslates | src/Program.cc:467-567 | a program stopped by hand only loses the mark; in the middle of a sequence exactly a start of the next command is queued; at its end the units appended are, in action order, the orders of the list, self-starts dropped exactly if a limit is reached, and the program is put to work exactly if a zero-delay self-start of the list forks |
| Translation.ActionsAreOrders | src/Program.cc:518-566 | the loop over the actions appends the orders of the actions, each with its kind and time and for the first program with the name or the program itself if none has it, drops self-stops, logs a START event exactly if the program was put to work, and changes no other program |
| Translation.LimitRemovesSelfStarts | src/Program.cc:541-544 | a reached limit does what leaving the self-starts out of the list does, and nothing else |
| Translation.SequenceEndTranslates | src/Program.cc:492-566 | the end of a sequence: no actions found changes nothing, a list found is translated |
| LoopRuns.TickRun | src/Scheduler.cc:95-220 | one turn of the main loop is a run of the machine |
| LoopRuns.ShutDownRun | src/Scheduler.cc:258-348 | the shutdown is a run of the machine |
| LoopRuns.MainLoopReachable | src/Scheduler.cc:87-250 | from a reachable state the main loop ends in one, and never by the "NULL Program?!" exit |
| LoopRuns.ShutDownSound | src/Scheduler.cc:258-348 | the shutdown of a reachable scheduler ends without that exit, and if no child was forgotten and no kill fails, with no child left or SIGKILL sent in its SIGKILL phase to every child left |
| LoopRuns.ReachableIsSound | src/Scheduler.cc:87-348 | reachable states have the registry and the books in order |
| LoopRuns.FreshIsReachable | src/Scheduler.cc:355-381 | a scheduler as it is started is reachable |
| System.FindProgram | src/Scheduler.cc:404-413 | the first program with the name, or none has it |
| System.TargetIsNamed | src/Program.cc:527-530 | an action is about the first program with its name, and about the acting program itself when none has it |
| System.GetActions | src/Program.cc:445-462 | there is no list exactly when neither the signal nor signal 0 has one, or the result has none |
| System.WaitPidResult | src/Scheduler.cc:179 | a matching dead child if there is one, 0 if matching children all run, -1 if none match |
| System.NewPid | src/Program.cc:254 | a positive pid that no unreaped child holds, and any such pid can be the answer |
| Supervisor.Program.constructor | src/Program.cc:60-81 | a new program: no commands, stop signal 15, no limits, not running |
| Supervisor.Program.AddSeqCmd | src/Program.cc:573-576 | a command is appended to the sequence |
| Supervisor.Program.AddResAction | src/Program.cc:378-380 | the list for one result replaced, all others kept |
| Supervisor.Program.AddSigAction | src/Program.cc:382-384 | the list for one signal replaced, all others kept |
| Runtimes.RuntimeIsSinceStart | src/Program.cc:393-401 | in every reachable state a program holding a pid has been started, its runtime is the time since its last START event, and it is over its maxruntime limit exactly if that is longer (a start at time 0 counts as no time) |
| Runtimes.MinRuntimeJudgesTheRun | src/Program.cc:502-507 | when the child its pid names has been reaped, a program misses its minruntime limit exactly if the time from its last START event to the tick that reaped it is shorter, whatever the clock says |
| Supervisor.Program.Run | src/Program.cc:83-308 | nothing for a running program; a missing home or binary appends an EXIT unit; an unwritable log only fails; else the fork and its bookkeeping |
| Supervisor.Program.Spawn | src/Program.cc:254-307 | from the fork on: pid, times, starts, registry and START event |
| Supervisor.Program.SendSignal | src/Program.cc:322-333 | a signal goes to the pid held; without one nothing is sent and -1 returned |
| Supervisor.Program.IncSeqIdx | src/Program.cc:569-571 | the next command, the first after the last |
| Supervisor.Program.WhatNext | src/Program.cc:467-567 | the whole effect on the scheduler of an exit |
| Supervisor.Program.FollowActions | src/Program.cc:492-566 | looking up the list, checking the limits and following it |
| Supervisor.Program.FollowList | src/Program.cc:518-566 | the loop over the actions |
| Supervisor.Program.CheckLimits | src/Program.cc:501-513 | whether a limit keeps the program from restarting, one LIMIT event for each that does |
| Supervisor.Program.ApplyAction | src/Program.cc:521-565 | one action: direct start, queued start, stop of another program, exit of the scheduler |
| Supervisor.Scheduler.AddProgram | src/Scheduler.cc:397-399 | the program is appended to the table |
| Supervisor.Scheduler.AddWorkunit | src/Scheduler.cc:390-392 | the unit is appended to the schedule |
| Supervisor.Scheduler.GetProgramByName | src/Scheduler.cc:404-413 | the first program with the name, or null if there is none |
| Supervisor.Scheduler.ServeCommand | src/Socket.cc:335-375 | start, stop and quit append their units; nothing for an unknown program |
| Thread.SchedulerThread.VisitUnit | src/Scheduler.cc:96-136 | one round of the first pass |
| Thread.SchedulerThread.StartDue | src/Scheduler.cc:104-111 | acting on a due start |
| Thread.SchedulerThread.StopDue | src/Scheduler.cc:115-128 | acting on a due stop |
| Thread.SchedulerThread.FirstRound | src/Scheduler.cc:96-136 | a round does not change what the walk leads to and lessens the work left |
| Thread.SchedulerThread.FirstPass | src/Scheduler.cc:95-136 | the first pass ends and leaves exactly the survivors once used units are erased |
| Thread.SchedulerThread.ErasePass | src/Scheduler.cc:138-147 | erasing in place leaves the unused units in their order |
| Thread.SchedulerThread.RuntimePass | src/Scheduler.cc:150-168 | every program over its maxruntime limit is signalled, forgotten and logged |
| Thread.SchedulerThread.Reap | src/Scheduler.cc:182-217 | the body of the reap loop: registry, event, result and signal, what next |
| Thread.SchedulerThread.WaitChild | src/Scheduler.cc:179-186 | one wait and the lookup of the child, which leaves a NULL entry for an unknown one |
| Thread.SchedulerThread.ReapProgram | src/Scheduler.cc:175-219 | the inner reap loop ends and does what its function says, the early exit included |
| Thread.SchedulerThread.ReapPass | src/Scheduler.cc:174-220 | all programs in turn, each with the pid it holds by then |
| Thread.SchedulerThread.Tick | src/Scheduler.cc:95-220 | one turn of the main loop |
| Thread.SchedulerThread.MainLoop | src/Scheduler.cc:87-250 | turns until the scheduler is off |
| Thread.SchedulerThread.SignalAll | src/Scheduler.cc:258-269 | every program holding a pid is sent its stop signal; the successes are counted |
| Thread.SchedulerThread.KillAll | src/Scheduler.cc:310-318 | every program holding a pid is sent signal 9 and counted |
| Thread.SchedulerThread.WaitOnce | src/Scheduler.cc:284-303 | one wait of a shutdown loop and its two counters |
| Thread.SchedulerThread.GraceSweep | src/Scheduler.cc:280-304 | one sweep of the grace loop |
| Thread.SchedulerThread.GraceLoop | src/Scheduler.cc:275-305 | at most 10000 sweeps while the second counter is positive |
| Thread.SchedulerThread.AftermathLoop | src/Scheduler.cc:321-344 | at most 1000 waits for any child after SIGKILL |
| Thread.SchedulerThread.ShutDown | src/Scheduler.cc:258-348 | everything after the main loop |
| Thread.SchedulerThread.Serve | src/Scheduler.cc:84-353 | the thread from a reachable start: never the early exit, registry and books in order when the main loop is left; if no child is forgotten there and no kill fails, after the shutdown no child is left or SIGKILL was sent in its SIGKILL phase to every one that is |
| Otp.BinEInt | src/otp.cc:115-120 | the two codes of a byte |
| Otp.CodesRoundTrip | src/otp.cc:115-143 | joining the codes gives the byte back; both are between 64 and 79 |
| Otp.CreateEMatrix | src/otp.cc:166-172 | the table holds the sums modulo 256 |
| Otp.CreateDMatrix | src/otp.cc:176-186 | the table holds the differences, 256 added to negative ones |
| Otp.ByteRoundTrip | src/otp.cc:188-206 | subtracting the key byte undoes adding it, through the codes |
| Otp.OtpEChar | src/otp.cc:211-224 | the loop up to the NUL appends the ciphertext |
| Otp.OtpDChar | src/otp.cc:229-241 | the loop reads the whole ciphertext and appends the plaintext |
| Otp.RoundTrip | src/otp.cc:211-241 | deciphering gives the plaintext back for every plaintext and key at least as long; the ciphertext is twice as long and needs no escaping in XML character data (section 2.4 of XML 1.0) |
| Otp.CiphertextAdds | src/otp.cc:115-224 | each plaintext byte shows in two codes, higher half first and 64 added to each, as its sum with the key's byte modulo 256 |
| Otp.EveryPlaintextFits | src/otp.cc:211-241 | between any plaintext and any ciphertext of twice its length there is exactly one key |
| KeyProtocol.Encipher | src/otp.cc:41-67 | an error when the key file ends too early, else the ciphertext under the key from the offset on |
| KeyProtocol.Decipher | src/otp.cc:69-88 | the plaintext under the key from the offset on |
| KeyProtocol.ReadAsWritten | src/otp.cc:41-88 | what one side enciphers the other reads, from the same offset |
| KeyProtocol.ServeRequest | src/Socket.cc:266-416 | the server reads at the client's offset, skips the ciphertext's length and replies at the offset after it |
| KeyProtocol.Client.Command | src/otpcmd.cc:161-281 | a run of the client: outcome, ciphertexts sent and the position it saves, the request and the reply read as they were written |
| KeyProtocol.Client.Session | src/otpcmd.cc:161-281 | run after run, the position saved and all ciphertexts are those of the exchanges one after another |
| KeyProtocol.UsedIsWhatShows | src/otp.cc:41-67 | the stretches of key an exchange uses are exactly what its ciphertexts depend on: under another key file of the same length they are the same if and only if the files agree there, and positions and outcome are the same anyway |
| KeyProtocol.SessionShows | src/otpcmd.cc:218-281 | the same for whole sessions |
| KeyProtocol.KeyNeverReused | src/otpcmd.cc:218-281 | over any session of completed exchanges the stretches of key used for all requests and replies are disjoint and increasing and end before the saved position |
| KeyProtocol.KeyBytesUsedOnce | src/otpcmd.cc:218-281 | no byte of the key file is in two of them |
| KeyProtocol.HalfIsUsed | src/Socket.cc:283 | a session of answered exchanges takes exactly twice as much of the key file as it uses |
| KeyProtocol.LostReplyOverlaps | src/Socket.cc:283 | the key of a lost reply is used again by the next request if and only if that is longer than the one before it, and by the reply to it exactly if twice the next request's length is below the first request's plus the lost reply's and the first request's is below it plus the next reply's |
| Durations.SecsToStr | src/util.cc:54-77 | the loop over the divisors writes the mixed-radix fields, zero ones left out, for every time whose weeks fit an int |
| Durations.FieldsAddUp | src/util.cc:55-76 | the fields sum to the time, with days < 7, hours < 24, minutes < 60, seconds < 60 |
| Durations.DurationReadsBack | src/util.cc:54-107 | read strictly (one field at least, each of two digits or more and a mark, marks in falling order) the text gives exactly the time |
| Durations.DurationInjective | src/util.cc:54-77 | different times are written differently |
| Tokens.Tokenize | src/util.cc:292-307 | the tokens are appended to those there |
| Tokens.SplitIsUnique | src/util.cc:292-307 | a list is the tokens if and only if it is nonempty, free of the delimiter and joins to the nonempty buffer |
| Substitution.ReplaceIn | src/util.h:50-60 | with a nonempty pattern the loop ends, even when the replacement contains the pattern, with the pieces joined by the replacement |
| Substitution.PiecesAreLeftmost | src/util.h:54-57 | the pieces joined by the pattern are the string, and each occurrence is the first after the one before it |
| ArgSplit.SplitArguments | src/util.cc:250-281 | with balanced double quotes the split ends, overwrites exactly the unquoted blanks, touches nothing else in the buffer and records the pointers |
| ArgSplit.LineIsCut | src/util.cc:250-281 | the bytes overwritten are exactly the blanks and tabs after an even number of double quotes, and the pointers, in rising order, exactly the places where a word begins, and the end of a line that ends in such a blank |
| ArgSplit.PointerReads | src/util.cc:250-281 | read up to NUL a pointer shows everything up to the next unquoted blank |
| ArgSplit.PointersReadWords | src/util.cc:250-281 | read up to NUL the pointers show the maximal pieces without an unquoted blank, in order, and an empty one if the line ends in one |
| RangeLists.RegisterResults | src/Config.cc:409-431 | the loop over a `result` list, up to an exception |
| RangeLists.RegisterSignals | src/Config.cc:386-408 | the loop over a `signal` list, up to an exception |
| Decimal.StoiReads | src/Config.cc:396-430 | what the numbers in a list are read as: spaces, a sign and digits give their value if it is an int, whatever follows, and no digits an exception |
| RangeLists.ListRegisters | src/Config.cc:386-431 | a comma list of values and ranges registers the new list for exactly the numbers it covers and leaves every other number as it was |
| RangeLists.BadTokenEnds | src/Config.cc:386-431 | the first token that is no number or range ends the registration; what was registered before it stays |
| RangeLists.ResultSeesLast | src/Program.cc:445-462 | lookups of a result see the last registration, those of a signal are unchanged |
| RangeLists.SignalSeesLast | src/Program.cc:445-462 | lookups of a signal see the last registration for it, else the last one for signal 0; those of a result are unchanged |
| XmlBuilder.Handle | src/expat_parser.cc:53-88 | every handler keeps the nodes a forest: children younger than parents, in order, and parent links exactly to the nodes that list them |
| XmlBuilder.Rebuilds | src/expat_parser.cc:53-88 | fed with any document's events the handlers never follow a missing pointer and end at level 0 with the root as current node and the document's tree under it |
| XmlReplay.BuiltIs | src/XMLNode.cc:259-334 | the tree built has the document's name, attributes and children in order, and the last chunk of its text where the text comes last |
| XmlNodes.ParseString | src/expat_parser.cc:90-121 | too short or malformed strings fail; else the root of a heap tree that is the document's |
| XmlNodes.XmlData.Start | src/expat_parser.cc:53-70 | the heap after a start tag, one new node included |
| XmlNodes.XmlData.End | src/expat_parser.cc:72-79 | the heap after an end tag |
| XmlNodes.XmlData.Contents | src/expat_parser.cc:82-88 | the heap after a chunk of text |
| XmlNodes.XMLNode.AddChild | src/XMLNode.cc:259-263 | the child is appended, its parent set and the node made a NODE |
| XmlNodes.XMLNode.SetContents | src/XMLNode.cc:331-334 | the contents replaced and the node made a LEAF |
| XmlNodes.XMLNode.GetFirstChild | src/XMLNode.cc:517-523 | the first child or null, the cursor on it |
| XmlNodes.XMLNode.GetNextChild | src/XMLNode.cc:552-558 | the next child or null, the cursor moved only if there is one |
| XmlNodes.XMLNode.GetChildren | src/XMLNode.cc:737-747 | all children with the name, in their order |
| XmlNodes.XMLNode.GetNamedChild | src/XMLNode.cc:720-729 | the first child with the name, or the caller's default |
| XmlNodes.XMLNode.GetFirstChildNamed | src/XMLNode.cc:528-536 | the first child with the name among all but the last |
| XmlNodes.LookupMisses | src/XMLNode.cc:528-536 | that lookup is right if and only if an earlier child has the name or the last has not |
| XmlNodes.XMLNode.Pp | src/XMLNode.cc:359-422 | the indented printer writes the printed form of the tree below the node |
| XmlNodes.XMLNode.PpFlat | src/XMLNode.cc:427-470 | the printer without layout |
| XmlPrinter.PrettyPrints | src/XMLNode.cc:359-470 | on trees without comments both printers write one balanced element, layout only between its parts |
| XmlScanner.PrintScans | src/XMLNode.cc:359-470 | a scanner of tags and comments (sections 2.5 and 3.1 of XML 1.0) reads both prints, comments included, as the tree's names, attributes and texts in order, in the indented one each element on its own lines two blanks deeper than its parent; each end tag closes the element opened last and nothing stays open |
| XmlScanner.TextIsDocument | src/expat_parser.cc:103-115 | what the scanner makes of a document's text is the document's events |
| XmlReading.CoreReads | src/XMLNode.cc:359-470 | any markup-free document with a printed element for its text has that element's names, attributes, nesting and texts, in whatever chunks, layout included |
| XmlReading.ReadingRenders | src/XMLNode.cc:359-470 | every such reading has the print for its text |
| XmlReplay.PrintReplays | src/XMLNode.cc:359-422 | a markup-free document with a tree's indented print for its text builds a tree that prints the same if and only if each childless element's text comes in one chunk |
| XmlReplay.PrintFlatReplays | src/XMLNode.cc:427-470 | the same for the printer without layout |
| XmlReplay.CanonicalReads | src/XMLNode.cc:359-422 | every print can be read with each text in one chunk |
| XmlBuilder.ReplayFixpoint | src/expat_parser.cc:53-88 | the fixpoint through the handlers, from the document a tree was parsed from to the document its print is read as |
| XmlBuilder.ReplayExists | src/expat_parser.cc:53-88 | there is a document that replays |

## Left out

- Durations.SecsToStr: says nothing of times whose weeks do not fit an int, nor of those below -60 * 2^31 seconds, where the cast in src/util.cc:67 wraps.
- ArgSplit.SplitArguments: lines whose double quotes do not balance are shut out, because the original then reads past the end of its buffer; the limit of 256 arguments and the single-quote branch (src/util.cc:266-270), which does nothing, are not modelled.
- Substitution.ReplaceIn: an empty pattern is shut out, because the original then does not end; the substitutions before `cmd = seq[seq_idx]` (src/Program.cc:133-153) are overwritten and not modelled.
- RangeLists.ListRegisters: ranges that end at the largest int are shut out, because the original's counter overflows there; the default list for result 0 (src/Config.cc:432-436) is not modelled.
- Otp.OtpEChar: bytes are 0 to 255, where the original indexes its table with a possibly signed char; the ciphertext functions on whole strings, bin_e and bin_d, are not modelled.
- KeyProtocol.Client.Command: the key file is the same on both sides and the position file is a field; connections and buffers are not modelled, and a request lost on its way is one that is not answered.
- XmlScanner.PrintScans: asks for names, values and texts without markup characters and comments without two hyphens in a row; the printers escape nothing, so other strings are not read as they were printed. Processing instructions and CDATA sections are not scanned.
- XmlNodes.XMLNode.GetNextChild: shut out for a node without children, where the original's unsigned bound wraps and an element past the end is read; its callers only come here from a child.
- XmlNodes.XMLNode.GetFirstChildNamed: shut out for a node without children for the same reason.
- XmlNodes.ParseString: the parser library is a document it reports or a failure; its normalisation of line ends and attribute values is not modelled, and a parse from a file is the same but for reading it.
- KeyProtocol.Decipher: shut out for contents that are not pairs of the codes 64 to 79, where the original reads its table, or the text, out of bounds.
- KeyProtocol.ServeRequest: shut out for the same contents.
- Supervisor.Scheduler.AddProgram: asks for a program with a command; the index of one without is taken modulo 0 in the original.
- Supervisor.Program.WhatNext: the result, signal and name attributes left with a target for its command line (src/Program.cc:532-536) are not modelled.
- Supervisor.Program.ApplyAction: the same attributes.
- Thread.SchedulerThread.Tick: one clock, and nothing else happens inside a turn; the state machine has every interleaving.
- Thread.SchedulerThread.Serve: serves as many turns as it is given.
- Thread.SchedulerThread.MainLoop: runs for as many turns as it is given; inside a turn the methods see one clock and nothing else happens but at the delay, while the state machine lets children die, the clock move and units arrive between any two rounds.
- Supervisor.Program.Run: user and group ids, the search along PATH, the log files and the work of the child after the fork are one outcome; a fork that fails ends the process in the original and is not modelled.
- Supervisor.Scheduler.ServeCommand: one scheduler; the access checks and the answer to the client are not modelled.
- Several schedulers in one process, which could reap each other's children, and children that leave the process group are not modelled.
- Races on the schedule vector and iterators that its growth makes invalid: an append is one atomic step here.
- A program that other code stops with Program::stop (src/Program.cc:335-376): nothing calls it.
- Lookups in the action maps that insert a NULL entry for a missing key: a missing key stays missing, which every lookup reads the same way.
- Log files, event printing, status pages, the pid file, dates, comment and option helpers of XMLNode, configuration other than range lists: easy, or input and output.
- Work units and programs are identified by number where the original has pointers; freeing them is not modelled.
