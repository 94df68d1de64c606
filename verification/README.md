# blocxx: a verified model

This project models the parts of the blocxx 2.3.0 library whose correctness is hardest to see from the
code, and proves what they promise. Run `dafny verify dfyconfig.toml` to check it.

| files | what they model |
|---|---|
| RWLockSpec, RWLockSafety, RWLockRuns, RWLockSchedules, RWLockOutcomes, GenericRWLock | the recursive, upgradable read/write lock: a step system of its critical sections with sleeping and signalled calls, invariants, whole runs, progress in every order and the outcome of every call, and the class with its counters that refines it |
| CowReference, CowRuns, CowProgress, CowIntrusive, CowIntrusiveValues, CowIntrusiveProgress | copy-on-write handles under every interleaving of their atomic actions, safe and ending, and the variant with the count inside the object |
| CowArray, CowArrayRuns | arrays on such handles on the heap, used by one thread, against plain sequences |
| CmdLineOptions, CmdLineParser, CmdLineGrammar, CmdLineUsage | the option table, the parse loop, the language of command lines, and the usage text with its wrapping loop |
| DivRem, DateTime, Calendar | division of known rounding, points in time with infinities in wrapping arithmetic, and calendar arithmetic |
| Format, FormatLoop, FormatTemplates | the format string interpreter, and the language of the templates that it accepts |
| BinarySerialization | lengths as in section 8.1.3 of ITU-T X.690, integers, strings and arrays on a byte stream |
| FileAppender, EnvVars | log rotation, and environment variables with their cached array |
| Common | options, a search in strings and regrouping of sequences |

Objects that the library updates in place are classes here, and their methods are proved against
functions; the lemmas are about those functions. A handle, an id or an address is a number. The lock's
condition variables are a map from waiting calls to their kind and a flag for having been signalled; a
wait may also return without a signal, and an unsignalled one may time out at any step. Atomic actions of
copy-on-write handles interleave freely, an address may be handed out again after it was freed, and one
handle is used by one thread at a time.

Where the code does not do what it is for, the lemma says exactly when it does:

- normalisation of times is exact if and only if the limits keep their distance from the ends of time_t;
- adding a duration is right for all arguments if and only if time_t is wide (with 32 bits it is not);
- addMicroseconds is exact if and only if 32 bits hold the sum, and leaves a value that looks special
  when it throws;
- a difference of times is right for all values if and only if 64 bits hold the span of the limits in
  microseconds;
- moving a local time to UTC is right if and only if it does not step back over 1 January;
- the usage wrapper ends if and only if the entry fits, there is room beside the indentation, or nothing
  follows the first line;
- an array is read back if and only if it has fewer than 2^32 elements;
- environment variables are rebuilt if and only if they contain no NUL;
- the two lookups of options agree on a switch if and only if it is without the value separator, neither
  finds an option, or one option has both names in question: an option that is named like the separator can
  be added, but no command line can name it;
- `parse` keeps the results of the call before, as the header of the parser promises for a throw
  (blocxx-2.3.0/src/blocxx/CmdLineParser.hpp:60), if and only if the arguments are a command line: it clears
  the results first and leaves the partial ones behind; a parser without results stays so if and only if the
  call succeeds or refuses its first argument;
- the format interpreter stays within int and notes no error if and only if the template is made of literals
  and references whose numbers fit an int.

## Model

| member | source | states |
|---|---|---|
| RWLockSafety.StepKeepsInv | blocxx-2.3.0/src/blocxx/GenericRWLockImpl.hpp:141-348 | every step of every call, timeouts and spurious wakeups included, keeps the invariant: a writer is alone in the locker map, at most one id writes or upgrades, no unsignalled call sleeps while the condition it waits for holds, and readers are shut out only on behalf of a writer that holds or waits |
| RWLockSafety.TryReadKeepsInv | blocxx-2.3.0/src/blocxx/GenericRWLockImpl.hpp:159-174 | a new reader that gets in or goes to sleep keeps the invariant |
| RWLockSafety.TryWriteKeepsInv | blocxx-2.3.0/src/blocxx/GenericRWLockImpl.hpp:282-303 | so does a writer without any lock |
| RWLockSafety.TryUpgradeKeepsInv | blocxx-2.3.0/src/blocxx/GenericRWLockImpl.hpp:250-275 | so does a reader that upgrades, while only it counts as a writer |
| RWLockSafety.ReleaseReadKeepsInv | blocxx-2.3.0/src/blocxx/GenericRWLockImpl.hpp:180-205 | a released read lock loses no wakeup: the last reader wakes every writer |
| RWLockSafety.FinalWriteKeepsInv | blocxx-2.3.0/src/blocxx/GenericRWLockImpl.hpp:328-347 | the last write lock wakes one writer, whichever the condition variable picks, and all readers, and that is enough |
| RWLockSafety.TimeOutKeepsInv | blocxx-2.3.0/src/blocxx/GenericRWLockImpl.hpp:261-272 | undoing a timed-out upgrade or write request, which reopens the lock to readers, loses no wakeup |
| RWLockRuns.RunKeepsInv | blocxx-2.3.0/src/blocxx/GenericRWLockImpl.hpp:141-348 | the invariant holds in every state that any run reaches |
| RWLockRuns.HoldsAreAcquiresMinusReleases | blocxx-2.3.0/src/blocxx/GenericRWLockImpl.hpp:152-174 | over every run an id holds exactly what it acquired and did not release, counted by mode |
| RWLockRuns.FailedCallsLeaveEntry | blocxx-2.3.0/src/blocxx/GenericRWLockImpl.hpp:261-272 | from the start of a call that times out or is refused to its end the entry of its id stays as it was, whatever other ids do |
| RWLockRuns.DeadlockIffOtherUpgrade | blocxx-2.3.0/src/blocxx/GenericRWLockImpl.hpp:239-248 | DeadlockException is raised if and only if a pure reader asks to write while another id is upgrading, and changes nothing |
| RWLockRuns.QuiescentIsInit | blocxx-2.3.0/src/blocxx/GenericRWLockImpl.hpp:129-134 | with nothing held and nobody waiting all state is the constructor's |
| RWLockRuns.NeverStuck | blocxx-2.3.0/src/blocxx/GenericRWLockImpl.hpp:160-346 | if calls wait and nobody is there to release, some signalled call can take its lock |
| RWLockRuns.DeadlockFree | blocxx-2.3.0/src/blocxx/GenericRWLockImpl.hpp:141-348 | from every reachable state, releases and signalled calls alone can bring every waiting call back with its lock and the lock back to its initial state |
| RWLockRuns.NothingHeldSomeoneFinishes | blocxx-2.3.0/src/blocxx/GenericRWLockImpl.hpp:160-346 | in particular, with nothing held some waiting call can take its lock |
| RWLockOutcomes.ReadOutcome | blocxx-2.3.0/src/blocxx/GenericRWLockImpl.hpp:143-175 | a read request gets in at once if and only if the id holds any lock already, or readers are let in and nobody writes or upgrades; otherwise it waits |
| RWLockOutcomes.WriteOutcome | blocxx-2.3.0/src/blocxx/GenericRWLockImpl.hpp:210-306 | a write request gets in at once if and only if the id writes already or no other id holds a lock; of the others a reader is refused while another upgrades, and the rest wait |
| RWLockOutcomes.WakeOutcome | blocxx-2.3.0/src/blocxx/GenericRWLockImpl.hpp:160-166 | a call that wakes up gets in if and only if a new one of its kind would |
| RWLockOutcomes.ReleaseOutcome | blocxx-2.3.0/src/blocxx/GenericRWLockImpl.hpp:180-348 | a release succeeds if and only if the id holds such a lock, and nothing but the end of a wait times out |
| RWLockOutcomes.WhenReadersMayEnter | blocxx-2.3.0/src/blocxx/GenericRWLockImpl.hpp:210-348 | readers are shut out by a write request that waits or that makes a new writer, and let in again by a downgrade, by the end of a writer and by a timed-out write request; nothing else changes the flag |
| RWLockOutcomes.ReadersEnterAgain | blocxx-2.3.0/src/blocxx/GenericRWLockImpl.hpp:261-341 | after a downgrade every read request gets in, and after a timed-out write request every one for which nobody else writes or upgrades |
| RWLockOutcomes.WhoWaits | blocxx-2.3.0/src/blocxx/GenericRWLockImpl.hpp:160-303 | a call waits, for what it asked for, from the step that blocks it to the step in which it gets in or times out |
| RWLockOutcomes.WhoIsSignalled | blocxx-2.3.0/src/blocxx/GenericRWLockImpl.hpp:180-348 | which waiting calls a step signals, and that it signals no other |
| RWLockOutcomes.WakesASleeper | blocxx-2.3.0/src/blocxx/GenericRWLockImpl.hpp:328-347 | the last lock of a writer wakes one waiting writer that still sleeps, if there is one |
| RWLockSchedules.EveryScheduleDrains | blocxx-2.3.0/src/blocxx/GenericRWLockImpl.hpp:141-348 | from every reachable state, in whatever order holders release and signalled calls run, some of them in vain, the number of steps is bounded, and no step is left if and only if the lock is back in its initial state |
| RWLockSchedules.DoneIsInit | blocxx-2.3.0/src/blocxx/GenericRWLockImpl.hpp:160-346 | as long as a lock is held or a call waits, a holder can release or a signalled call can run |
| RWLockSchedules.ProgressCosts | blocxx-2.3.0/src/blocxx/GenericRWLockImpl.hpp:160-174 | each such step uses up a signal, a wait or a lock: no cycle of futile wakeups |
| GenericRWLock.GenericRWLockImpl.constructor | blocxx-2.3.0/src/blocxx/GenericRWLockImpl.hpp:129-134 | the fields stand for the initial state |
| GenericRWLock.GenericRWLockImpl.AcquireReadLock | blocxx-2.3.0/src/blocxx/GenericRWLockImpl.hpp:143-175 | the fields take exactly the step of the abstract lock; the counters keep counting the readers, and the writers and upgraders, of which there is at most one; the BLOCXX_ASSERT holds |
| GenericRWLock.GenericRWLockImpl.ReadRound | blocxx-2.3.0/src/blocxx/GenericRWLockImpl.hpp:160-174 | the same for one test of the loop in which a new reader waits |
| GenericRWLock.GenericRWLockImpl.AcquireWriteLock | blocxx-2.3.0/src/blocxx/GenericRWLockImpl.hpp:210-306 | the same for a write request, with the refusal of a second upgrade; both assertions hold |
| GenericRWLock.GenericRWLockImpl.UpgradeRound | blocxx-2.3.0/src/blocxx/GenericRWLockImpl.hpp:256-275 | the same for one test of the loop in which an upgrade waits; the counters already count the id as a writer |
| GenericRWLock.GenericRWLockImpl.WriteRound | blocxx-2.3.0/src/blocxx/GenericRWLockImpl.hpp:282-303 | the same for one test of the loop in which a new writer waits |
| GenericRWLock.GenericRWLockImpl.Resume | blocxx-2.3.0/src/blocxx/GenericRWLockImpl.hpp:160-166 | a wait that returns true goes round its loop once more, whichever loop it is |
| GenericRWLock.GenericRWLockImpl.Expire | blocxx-2.3.0/src/blocxx/GenericRWLockImpl.hpp:261-295 | a wait that returns false undoes what the call did, and leaves the locker map as it is |
| GenericRWLock.GenericRWLockImpl.ReleaseReadLock | blocxx-2.3.0/src/blocxx/GenericRWLockImpl.hpp:180-205 | the fields take the abstract step; no unsigned counter wraps |
| GenericRWLock.GenericRWLockImpl.ReleaseWriteLock | blocxx-2.3.0/src/blocxx/GenericRWLockImpl.hpp:311-348 | the same for a write lock, with downgrade to a reader; both assertions hold |
| GenericRWLock.RolesAfterTimeOut | blocxx-2.3.0/src/blocxx/GenericRWLockImpl.hpp:263-267 | a timed-out upgrade moves its id from the writers back to the readers |
| CowRuns.EnabledIsSafe | blocxx-2.3.0/src/blocxx/COWReference.hpp:204-233 | whatever the interleaving so far, the next atomic action of any handle touches live memory only, takes no count below zero, deletes only what no other handle can reach and writes only what nobody reads or clones |
| CowRuns.StepKeepsInv | blocxx-2.3.0/src/blocxx/COWReference.hpp:177-254 | every atomic action keeps exact counts, private copies, sole writers and no leaks |
| CowRuns.EveryRunIsSafe | blocxx-2.3.0/src/blocxx/COWReference.hpp:177-327 | no interleaving of any number of handles ever makes an unsafe step |
| CowRuns.WriterIsSole | blocxx-2.3.0/src/blocxx/COWReference.hpp:216-233 | after getWriteLock, and while its pointer is in use, the count is one and no other handle holds the cell or the object |
| CowRuns.AllGoneAllReleased | blocxx-2.3.0/src/blocxx/COWReference.hpp:191-212 | when every handle is destroyed every cell and object has been released |
| CowRuns.CastToShares | blocxx-2.3.0/src/blocxx/COWReference.hpp:311-327 | cast_to, which swaps the fresh cell for the shared one, copies the handle if the cast succeeds and makes a null handle otherwise |
| CowRuns.StepRefines | blocxx-2.3.0/src/blocxx/COWReference.hpp:204-254 | an atomic action does to what the handles show what it would do to handles that own their values: the inner steps of getWriteLock and of the destructor change nothing |
| CowRuns.RunRefines | blocxx-2.3.0/src/blocxx/COWReference.hpp:177-327 | over every run each handle shows what it would show if nothing were shared |
| CowProgress.OneWayOn | blocxx-2.3.0/src/blocxx/COWReference.hpp:204-233 | in the middle of getWriteLock or of the destructor a handle has exactly one kind of step to take |
| CowProgress.WhatStarts | blocxx-2.3.0/src/blocxx/COWReference.hpp:177-254 | getWriteLock goes on to clone for a handle that is shared and is done for one that is not; the destructor goes on for the last handle only; every other operation is complete in one step |
| CowProgress.WriteLockIsGranted | blocxx-2.3.0/src/blocxx/COWReference.hpp:216-233 | whatever other handles do in between, getWriteLock grants write access after at most five of its own steps, one if nobody shares; the handle ends on another object if and only if it was shared at both looks at the count |
| CowProgress.DestructorEnds | blocxx-2.3.0/src/blocxx/COWReference.hpp:204-212 | whatever other handles do in between, the destructor ends after at most three of its own steps, one if somebody shares |
| CowReference.DecShrinks | blocxx-2.3.0/src/blocxx/COWReferenceBase.hpp:92-106 | the decrement in getWriteLock, to zero or not, leaves every other handle what it holds |
| CowReference.ReplaceKeepsInv | blocxx-2.3.0/src/blocxx/COWReferenceBase.hpp:100-105 | switching to the copy and a cell of one's own keeps the invariant |
| CowReference.EndCloneKeepsInv | blocxx-2.3.0/src/blocxx/COWReference.hpp:220-222 | a completed clone equals the object it was made from, which nobody wrote meanwhile |
| CowIntrusive.IStepKeepsInv | blocxx-2.3.0/src/blocxx/COWIntrusiveCountableBase.hpp:128-188 | every atomic action of the intrusive variant is safe and keeps the invariant; it is one or two actions of the non-intrusive one on objects split into a cell and a value |
| CowIntrusive.EveryRunIsSafe | blocxx-2.3.0/src/blocxx/COWIntrusiveCountableBase.hpp:128-188 | no interleaving of intrusive handles makes an unsafe step: memory is live, counts stay positive, and what is deleted or written is within reach of no other handle |
| CowIntrusiveValues.IStepRefines | blocxx-2.3.0/src/blocxx/COWIntrusiveCountableBase.hpp:128-188 | an atomic action does to what the intrusive handles show what it would do to handles that own their values, the clone that is made and given up included |
| CowIntrusiveValues.IRunRefines | blocxx-2.3.0/src/blocxx/COWIntrusiveCountableBase.hpp:128-188 | over every run each intrusive handle shows what it would show if nothing were shared |
| CowIntrusiveProgress.IOneWayOn | blocxx-2.3.0/src/blocxx/COWIntrusiveCountableBase.hpp:128-188 | in the middle of the write lock or of the destructor an intrusive handle has exactly one kind of step to take |
| CowIntrusiveProgress.IWhatStarts | blocxx-2.3.0/src/blocxx/COWIntrusiveCountableBase.hpp:128-188 | the write lock goes on to clone for a handle that is shared and is done for one that is not; the destructor goes on for the last handle only |
| CowIntrusiveProgress.IWriteLockIsGranted | blocxx-2.3.0/src/blocxx/COWIntrusiveCountableBase.hpp:157-188 | the write lock of an intrusive handle is granted after at most five of its own steps; it ends on another object if and only if it was shared at both looks at the count |
| CowIntrusiveProgress.IDestructorEnds | blocxx-2.3.0/src/blocxx/COWIntrusiveReference.hpp:142-145 | the destructor of an intrusive handle ends after at most two of its own steps |
| CowIntrusive.CountsAreHandles | blocxx-2.3.0/src/blocxx/COWIntrusiveCountableBase.hpp:128-155 | in every reachable state the count in an object is the number of handles counted on it, and an object being written has one handle |
| CowIntrusive.AllGoneAllDeleted | blocxx-2.3.0/src/blocxx/COWIntrusiveReference.hpp:142-145 | when every handle is destroyed every object has been deleted |
| CowArray.Array.GetWriteLock | blocxx-2.3.0/src/blocxx/COWReference.hpp:216-233 | the handle keeps its contents and becomes the only one on them; no other array changes |
| CowArray.Array.BaseGetWriteLock | blocxx-2.3.0/src/blocxx/COWReferenceBase.hpp:92-106 | true for the only handle, whose count is as before; otherwise one count less and a new cell |
| CowArray.Array.Copy | blocxx-2.3.0/src/blocxx/COWReference.hpp:178-181 | the copy shares storage and is counted |
| CowArray.Array.Drop | blocxx-2.3.0/src/blocxx/COWReference.hpp:204-212 | the others stay consistent without the dropped handle |
| CowArray.Array.Swap | blocxx-2.3.0/src/blocxx/ArrayImpl.hpp:264-267 | two arrays exchange contents, and only they change |
| CowArray.Array.Assign | blocxx-2.3.0/src/blocxx/COWReference.hpp:236-240 | the target shows what the source shows, and only it changes |
| CowArray.Array.PushBack | blocxx-2.3.0/src/blocxx/ArrayImpl.hpp:250-253 | one element more in this array and no change in any other, shared or not |
| CowArray.Array.Set | blocxx-2.3.0/src/blocxx/ArrayImpl.hpp:187-193 | a checked write through operator[] changes this array at one index, or is refused and changes none |
| CowArray.Array.Insert | blocxx-2.3.0/src/blocxx/ArrayImpl.hpp:278-281 | an element comes in at a position, in this array only |
| CowArray.Array.Remove | blocxx-2.3.0/src/blocxx/ArrayImpl.hpp:285-291 | an element goes, or the index is refused, in this array only |
| CowArray.Array.RemoveRange | blocxx-2.3.0/src/blocxx/ArrayImpl.hpp:295-302 | a range goes, or a bound is refused, in this array only |
| CowArray.Array.Resize | blocxx-2.3.0/src/blocxx/ArrayImpl.hpp:342-345 | cut or filled up, in this array only |
| CowArray.Array.AppendArray | blocxx-2.3.0/src/blocxx/ArrayImpl.hpp:314-317 | the contents of another array follow, even if both shared storage |
| CowArray.Array.Find | blocxx-2.3.0/src/blocxx/ArrayImpl.hpp:377-380 | the first position of an element, or the end |
| CowArray.Array.Contains | blocxx-2.3.0/src/blocxx/ArrayImpl.hpp:412-415 | whether an element is there |
| CowArrayRuns.Client.Do | blocxx-2.3.0/src/blocxx/ArrayImpl.hpp:185-345 | one command on arrays that share storage does what it would do to plain sequences |
| CowArrayRuns.Client.Run | blocxx-2.3.0/src/blocxx/ArrayImpl.hpp:185-444 | any program of copies, assignments, swaps, drops and mutations over any number of arrays computes what it computes on plain sequences |
| CmdLineOptions.AcceptableDoesNotClash | blocxx-2.3.0/src/blocxx/CmdLineParser.cpp:476-566 | an option that passes the validity check can be confused with none in the table, in either case mode and with ambiguous prefixes |
| CmdLineOptions.AcceptedExactly | blocxx-2.3.0/src/blocxx/CmdLineParser.cpp:476-566 | an option is accepted if and only if its form is right, its two names do not conflict, and it clashes with no option of the table |
| CmdLineOptions.ClashIsOneSwitch | blocxx-2.3.0/src/blocxx/CmdLineParser.cpp:476-566 | options clash only if there is a switch that means both |
| CmdLineOptions.NamedWithoutPrefix | blocxx-2.3.0/src/blocxx/CmdLineParser.cpp:655-665 | getOptionID finds by a name without its prefix what it finds by the switch |
| CmdLineOptions.UpperIsUpper | blocxx-2.3.0/src/blocxx/CmdLineParser.cpp:126-162 | without regard to case, the 26 letters are compared in upper case and nothing else is changed |
| CmdLineOptions.LookupErrors | blocxx-2.3.0/src/blocxx/CmdLineParser.cpp:629-679 | getOptionID throws that an empty name is missing and that a name it does not find is invalid, and otherwise returns the id |
| CmdLineOptions.NoSwitchNotFound | blocxx-2.3.0/src/blocxx/CmdLineParser.cpp:636-654 | what begins with a prefix and is no switch is not found |
| CmdLineOptions.AtMostOneAnswers | blocxx-2.3.0/src/blocxx/CmdLineParser.cpp:476-566 | in a table without clashes at most one option answers to a switch |
| CmdLineOptions.OptionIndexAnswers | blocxx-2.3.0/src/blocxx/CmdLineParser.cpp:629-679 | getOptionID finds an option that answers to the switch if there is one |
| CmdLineParser.LookUpAnswers | blocxx-2.3.0/src/blocxx/CmdLineParser.cpp:297-318 | the parse loop does so if and only if the switch is without the value separator, or no option answers it and none is found, or one option has both of the names that come into question |
| CmdLineParser.LookupsAgreeExactly | blocxx-2.3.0/src/blocxx/CmdLineParser.cpp:297-318 | for all prefixes, the parse loop, short first, and getOptionID, long first, resolve a switch alike if and only if the same condition holds |
| CmdLineParser.LookupsAgreeForPlainPrefixes | blocxx-2.3.0/src/blocxx/CmdLineParser.cpp:297-318 | with unambiguous prefixes that do not contain the separator: if and only if the switch is without the separator or neither finds anything |
| CmdLineParser.IDsAgree | blocxx-2.3.0/src/blocxx/CmdLineParser.cpp:629-679 | the id that getOptionID returns is the one that the parse loop records under for every switch without the separator, and, where the ids of a table differ, exactly for the switches on which the lookups agree |
| CmdLineParser.SeparatorSwitchDiffers | blocxx-2.3.0/src/blocxx/CmdLineParser.cpp:476-566 | the table takes the short option named like the separator and getOptionID finds it, but on a command line its switch is a word |
| CmdLineParser.CmdLineParser.AddOptionWithID | blocxx-2.3.0/src/blocxx/CmdLineParser.cpp:600-620 | an option joins the table if and only if it is valid; the table never clashes; a refused option changes nothing |
| CmdLineParser.CmdLineParser.AddOption | blocxx-2.3.0/src/blocxx/CmdLineParser.cpp:584-598 | the next id down is used up only if the option is accepted |
| CmdLineParser.CmdLineParser.TakeValue | blocxx-2.3.0/src/blocxx/CmdLineParser.cpp:355-399 | the value of an option: attached, the next argument unless it looks like a switch, or the default; or the error |
| CmdLineParser.CmdLineParser.ParseArgument | blocxx-2.3.0/src/blocxx/CmdLineParser.cpp:278-407 | one argument is recorded, with the value it takes, or refused with its error and no change |
| CmdLineParser.CmdLineParser.Parse | blocxx-2.3.0/src/blocxx/CmdLineParser.cpp:253-409 | the loop over argv computes the parse function, what it leaves behind on an error included |
| CmdLineParser.KeepsAllResultsExactly | blocxx-2.3.0/src/blocxx/CmdLineParser.hpp:57-61 | the strong guarantee, for whatever results were there before, holds of a call if and only if it does not throw |
| CmdLineParser.KeepsNoResultsExactly | blocxx-2.3.0/src/blocxx/CmdLineParser.hpp:57-61 | a parser without results is left as it was if and only if the call succeeds or refuses its first argument |
| CmdLineGrammar.KeepsResultsForCommandLines | blocxx-2.3.0/src/blocxx/CmdLineParser.hpp:57-61 | the strong guarantee holds of a call, whatever came before, if and only if its arguments are a command line |
| CmdLineGrammar.PartialResultsStay | blocxx-2.3.0/src/blocxx/CmdLineParser.cpp:253-407 | a word and then an unknown option: the call throws and the word stays behind |
| CmdLineGrammar.ParseOfRender | blocxx-2.3.0/src/blocxx/CmdLineParser.cpp:193-409 | parsing a printed list of items succeeds and gives the words, each option's values in order, and just the options mentioned |
| CmdLineGrammar.RenderOfRead | blocxx-2.3.0/src/blocxx/CmdLineParser.cpp:193-409 | every argument list that parses is the printing of such a list |
| CmdLineGrammar.AcceptsExactlyCommandLines | blocxx-2.3.0/src/blocxx/CmdLineParser.cpp:193-409 | the parser accepts an argument list if and only if it is the printing of a well-formed list of items |
| CmdLineGrammar.WhichError | blocxx-2.3.0/src/blocxx/CmdLineParser.cpp:278-399 | the first argument is taken if and only if an item begins there; a missing value is reported if and only if an option that must have one is last or before a switch, a forbidden word if and only if it is a word and none is allowed, and all else as an invalid option |
| CmdLineGrammar.ReadOfRender | blocxx-2.3.0/src/blocxx/CmdLineParser.cpp:193-250 | the items are recovered from what was printed, every token used once |
| CmdLineGrammar.RenderIsInjective | blocxx-2.3.0/src/blocxx/CmdLineParser.cpp:193-250 | no argument list is the printing of two lists |
| CmdLineGrammar.SplitJoins | blocxx-2.3.0/src/blocxx/CmdLineParser.cpp:193-250 | what the splitter returns for an argument determines the argument |
| CmdLineUsage.Wrap | blocxx-2.3.0/src/blocxx/CmdLineParser.cpp:774-822 | the wrapping loop ends and appends the wrapped entry |
| CmdLineUsage.EndsExactly | blocxx-2.3.0/src/blocxx/CmdLineParser.cpp:774-820 | the loop ends if and only if the entry fits, or maxColumns exceeds the indentation, or equals it and nothing follows the first line; otherwise it goes on for ever |
| CmdLineUsage.RoundShortens | blocxx-2.3.0/src/blocxx/CmdLineParser.cpp:774-820 | a round removes a newline, or keeps their number and shortens the line |
| CmdLineUsage.WhereALineIsCut | blocxx-2.3.0/src/blocxx/CmdLineParser.cpp:776-806 | a line is cut at its first newline if that is not beyond maxColumns, or else at the last space that is not, if it is right of column 28, or else at maxColumns; the newline or space is left out |
| CmdLineUsage.ContinuationColumn | blocxx-2.3.0/src/blocxx/CmdLineParser.cpp:808-821 | what is cut off goes on in the column of the descriptions, or for a grouping at its indentation |
| CmdLineUsage.WrappedFits | blocxx-2.3.0/src/blocxx/CmdLineParser.cpp:784-806 | no line written is longer than maxColumns |
| CmdLineUsage.WrappedKeepsInk | blocxx-2.3.0/src/blocxx/CmdLineParser.cpp:784-819 | the wrapped entry has the characters of the entry, blanks aside, in order |
| CmdLineUsage.GetUsage | blocxx-2.3.0/src/blocxx/CmdLineParser.cpp:694-826 | the text is the header and the wrapped layout of every option shown |
| CmdLineUsage.UsageFits | blocxx-2.3.0/src/blocxx/CmdLineParser.hpp:343-344 | with more than 28 columns the text is produced for every table, and no line of it exceeds the columns |
| CmdLineUsage.DescriptionColumn | blocxx-2.3.0/src/blocxx/CmdLineParser.cpp:750-759 | the descriptions line up in column 28, or come one space after names too long for it |
| CmdLineUsage.NamesShown | blocxx-2.3.0/src/blocxx/CmdLineParser.cpp:726-748 | the names of an option with a mark of its value, for each combination of short and long name |
| CmdLineUsage.DefaultsDiffer | blocxx-2.3.0/src/blocxx/CmdLineParser.cpp:761-771 | different defaults are told apart in the text, with quotes or without |
| CmdLineUsage.ShownInPlace | blocxx-2.3.0/src/blocxx/CmdLineParser.cpp:708-719 | an entry is shown if and only if it is visible or all are asked for, and in its place |
| CmdLineUsage.ShortEntryText | blocxx-2.3.0/src/blocxx/CmdLineParser.cpp:694-698 | an entry that fits is one line: indentation, names, description in column 28, default |
| CmdLineUsage.LayoutInk | blocxx-2.3.0/src/blocxx/CmdLineParser.cpp:723-771 | an entry says the names, the description and the default, in this order |
| CmdLineUsage.UsageKeepsInk | blocxx-2.3.0/src/blocxx/CmdLineParser.cpp:694-826 | the text says all that the entries say, in order |
| DivRem.FloorIsRight | blocxx-2.3.0/src/blocxx/DivRem.hpp:77-91 | floor division on platforms that truncate and on platforms that round down: quotient times divisor plus remainder, with the remainder from 0 to the divisor |
| DivRem.TruncIsRight | blocxx-2.3.0/src/blocxx/DivRem.hpp:57-72 | truncating division on both kinds of platform: the remainder has the sign of the dividend |
| DivRem.FloorNeverOverflows | blocxx-2.3.0/src/blocxx/DivRem.hpp:77-91 | no intermediate result of floor division leaves the type |
| DivRem.TruncOverflowsExactly | blocxx-2.3.0/src/blocxx/DivRem.hpp:57-72 | in truncating division one does if and only if division rounds down and the dividend is the least number |
| DateTimes.ExactWithHeadroom | blocxx-2.3.0/src/blocxx/DateTime.cpp:212-238 | normalisation accepts a time if and only if its carried seconds are within the limits, and keeps the total |
| DateTimes.ExactIffHeadroom | blocxx-2.3.0/src/blocxx/DateTime.cpp:212-238 | it does so for all times, in spite of wrap-around, if and only if the limits keep 2147 and 2148 seconds from the ends of time_t |
| DateTimes.PointIsFaithful | blocxx-2.3.0/src/blocxx/DateTime.cpp:66-100 | different values are different points of the extended line |
| DateTimes.LessIsBelow | blocxx-2.3.0/src/blocxx/DateTime.cpp:1492-1504 | comparing the fields compares the points, infinities included |
| DateTimes.LessOrEqualIsNotAbove | blocxx-2.3.0/src/blocxx/DateTime.cpp:1506-1509 | the order with equality is that of the points, and the converse of the strict order except at not-a-date-time |
| DateTimes.LessIsStrictTotalOrder | blocxx-2.3.0/src/blocxx/DateTime.cpp:1492-1519 | a strict total order of the values other than not-a-date-time, which is unordered |
| DateTimes.MinusIsNegation | blocxx-2.3.0/src/blocxx/DateTime.cpp:1646-1668 | unary minus negates the point, or throws if and only if the result is beyond the limits |
| DateTimes.MinusReverses | blocxx-2.3.0/src/blocxx/DateTime.cpp:1646-1668 | it is its own inverse and reverses the order |
| DateTimes.DifferenceIsExact | blocxx-2.3.0/src/blocxx/DateTime.cpp:1671-1719 | the difference is that of the points, undefined forms giving not-a-date-time, if and only if 64 bits hold the microseconds between two normal values |
| DateTimes.DifferencesAreRightIffNarrow | blocxx-2.3.0/src/blocxx/DateTime.cpp:1671-1719 | differences are right for all values if and only if 64 bits hold the microseconds between the limits, as they do for limits within the years 0 and 9999 |
| DateTimes.PlusIsAddition | blocxx-2.3.0/src/blocxx/DateTime.cpp:1727-1781 | a value plus a duration is the sum of the points, undefined forms giving not-a-date-time, or throws if and only if it is beyond the limits |
| DateTimes.SumsAreRightIffWide | blocxx-2.3.0/src/blocxx/DateTime.cpp:1761-1770 | addition is right for all values and durations if and only if time_t is wide enough: with 64 bits it is, with 32 bits the cast brings some sums round into the limits |
| DateTimes.SumIsRightExactly | blocxx-2.3.0/src/blocxx/DateTime.cpp:1761-1770 | one sum of a normal value and a normal duration is right if and only if its second is within the limits or does not wrap around into them |
| DateTimes.DifferenceLeadsBack | blocxx-2.3.0/src/blocxx/DateTime.cpp:1671-1781 | y + (x - y) is x, for x - y within the range of durations |
| DateTimes.MinusDurationIsNegation | blocxx-2.3.0/src/blocxx/TimeDuration.cpp:338-360 | minus negates durations, the infinite ones included, and special durations have no microseconds |
| DateTimes.MinusUndoesPlus | blocxx-2.3.0/src/blocxx/DateTime.cpp:1788-1791 | subtracting a duration undoes adding it |
| DateTimes.PlusIsMonotone | blocxx-2.3.0/src/blocxx/DateTime.cpp:1727-1781 | addition keeps the order of values and of durations |
| DateTimes.DateTime.Set | blocxx-2.3.0/src/blocxx/DateTime.cpp:1585-1594 | the object is set to the time, or keeps its value if that is out of range |
| DateTimes.DateTime.Advance | blocxx-2.3.0/src/blocxx/DateTime.cpp:1727-1781 | += moves the object along the line, or leaves it |
| DateTimes.DateTime.AddMicroseconds | blocxx-2.3.0/src/blocxx/DateTime.cpp:1475-1482 | the object moves by the narrowed count, whatever 64-bit count is added, and is left unnormalised if that throws |
| DateTimes.AddsExactlyIffNotNarrowed | blocxx-2.3.0/src/blocxx/DateTime.cpp:1475-1482 | it moves by the count asked for if and only if 32 bits hold the sum |
| DateTimes.FailedAddLooksSpecial | blocxx-2.3.0/src/blocxx/DateTime.cpp:1475-1482 | after a throw the object is taken for a special value |
| Calendar.AdjustTimeForTimeZone | blocxx-2.3.0/src/blocxx/DateTime.cpp:880-925 | the date and hour are moved back by the offset to a valid date, across months, years and leap days, except back over 1 January, where the day comes out as 0 |
| Calendar.LeavingTheYearLosesAMonth | blocxx-2.3.0/src/blocxx/DateTime.cpp:911-923 | in that case the result is no date, and 31 days early |
| Calendar.YearLength | blocxx-2.3.0/src/blocxx/DateTime.cpp:840-875 | the days of the months are those of the Gregorian year |
| Calendar.MonthLength | blocxx-2.3.0/src/blocxx/DateTime.cpp:840-875 | a month has the days that almanacs give it, and what is no month has none |
| Calendar.DayNumberIsGregorian | blocxx-2.3.0/src/blocxx/DateTime.cpp:840-875 | the day number of a date is the one of the closed formula that counts years from March |
| Calendar.DayNumberIsUnique | blocxx-2.3.0/src/blocxx/DateTime.cpp:840-875 | different dates have different day numbers |
| Calendar.OffsetIsTrue | blocxx-2.3.0/src/blocxx/DateTime.cpp:1559-1580 | two broken-down times under a day apart give their true difference, across ends of months and years |
| Formats.ScanNumber | blocxx-2.3.0/src/blocxx/Format.cpp:130-178 | the scanner returns the signed number at the offset and moves past it, or neither; where the number fits an int no intermediate result leaves the type |
| Formats.ProcessFormatSpecifier | blocxx-2.3.0/src/blocxx/Format.cpp:185-288 | a specifier is read into number and flags, with what is left of the template |
| FormatLoop.WalkTemplate | blocxx-2.3.0/src/blocxx/Format.cpp:291-346 | the loop copies text up to the first argument reference or error |
| FormatLoop.Format.ProcessTurn | blocxx-2.3.0/src/blocxx/Format.cpp:291-390 | process writes text and notes of errors, shortens the template and returns the argument |
| FormatLoop.Format.constructor | blocxx-2.3.0/src/blocxx/Format.cpp:445-483 | the consuming loop ends for every template and writes what its turns write |
| FormatLoop.TurnShortens | blocxx-2.3.0/src/blocxx/Format.cpp:291-390 | every call of process strictly shortens the template |
| FormatLoop.WhichNote | blocxx-2.3.0/src/blocxx/Format.cpp:347-370 | an argument number above the range is noted as too large, as one below minus one is, and one below the range as too small |
| FormatLoop.WhatIsQuoted | blocxx-2.3.0/src/blocxx/Format.cpp:371-386 | the note quotes the reference whose argument does not exist, or the template from the percent sign to the end of the error |
| FormatLoop.WrongSpecifierIsQuoted | blocxx-2.3.0/src/blocxx/Format.cpp:306-316 | a wrong specifier is quoted up to the character where it goes wrong |
| FormatLoop.NumberIsNotedToo | blocxx-2.3.0/src/blocxx/Format.cpp:344-370 | a wrong reference whose number was read is noted for its number too, unless the template ends before the error does |
| FormatLoop.WrongPercentIsQuoted | blocxx-2.3.0/src/blocxx/Format.cpp:296-335 | a percent sign is wrong at the end and before anything but a percent sign, a digit or a brace |
| FormatTemplates.DigitsAreTen | blocxx-2.3.0/src/blocxx/Format.cpp:130-178 | the digits are those from 0 to 9, each with its value |
| FormatTemplates.DecimalIsRead | blocxx-2.3.0/src/blocxx/Format.cpp:130-178 | a number is read as it is written in decimal |
| FormatTemplates.StepOfPrint | blocxx-2.3.0/src/blocxx/Format.cpp:185-335 | a printed item is read back as that item, whatever follows |
| FormatTemplates.ReadModifiers | blocxx-2.3.0/src/blocxx/Format.cpp:217-274 | width, sign, fill, precision, base and base flag come back from their printed form, however the numbers are spelled |
| FormatTemplates.SpecifierWasRead | blocxx-2.3.0/src/blocxx/Format.cpp:185-288 | every specifier that is accepted is the printing of a number and modifiers |
| FormatTemplates.ItemWasRead | blocxx-2.3.0/src/blocxx/Format.cpp:291-346 | a step without an error has read an item |
| FormatTemplates.RunOfPrint | blocxx-2.3.0/src/blocxx/Format.cpp:291-483 | running a printed template scans no number beyond an int and writes its literals and arguments in order, with the flags the modifiers mean |
| FormatTemplates.RunNotes | blocxx-2.3.0/src/blocxx/Format.cpp:347-386 | an error in the template, or an argument that does not exist, leaves a note in the output |
| FormatTemplates.CleanRunIsPrint | blocxx-2.3.0/src/blocxx/Format.cpp:291-483 | a template written out without an overflow and without a note of an error is the printing of a list of items, all of whose numbers fit an int |
| FormatTemplates.CleanExactlyForTemplates | blocxx-2.3.0/src/blocxx/Format.cpp:291-483 | the interpreter overflows no int and notes no error if and only if the template is the printing of a list of literals and references to existing arguments whose numbers fit an int |
| BinarySerialization.WriteLen | blocxx-2.3.0/src/blocxx/BinarySerialization.cpp:55-97 | the length is appended in its encoding |
| BinarySerialization.ReadLen | blocxx-2.3.0/src/blocxx/BinarySerialization.cpp:100-130 | the length is taken off the stream, or an error is reported |
| BinarySerialization.LenRoundTrip | blocxx-2.3.0/src/blocxx/BinarySerialization.cpp:55-130 | every 32-bit length comes back and what follows is left |
| BinarySerialization.LenIsShortest | blocxx-2.3.0/src/blocxx/BinarySerialization.cpp:55-97 | nothing shorter is read as the same length, and nothing else as short but the indefinite form 0x80 |
| BinarySerialization.LengthForm | blocxx-2.3.0/src/blocxx/BinarySerialization.cpp:55-97 | a length is its own byte below 128, or 128 and the number of the bytes that follow, which are the length, the most significant byte first and none to spare |
| BinarySerialization.WireFormat | blocxx-2.3.0/src/blocxx/Bool.cpp:56-68 | false is the byte 0 and true the byte 1, any byte but 0 is read as true, and a 16-bit character goes high byte first |
| BinarySerialization.SignatureIsChecked | blocxx-2.3.0/src/blocxx/BinarySerialization.hpp:173-183 | an object or array behind another signature is refused |
| BinarySerialization.FixedRoundTrip | blocxx-2.3.0/src/blocxx/BinarySerialization.hpp:144-165 | unsigned integers of a fixed size come back |
| BinarySerialization.SignedFixedRoundTrip | blocxx-2.3.0/src/blocxx/BinarySerialization.hpp:125-166 | a signed integer, written in two's complement, comes back if and only if it is of the type |
| BinarySerialization.WriteArray | blocxx-2.3.0/src/blocxx/BinarySerialization.hpp:206-216 | the count, in 32 bits, and as many elements are appended |
| BinarySerialization.ReadArray | blocxx-2.3.0/src/blocxx/BinarySerialization.hpp:188-203 | the elements are taken off the stream, or an error is reported |
| BinarySerialization.ArrayRoundTrip | blocxx-2.3.0/src/blocxx/BinarySerialization.hpp:188-216 | an array comes back, for any element codec that round-trips, if and only if it has fewer than 2^32 elements |
| BinarySerialization.BoolsRoundTrip | blocxx-2.3.0/src/blocxx/Bool.cpp:56-68 | booleans round-trip |
| BinarySerialization.Char16sRoundTrip | blocxx-2.3.0/src/blocxx/Char16.cpp:72-81 | 16-bit characters round-trip |
| BinarySerialization.StringsRoundTrip | blocxx-2.3.0/src/blocxx/String.cpp:848-867 | strings round-trip |
| BinarySerialization.SignedRoundTrips | blocxx-2.3.0/src/blocxx/BinarySerialization.hpp:173-183 | an object behind its signature round-trips |
| BinarySerialization.StringArrayRoundTrip | blocxx-2.3.0/src/blocxx/BinarySerialization.hpp:218-224 | arrays of strings behind their signature round-trip |
| FileAppender.FileAppender.constructor | blocxx-2.3.0/src/blocxx/FileAppender.cpp:60-75 | the live file exists, with what it held |
| FileAppender.FileAppender.MoveBackups | blocxx-2.3.0/src/blocxx/FileAppender.cpp:119-131 | the oldest backup goes and the others move up by one; no rename replaces a file |
| FileAppender.FileAppender.Rotate | blocxx-2.3.0/src/blocxx/FileAppender.cpp:119-162 | the roll-over moves every file of the set one place on and empties the live one |
| FileAppender.FileAppender.DoProcessLogMessage | blocxx-2.3.0/src/blocxx/FileAppender.cpp:86-163 | a message is appended, and the files rotated if the live one has reached its limit |
| FileAppender.RotationConserves | blocxx-2.3.0/src/blocxx/FileAppender.cpp:119-137 | a rotation drops the oldest file and nothing else, and keeps the order |
| FileAppender.RunConserves | blocxx-2.3.0/src/blocxx/FileAppender.cpp:86-163 | over any run: what was dropped, the backups from the oldest on and the live file are what was there before and what was written |
| FileAppender.NoLimitKeepsAll | blocxx-2.3.0/src/blocxx/FileAppender.cpp:114-163 | over any run without a maximum nothing is dropped, no backup changes, and the live file is its old content and all that was written |
| FileAppender.LiveGrowsExactly | blocxx-2.3.0/src/blocxx/FileAppender.cpp:86-163 | a message stays in the live file behind what was there if and only if there is no maximum or the two are shorter than the limit; otherwise the live file starts anew |
| FileAppender.LimitWraps | blocxx-2.3.0/src/blocxx/FileAppender.cpp:122-126 | the limit is what a signed 64-bit number holds of the size in bytes |
| FileAppender.LiveStaysShort | blocxx-2.3.0/src/blocxx/FileAppender.cpp:114-154 | after any message the live file is shorter than the maximum |
| FileAppender.DropsOnlyFromFullBackups | blocxx-2.3.0/src/blocxx/FileAppender.cpp:114-137 | starting without backups, nothing is dropped before maxBackupIndex backups of at least the limit are kept |
| EnvVars.EnvVars.FromEnvp | blocxx-2.3.0/src/blocxx/EnvVars.cpp:88-93 | the map is filled from any array of strings; its keys are valid |
| EnvVars.EnvVars.GetEnvp | blocxx-2.3.0/src/blocxx/EnvVars.cpp:159-189 | the array, cached or not, encodes the map as it is now, each variable once |
| EnvVars.EnvVars.RemoveVar | blocxx-2.3.0/src/blocxx/EnvVars.cpp:192-205 | the variable goes, and no stale array stays; or there is none and nothing changes |
| EnvVars.EnvVars.AddVar | blocxx-2.3.0/src/blocxx/EnvVars.cpp:208-219 | a new valid variable is added, or nothing changes |
| EnvVars.EnvVars.SetVar | blocxx-2.3.0/src/blocxx/EnvVars.cpp:222-233 | a valid variable is set, or nothing changes |
| EnvVars.EnvVars.SetVarFrom | blocxx-2.3.0/src/blocxx/EnvVars.cpp:236-242 | a string is split at its first equals sign and set |
| EnvVars.EnvVars.UpdateVar | blocxx-2.3.0/src/blocxx/EnvVars.cpp:245-257 | a variable that is there is changed, or nothing changes |
| EnvVars.EnvVars.GetValue | blocxx-2.3.0/src/blocxx/EnvVars.cpp:150-155 | the value of a variable that is there, and otherwise the default |
| EnvVars.SetsExactly | blocxx-2.3.0/src/blocxx/EnvVars.cpp:112-125 | any name that is not empty and has no equals sign is set by a string that gives it a value, and a string without an equals sign or without a name sets nothing |
| EnvVars.FillTakesLast | blocxx-2.3.0/src/blocxx/EnvVars.cpp:112-125 | the map holds each valid key that is given a value, with the last one |
| EnvVars.RebuiltExactly | blocxx-2.3.0/src/blocxx/EnvVars.cpp:112-189 | the map made from the array is equal if and only if no variable contains a NUL; equals signs in values do no harm |

## Left out

- Cancellation of threads, clocks and the condition variables' own code: a wait is a step that returns or
  times out.
- More than one outstanding call for one id, and more than 2^32 - 1 holders of a lock.
- Memory ordering weaker than sequential consistency, and overflow of a reference count.
- The intrusive handle made from a raw pointer that is already counted: handles start from fresh objects,
  from null and from other handles.
- Exceptions thrown by clone, by a copy constructor or by an allocation.
- Array: self-append, iterators kept across a copy, the range form of find, and unchecked indexing.
- The insertion point of `Array.Insert` and the end of an empty array in `Array.PopBack` are the caller's
  business, as in std::vector.
- Case folding beyond ASCII, and the accessors for parsed values, which only read the table.
- The list form of addOptions, which adds options one by one and keeps those before a refused one.
- CmdLineGrammar: the items are those of the default prefixes; the parse loop and the table are modelled
  for all prefixes.
- GetUsage: lays out the options before it wraps the first one, which makes no difference to the text.
- The rotation limit is computed in 64 bits and compared signed, as in the code; errors other than a
  missing source file, external log rotators and buffering of the stream are not modelled.
- DateTime: conversions through struct tm and their callers (set with a year, addDays, addMonths,
  addYears), addSeconds, addMinutes and addHours, which do not check the range, the parser of date
  strings and the table of time zones; durations within a second of the least 64-bit number, whose
  negation overflows in the code.
- The limits of a DateTime are parameters, within a quarter of the 64-bit range.
- Format: what the stream does with the flags, what happens after a number overflows an int (which is
  undefined; the methods require that none does), throwing on errors (the
  constructors only write them), and constructors with more than 47 arguments, for which the character
  '0' that process returns after an error would be an argument number.
- The words of the notes that Format writes on errors: the model keeps their kind, numbers and text.
- BinarySerialization: readEnum, byte order other than that of the wire, and what is left on a stream after
  a failed array.
- The order of the variables in the array of EnvVars, its allocation and deletion, and the process's own
  environment.
- The handles of CowReference and CowIntrusive are values of a step system, which is what their
  interleaving needs; those of CowArray are objects on the heap, with the same operations, used by one
  thread.
