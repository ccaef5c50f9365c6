# A verified model of a coroutine server

This project models, in Dafny, the parts of a C++ game-server framework whose behaviour spans many
calls, and proves what those parts are for:

- **The coroutine, timer and transaction runtime**: coroutines that sleep with a timeout, a timer
  that cancels lazily by (address, second), transaction objects lent to coroutines and given back.
  Modelled as a step machine (`Timer`, `Coroutines`, `Transactions`, `Timeouts`) and as the objects
  themselves, updated in place (`Timer.Timer`, `Runtime`). The allocator may reuse any address that is not in
  use. A turn of a coroutine lets time pass and ends in `Yield` or with the end of its task; which of
  the two, when and with what timeout is up to the environment.
- **SDS strings and the RESP formatter** (`SdsString`, `SdsQuote`, `SdsSplit`, `Numbers`,
  `RespProtocol`, `RespFormat`): a buffer with five header widths refines byte strings; quoting and
  splitting undo each other; a printf-like template becomes exactly one request of the Redis
  serialization protocol.
- **The logger's bounded queue and worker pool** (`CircularQueue`, `BlockingQueue`, `ThreadPool`): a
  protocol of critical sections, notifications sent after unlocking, and wake-ups, in every
  interleaving.
- **The TOML reader and writer** (`TomlText`, `TomlTime`, `TomlTree`): round trips of strings and
  times, and the table-building state machine.
- **Rotating log files and the consistent-hash ring** (`RotatingSink`, `ConsistentHash`): what whole
  histories keep.

Code that changes things in place is a class or a method here, proved equal to a function of the old
state; the functions carry the theorems. A byte string is a Dafny `string` whose characters are
below 256.

The theorems about runs of the runtime come in three layers, each asking more of the run.

- Only that at no call all 2^32 - 1 coroutine ids are in use, whatever addresses the allocator
  returns, however short the timeouts and however long the run lasts: transaction objects are
  conserved, a registration takes effect exactly when nothing settled the command before, and the map
  of timers covers exactly the suspended coroutines (`Transactions.RunKeeps` and the theorems it
  carries). That is exactly when the next id is unused (`Coroutines.NextIdIsUnusedExactly`), and it
  holds of every run of less than 2^32 calls (`Transactions.ShortRunsAreRoomy`).
- If besides the allocator returns no address in use: a timer resumes only the life it was armed in,
  and a suspended coroutine has at most one timer that will fire, any other id none
  (`Transactions.RunStaysFaithful`).
- If besides, judged by where the run ends, no coroutine went to sleep for so short a time that its
  timer was due in the very second it was armed in, and fewer than 2^32 seconds passed: each suspended
  coroutine has its timer, and none oversleeps (`Timeouts`). The first of these is the exact condition
  for the timer (`Timer.SafeExactlyWhenDueLater`), and each timeout that fails it can leave another
  coroutine asleep without a timer (`Timeouts.ShortSleepLosesAWakeUp`); coroutines that always wait for
  a second or more meet it in every run (`Timeouts.LongTimeoutsAreSafe`).

## Where the code does less than it seems to

Each of these is a theorem below, with the exact condition where there is one.

- A timer armed for so short a time that it is due within the second it is armed in can get a later,
  innocent timer swallowed, through the cancel list and a reused address. Timers due in a later
  second never do (`Timer.SafeExactlyWhenDueLater`); one second or more is always enough. In the
  server this means: a coroutine that sleeps for so short a time can make another one, which sleeps for
  a whole second, miss its wake-up, with no timer left (`Timeouts.ShortSleepLosesAWakeUp`).
- A message that arrives before its command is registered creates an empty pool, so the registration
  is refused and the command stays dead. A registration takes effect exactly when it comes before
  every other registration of the command with objects and every message that would start it
  (`Transactions.RegistrationTakesEffectExactly`, `Transactions.EarlyMessageRun`,
  `Transactions.EarlyMessageBlocksTheCommand`).
- Splitting undoes joining only when each separator is first met where it was put; for one-byte
  separators that is when no token holds it (`SdsSplit.SplitUndoesJoinExactly`,
  `SdsSplit.OneByteSeparator`, `SdsSplit.OverlapIsMetEarly`).
- The TOML writer does not pad `\u` escapes, so a string with another control byte is never read
  back (`TomlText.StringRoundTripExactly`).
- A `\u` escape for a code point of three bytes loses a bit whenever the middle byte needs its upper
  half: `\u20ac` is read correctly, `\u0800` is not (`TomlText.EncodesUtf8Exactly`).
- A coroutine keeps the pointer of the last message that was sent to its id, through its end and the
  next life of the id: resumed by a timer or a call it finds that one (`Transactions.LastMessageIsFound`).
- Tables and arrays of tables written as TOML values are not closed: later statements can add to
  them. Exactly the scalars, the plain arrays and the arrays of tables with an empty part in their
  name are certain to stay as written: headers refuse empty parts and dotted keys refuse arrays
  (`TomlTree.ValueChangesExactly`).
- TOML forbids defining a table twice. The code takes a table that has entries but no scalar for one
  made implicitly, so such a table can be opened again by its own header
  (`TomlTree.HeaderAcceptedExactly`, `TomlTree.TablesCanBeOpenedTwice`, `TomlTree.ReopeningDocument`).
- A numeric conversion is printed exactly when it has less than 14 characters. A longer one takes its
  argument, prints nothing, and its text after the first two characters is read again as template:
  `%000000000000d` sends `00000000000d` (`RespFormat.ConversionIsPrintedExactly`,
  `RespFormat.LongConversionIsSentAsText`, `RespFormat.TwelveZeros`). A format that ends inside a
  conversion is read past its terminator exactly when that conversion is short
  (`RespFormat.CutOffIsReadPastExactly`).
- A thread pool whose queue has size 0, which the constructor takes, can never be shut down; any other
  can, at any time (`ThreadPool.ShutdownPossibleExactly`).
- `rotate_on_open` leaves `current_size_` at the size of the file rotated away
  (`RotatingSink.Sink.constructor`), so the sink's invariant is only that the size is at least what
  the newest file holds.
- Removing a node from the hash ring gives the ring of the other additions exactly when it shares no
  point with another node of the history (`ConsistentHash.RemovalErasesExactly`).

## Model

| member | source | states |
|---|---|---|
| Timer.InsertKeepsSorted | src/commlib/timer.h:28-35 | emplacing a node keeps the set ordered by time, then address |
| Timer.DuePrefix | src/commlib/timer.h:39-45 | what a tick takes out of the set is exactly the nodes due by now |
| Timer.NewIdIsNew | src/commlib/timer.h:28-38 | the id of a new timer was never handed out before and is not on the cancel list, whatever address it got |
| Timer.ArmKeeps | src/commlib/timer.h:28-35 | arming a timer due in a later second keeps the invariant: an issued id is alive or of an earlier second than the clock |
| Timer.CancelKeeps | src/commlib/timer.h:36-38 | cancelling, of living or dead timers alike, keeps the invariant |
| Timer.TickKeeps | src/commlib/timer.h:39-45 | a tick keeps the invariant and every living timer |
| Timer.BatchIsInOrder | src/commlib/timer.h:40-46 | the timers of a batch are fired in the order in which they are due |
| Timer.ProcessKeeps | src/commlib/timer.h:46-54 | dropping or firing a node of the batch keeps the invariant |
| Timer.DoneKeeps | src/commlib/timer.h:54-58 | the end of a task, repeating or not, keeps the invariant |
| Timer.ArmsForItsInterval | src/commlib/timer.h:28-35 | a new timer is due after its interval and holds it, for intervals of 32 bits, with the second in which it was armed |
| Timer.RepeatsAfterTheTick | src/commlib/timer.h:54-58 | a repeating timer that has fired is due again one interval after that tick; another is gone, and nothing else changes |
| Timer.RunKeeps | src/commlib/timer.h:28-59 | every run of arms, cancels, ticks and firings keeps the invariant |
| Timer.NoLiveTimerIsSwallowed | src/commlib/timer.h:28-59 | in every run of timers due in a later second, with any address reuse, a living timer will be dropped exactly when it was cancelled since it was armed |
| Timer.SafeExactlyWhenDueLater | src/commlib/timer.h:28-59 | arming at a given millisecond for a given interval is harmless in all runs if and only if the timer is due in a later second |
| Timer.OneSecondIsSafe | src/commlib/timer.h:28-35 | an interval of 1000 ms or more is due in a later second, whenever it starts |
| Timer.SecondsRecur | src/commlib/timer.h:28-35 | two clock readings give ids of the same second if and only if they lie a multiple of 2^32 seconds apart |
| Timer.Timer.AddTimer | src/commlib/timer.h:28-35 | the set gains the node due at now + interval, and the id is the address with the second of arming |
| Timer.Timer.CancelTimer | src/commlib/timer.h:36-38 | the cancel list gains the id, the set is untouched |
| Timer.Timer.TakeDue | src/commlib/timer.h:40-45 | batch and remaining set are the old set in order, and the batch is exactly what is due |
| Timer.Timer.ConsumeCancel | src/commlib/timer.h:47-53 | reports whether the id was on the cancel list, and takes it off |
| Timer.Timer.Rearm | src/commlib/timer.h:55-57 | a repeating node is put back for its interval from the tick; another is not |
| Coroutines.NewCoroutineStaysOrderly | src/commlib/co/coroutine.cpp:4-26 | a new coroutine gets an id that is not in use and not 0, and records and timer map stay consistent |
| Coroutines.NextIdIsUnusedExactly | src/commlib/co/coroutine.cpp:70-76 | the next id, reused or counted up with its wrap, is unused if and only if fewer than 2^32 - 1 ids are in use; when all are, it is 1 |
| Coroutines.FreeIdsAreUsedInOrder | src/commlib/co/coroutine.cpp:4-15 | new coroutines take the free records in order, and no new id is made before they are used up |
| Coroutines.FreedIdComesRound | src/commlib/co/coroutine.cpp:4-63 | a freed id is the next one again after exactly as many new coroutines as there were free records before it |
| Coroutines.ResumesExactlyOnce | src/commlib/co/co_task.h:33-41 | resuming an id in use is exactly one resumption, in the present life, that finds the message it came with or the one there was; then the coroutine sleeps until its timeout or is gone; nobody else is touched, and unknown ids change nothing but a timer |
| Coroutines.ResumeOneStaysOrderly | src/commlib/co/co_task.h:33-41 | a whole resume, of any id, in any way and with any allocator, keeps records consistent and the timer map covering exactly the suspended coroutines |
| Coroutines.DoTimeOutTaskStaysOrderly | src/commlib/co/co_task.h:59-61 | so does a whole tick, whatever the fired coroutines do |
| Coroutines.CancelStaysFaithful | src/commlib/co/co_task.h:66-72 | after cancelling before a resume no timer of this coroutine will fire, and the others stay true to their lives |
| Coroutines.EnterStaysFaithful | src/commlib/co/coroutine.cpp:28-55 | resuming keeps timers true to their lives, the flags down and the history of resumptions good |
| Coroutines.YieldStaysFaithful | src/commlib/co/co_task.h:22-26 | going to sleep for any time keeps every timer that will fire the one the map has, for the present life |
| Coroutines.FreeStaysFaithful | src/commlib/co/coroutine.cpp:57-63 | ending a coroutine leaves no timer that will fire for the freed record |
| Coroutines.ResumeOneStaysFaithful | src/commlib/co/co_task.h:33-41 | a whole resume, to the return of control, keeps all this, also for ids that do not exist |
| Coroutines.FiredIsWaiting | src/commlib/co/co_task.h:22-36 | a timer that fires is due, is the one the map has, and belongs to a coroutine suspended in the same life it was armed in |
| Coroutines.FireAllStaysFaithful | src/commlib/timer.h:46-58 | the loop over a batch keeps timers true to their lives, whatever the fired coroutines do and however short they sleep |
| Coroutines.DoTimeOutTaskStaysFaithful | src/commlib/co/co_task.h:59-61 | a whole tick keeps it |
| Coroutines.DueTimersWake | src/commlib/timer.h:39-58 | at a tick every coroutine with an uncancelled timer that is due is resumed by it, whatever the others do during the tick |
| Coroutines.AtMostOneTimer | src/commlib/co/co_task.h:22-41 | a suspended coroutine has at most one timer that will fire, for its present life; any other id has none |
| Transactions.RegisterConserves | src/commlib/trans/trans_mgr.h:26-35 | registering, refused or not, keeps every pool's count right |
| Transactions.TakePlaced | src/commlib/object_pool.h:30-41 | lending the last object of a pool moves it from idle to owned and touches no other pool |
| Transactions.FreePlaced | src/commlib/co/coroutine.cpp:57-63 | freeing a coroutine gives its object back to the pool it came from |
| Transactions.LastReturnedIsNextTaken | src/commlib/object_pool.h:30-41 | the object given back last is the next one taken, and the pool is as it was |
| Transactions.OnMsgPlaced | src/commlib/trans/trans_mgr.h:43-61 | a message keeps each object of every command in exactly one place |
| Transactions.RunKeeps | src/commlib/trans/trans_mgr.h:26-68 | every run of registrations, messages, ticks and resumes, with any allocator and any timeouts, keeps records, timer map and the place of every transaction |
| Transactions.ShortRunsAreRoomy | src/commlib/co/coroutine.cpp:70-76 | no run of less than 2^32 calls ever has all ids in use |
| Transactions.RunStaysFaithful | src/commlib/trans/trans_mgr.h:26-68 | and with any sound allocator it keeps timers true to the lives they were armed in |
| Transactions.TransactionsAreConserved | src/commlib/trans/trans_mgr.h:26-61 | in every run idle plus owned equals registered, and no object is idle twice, owned twice, or both |
| Transactions.MapCoversSleepers | src/commlib/co/co_task.h:22-72 | in every run, whatever allocator and timeouts, the timer map covers exactly the suspended coroutines |
| Transactions.NoTimerForOthers | src/commlib/co/co_task.h:22-72 | in every run with a sound allocator a suspended coroutine has at most one uncancelled pending timer, for its present life, and any other id none |
| Transactions.TimersNeverReachALaterLife | src/commlib/co/coroutine.cpp:28-55 | in every run with a sound allocator, short timeouts included, a timer resumes only the life it was armed in, and not before its timeout has passed; Yield returns -1 exactly then, and a coroutine resumed by a message finds it |
| Transactions.LastMessageIsFound | src/commlib/co/coroutine.cpp:38-55 | in every run each resumption, whatever brought it, finds the last message sent to its id |
| Transactions.AddedTaskStartsWhenResumed | src/commlib/co/co_task.h:18-36 | an added task waits; its first resume starts it, and adding and resuming is what DoTack does |
| Transactions.MessageIsDeliveredOnce | src/commlib/trans/trans_mgr.h:43-61 | a result of 0 means exactly one resumption, of the coroutine named or of the new one, which finds the message; -1 means none, and is the result if and only if no object is idle or the id named is not in use |
| Transactions.RefusedExactlyWhenAllAreOwned | src/commlib/trans/trans_mgr.h:46-51 | a starting message is refused if and only if all registered objects of its command are owned |
| Transactions.RegistrationTakesEffectExactly | src/commlib/trans/trans_mgr.h:26-51 | in every run n objects are registered for a command if and only if its registration with n objects comes before all its other registrations with objects and all messages that would start it |
| Transactions.RegistrationAnswersExactly | src/commlib/trans/trans_mgr.h:26-35 | in every run RegisterCmd answers true if and only if no earlier call settled the command; answered true, the command has exactly the objects asked for, all idle; answered false, nothing has changed |
| Transactions.FreshRegistration | src/commlib/trans/trans_mgr.h:26-35 | the first registration of a fresh manager, with its pool and its answer |
| Transactions.EarlyMessageRun | src/commlib/trans/trans_mgr.h:26-51 | the run of a message and then the registration: refused, and the next starting message too |
| Transactions.EarlyMessageBlocksTheCommand | src/commlib/trans/trans_mgr.h:26-51 | after a message for an unregistered command every later starting message is refused, whatever is registered and whatever else happens |
| Timeouts.CancelTakesItsTimer | src/commlib/co/co_task.h:66-72 | cancelling before a resume takes exactly this coroutine's timer from those that will fire |
| Timeouts.YieldStaysPunctual | src/commlib/co/co_task.h:22-26 | going to sleep for any time that is due in a later second adds exactly one timer that will fire, and keeps one for each entry of the map |
| Timeouts.ResumeOneKeeps | src/commlib/co/co_task.h:33-41 | a whole resume by the main loop keeps the whole invariant, a timer for each sleeper included |
| Timeouts.FireAllKeeps | src/commlib/timer.h:46-58 | so does the loop over a batch |
| Timeouts.DoTimeOutTaskKeeps | src/commlib/co/co_task.h:59-61 | and a whole tick |
| Timeouts.NobodyOversleeps | src/commlib/co/co_task.h:22-61 | after a tick at some time, each coroutine still suspended waits for a timer due after that time |
| Timeouts.DueSleepersAreWoken | src/commlib/co/co_task.h:22-61 | at a tick every suspended coroutine whose timeout has passed is resumed by its timer |
| Timeouts.OneTimerEach | src/commlib/co/co_task.h:22-41 | a suspended coroutine has exactly one timer that will fire, for its present life; any other id has none |
| Timeouts.RunKeepsInv | src/commlib/trans/trans_mgr.h:26-68 | every run without a timeout due in its own second, and of less than 2^32 seconds, keeps the whole invariant |
| Timeouts.SleepersHaveOneTimer | src/commlib/co/co_task.h:22-72 | in every such run the timer map covers exactly the suspended coroutines, each with one uncancelled pending timer |
| Timeouts.LongTimeoutsAreSafe | src/commlib/co/co_task.h:91-93 | with timeouts of 1000 ms or more no run has a timeout due in its own second |
| Timeouts.ShortSleepLosesAWakeUp | src/commlib/co/co_task.h:22-61 | for each start and each timeout due in its own second, a run in which another coroutine, asleep for a second, is passed over by the tick at which it is due and has no timer left |
| Runtime.CoTask.NewCoroutine | src/commlib/co/coroutine.cpp:4-26 | the object's state becomes that of the model's step, and the id is the predicted one |
| Runtime.CoTask.FreeCoroutine | src/commlib/co/coroutine.cpp:57-63 | the object refines the model's step, the returned transaction included |
| Runtime.CoTask.CancelTimer | src/commlib/co/co_task.h:66-72 | the object refines the model's step; unknown ids change nothing |
| Runtime.CoTask.Yield | src/commlib/co/co_task.h:22-26 | the object refines the model's step |
| Runtime.CoTask.AddWake | src/commlib/co/co_task.h:22-24 | one timer is armed at the new clock reading, for the address the allocator gave |
| Runtime.CoTask.Enter | src/commlib/co/coroutine.cpp:28-55 | the object refines the model's step: flag or message set, the waiting Yield's flag cleared |
| Runtime.CoTask.ResumeOne | src/commlib/co/co_task.h:33-41 | the object refines the model's step and returns 0 if and only if the id was in use |
| Runtime.CoTask.FireNext | src/commlib/timer.h:46-58 | one round of the loop leaves the same result to come, and one node fewer |
| Runtime.CoTask.DoTimeOutTask | src/commlib/timer.h:39-59 | the loop of cancel look-ups, resumes and re-adds refines the model's tick |
| Runtime.TransMgr.RegisterCmd | src/commlib/trans/trans_mgr.h:26-35 | answers true if and only if the map did not have the command; then the loop fills its pool with `count` objects, else nothing changes |
| Runtime.TransMgr.OnMsg | src/commlib/trans/trans_mgr.h:43-61 | the object refines the model's step, with its result code |
| Runtime.TransMgr.TickTimeOutCo | src/commlib/trans/trans_mgr.h:66-68 | the object refines the model's tick |
| Runtime.Pools.GetShared | src/commlib/object_pool.h:30-41 | the last object leaves the pool, the others stay in order; an empty pool gives none |
| SdsString.GrowFits | src/commlib/redis/sds.cpp:197-240 | growing never narrows the header or shrinks the capacity, and always makes the room asked for |
| SdsString.GrowthIsLogarithmic | src/commlib/redis/sds.cpp:197-240 | below the preallocation ceiling k reallocations in any run of appends need a total length n with 2^k <= 2n |
| SdsString.GrowLeavesRoom | src/commlib/redis/sds.cpp:197-240 | a reallocation leaves as much free room as the string is long below 1 MB, and exactly 1024 * 1024 bytes from there on; a string that still fits keeps its header |
| SdsString.ReqTypeIsNarrowest | src/commlib/redis/sds.cpp:60-70 | the narrowest header whose field holds one more than the size, or width 5 below 32 |
| SdsString.NegativeIndexesCountFromTheEnd | src/commlib/redis/sds.cpp:699-741 | -1 is the last byte, -2 the one before it; the interval is inclusive |
| SdsString.RangeKeepsExactly | src/commlib/redis/sds.cpp:715-741 | a byte is kept, in order, exactly when its position lies between the clamped indexes |
| SdsString.TrimIsUnique | src/commlib/redis/sds.cpp:684-697 | the specification of trimming leaves one possible result |
| SdsString.Sds.constructor | src/commlib/redis/sds.cpp:84-138 | a new string holds its bytes and terminator under the width it needs |
| SdsString.Sds.MakeRoomFor | src/commlib/redis/sds.cpp:197-240 | same bytes, enough room, header as the growth policy says |
| SdsString.Sds.RemoveFreeSpace | src/commlib/redis/sds.cpp:248-272 | same bytes, no free room, the narrowest header |
| SdsString.Sds.GrowZero | src/commlib/redis/sds.cpp:361-372 | the bytes gain zeros up to the length asked for |
| SdsString.Sds.CatLen | src/commlib/redis/sds.cpp:379-388 | the bytes gain exactly the appended ones, through any header change |
| SdsString.Sds.CpyLen | src/commlib/redis/sds.cpp:408-417 | the bytes become exactly the copied ones |
| SdsString.Sds.Clear | src/commlib/redis/sds.cpp:186-189 | no bytes are left; width and allocation stay, and with them the capacity, but for width 5, whose capacity is its length |
| SdsString.Sds.Trim | src/commlib/redis/sds.cpp:684-697 | in place: the longest slice whose ends are not in the set |
| SdsString.Sds.Range | src/commlib/redis/sds.cpp:715-741 | in place: the slice between the clamped indexes |
| SdsQuote.CatRepr | src/commlib/redis/sds.cpp:859-882 | appends the quoted form of any byte string |
| SdsQuote.ReadToken | src/commlib/redis/sds.cpp:945-1023 | the token loop terminates and reads what the token grammar says, unbalanced quotes included |
| SdsQuote.SplitArgs | src/commlib/redis/sds.cpp:934-1042 | terminates on every line with all its arguments, or none on unbalanced quotes |
| SdsQuote.TokenReadsRepr | src/commlib/redis/sds.cpp:949-979 | the quoted form of any bytes is read back inside any line |
| SdsQuote.QuoteSplitRoundTrip | src/commlib/redis/sds.cpp:859-1042 | for every list of byte strings, quoting, joining with a space and splitting gives the list back |
| SdsQuote.PrintableStandsAsItself | src/commlib/redis/sds.cpp:859-882 | printable text without quotes and backslashes is quoted as it stands |
| SdsQuote.EscapesAsWritten | src/commlib/redis/sds.cpp:862-878 | the seven short escapes, and bytes that have none |
| SdsQuote.OthersAreHexadecimal | src/commlib/redis/sds.cpp:872-876 | every other byte that is not printable is written as \x and two digits |
| SdsQuote.OtherEscapesStandForThemselves | src/commlib/redis/sds.cpp:951-974 | between double quotes a backslash takes the character after it as it is, but for five letters and \x with two hexadecimal digits |
| SdsQuote.TokensEndExactly | src/commlib/redis/sds.cpp:942-1020 | an unquoted token ends at a space, a newline, a carriage return or a tab, and at no other character, while six characters are skipped in front of one |
| SdsQuote.UnbalancedIsRefused | src/commlib/redis/sds.cpp:975-983 | quotes left open, or closed in front of something else than a blank, give nothing |
| SdsQuote.TokenReadsSingleQuoted | src/commlib/redis/sds.cpp:986-1001 | text in single quotes is read back, only the quote itself being escaped |
| SdsQuote.WordsAreSplit | src/commlib/redis/sds.cpp:934-1042 | a line of plain words gives the words |
| SdsSplit.SplitLen | src/commlib/redis/sds.cpp:796-843 | the scan over a growing token array finds the tokens between first occurrences of the separator |
| SdsSplit.Join | src/commlib/redis/sds.cpp:1081-1090 | the tokens with the separator between them |
| SdsSplit.JoinUndoesSplit | src/commlib/redis/sds.cpp:796-843 | joining a split gives the string back, and no token holds the separator |
| SdsSplit.SplitUndoesJoinExactly | src/commlib/redis/sds.cpp:1081-1090 | splitting a join gives the tokens back if and only if each separator is first met where it was put |
| SdsSplit.OneByteSeparator | src/commlib/redis/sds.cpp:814-827 | for one-byte separators that is exactly when no token holds it |
| SdsSplit.OverlapIsMetEarly | src/commlib/redis/sds.cpp:814-827 | a two-byte separator that is met early, with the tokens it gives |
| Numbers.CountDigits | src/commlib/redis/connection.cpp:22-32 | equals the number of decimal digits of any value |
| Numbers.ReverseInPlace | src/commlib/redis/sds.cpp:449-459 | the buffer holds the reversal of what it held, and nothing behind it changes |
| Numbers.DigitsBackwards | src/commlib/redis/sds.cpp:437-446 | the digits are those of the value, least significant first |
| Numbers.LL2Str | src/commlib/redis/sds.cpp:432-461 | every 64-bit value is printed canonically and terminated, in at most 20 characters |
| Numbers.SignedRoundTrip | src/commlib/redis/sds.cpp:432-461 | the numeral parses back to the value |
| Numbers.SignedAsWritten | src/commlib/redis/sds.cpp:432-461 | 0, a value with a zero inside, and a negative one |
| Numbers.SignedFits | src/commlib/redis/sds.cpp:428-432 | 20 characters are enough for every 64-bit value |
| Bytes.DecimalLength | src/commlib/redis/connection.cpp:22-32 | k digits exactly for the values from 10^(k-1) up to 10^k |
| RespProtocol.DecodeUndoesEncode | src/commlib/redis/connection.cpp:224-241 | a request decodes to its arguments whatever bytes they hold and whatever follows |
| RespProtocol.PipelineDecodesUniquely | src/commlib/redis/connection.cpp:224-241 | concatenated requests are read back in one way only |
| RespProtocol.BytesOfRequest | src/commlib/redis/connection.cpp:230-241 | byte for byte: a star, the number of arguments and CR LF; then each argument, behind a dollar sign, its length and CR LF, with CR LF after it |
| RespProtocol.PingAsSent | src/commlib/redis/connection.cpp:230-241 | the request for PING |
| RespFormat.ScanConversion | src/commlib/redis/connection.cpp:103-185 | flags, width, precision and size are read as the conversion grammar says, a terminator taken for the letter included |
| RespFormat.ReadPercent | src/commlib/redis/connection.cpp:77-203 | one conversion appends its value's bytes, takes its value and moves on, also when the format cuts it off after 13 characters or more; or it reports the error, or that reading goes on behind the terminator |
| RespFormat.Bulklen | src/commlib/redis/connection.cpp:34-36 | the length computed for an argument is that of its bulk string |
| RespFormat.TotalLenIsExact | src/commlib/redis/connection.cpp:215-227 | the precomputed total equals the bytes of all bulk strings |
| RespFormat.WriteCommand | src/commlib/redis/connection.cpp:224-245 | the filled buffer is exactly the encoded request with its terminator |
| RespFormat.BuildIsSubstitution | src/commlib/redis/connection.cpp:56-213 | the one-pass scan builds the same arguments as splitting the template on spaces and then substituting |
| RespFormat.ReadConversionAt | src/commlib/redis/connection.cpp:103-185 | a conversion is read the same wherever it stands and whatever follows |
| RespFormat.IntegersTakeSizes | src/commlib/redis/connection.cpp:128-178 | the six integer conversions take no size, h, hh, l or ll |
| RespFormat.DoublesTakeNoSize | src/commlib/redis/connection.cpp:134-138 | the eight floating-point conversions take none |
| RespFormat.OneInFrontExactly | src/commlib/redis/connection.cpp:113-178 | what may stand between the percent sign and the letter: five flags, a digit, a dot or a size |
| RespFormat.OthersAreRefused | src/commlib/redis/connection.cpp:180-182 | other conversions of printf are refused |
| RespFormat.FlagsWidthPrecision | src/commlib/redis/connection.cpp:113-178 | flags, width, precision and size in their order |
| RespFormat.ScanRendered | src/commlib/redis/connection.cpp:56-213 | a written-out template is scanned back to its items |
| RespFormat.ConversionIsPrintedExactly | src/commlib/redis/connection.cpp:184-197 | a numeric conversion is printed if and only if it has less than 14 characters; the text of a longer one is read again from its third character |
| RespFormat.CutOffIsReadPastExactly | src/commlib/redis/connection.cpp:125-204 | a format that ends inside a conversion is read past its terminator if and only if that conversion, terminator included, has less than 14 characters |
| RespFormat.LongConversionIsSentAsText | src/commlib/redis/connection.cpp:184-204 | a longer conversion without the blank flag, complete or cut off, sends its own text from the third character on, whatever its value |
| RespFormat.TwelveZeros | src/commlib/redis/connection.cpp:184-204 | such a conversion, with the argument it sends |
| RespFormat.ThirteenZeros | src/commlib/redis/connection.cpp:184-204 | such a conversion that the format cuts off |
| RespFormat.FormatCommand | src/commlib/redis/connection.cpp:38-245 | the output is the request whose arguments are the words of the template with the values put in; malformed conversions give the error |
| RespFormat.ValuesNeverMoveBoundaries | src/commlib/redis/connection.cpp:56-213 | the number of arguments is the number of words, each its own word filled in, whatever the values hold |
| RespFormat.TemplateAsSent | src/commlib/redis/connection.cpp:56-213 | the arguments of a template with text, a value that holds a blank, and a percent sign |
| RespFormat.FormattedTemplateDecodes | src/commlib/redis/connection.cpp:38-245 | for every template of literals, spaces, %s, %b, %% and short numeric conversions the output decodes to the substituted words |
| CircularQueue.PushesAreAccountedFor | src/third/spdlog/details/circular_q.h:48-100 | in every run pushes = pops + queued + overruns |
| CircularQueue.QueuedIsTheNewest | src/third/spdlog/details/circular_q.h:48-80 | what is queued is always the newest part of everything pushed, in order |
| CircularQueue.DropsOnlyWhenFull | src/third/spdlog/details/circular_q.h:48-80 | an item is dropped if and only if a push meets a full queue; otherwise what is queued is everything pushed but not popped, in order |
| CircularQueue.Ring.PushBack | src/third/spdlog/details/circular_q.h:48-61 | the ring refines the bounded queue's push, overrun included; a disabled one does nothing |
| CircularQueue.Ring.Front | src/third/spdlog/details/circular_q.h:65-73 | the oldest queued item |
| CircularQueue.Ring.PopFront | src/third/spdlog/details/circular_q.h:77-80 | the ring refines the bounded queue's pop |
| CircularQueue.Ring.Empty | src/third/spdlog/details/circular_q.h:82-85 | true exactly when nothing is queued |
| CircularQueue.Ring.Full | src/third/spdlog/details/circular_q.h:87-95 | true exactly when an enabled queue is at capacity |
| BlockingQueue.NextKeepsInv | src/third/spdlog/details/mpmc_blocking_q.h:32-67 | every step of any thread keeps the accounting of sleepers against notifications owed |
| BlockingQueue.NoInterleavingLosesAWakeup | src/third/spdlog/details/mpmc_blocking_q.h:32-67 | in every interleaving, while a consumer sleeps the items do not exceed the notifications owed and consumers woken, and likewise for producers and free slots; without overruns items leave in posting order |
| BlockingQueue.EveryItemArrives | src/third/spdlog/details/mpmc_blocking_q.h:32-67 | in every interleaving each item was posted as often as calls brought it, but for producers still waiting with it |
| BlockingQueue.SpuriousWakeUpsChangeNothing | src/third/spdlog/details/mpmc_blocking_q.h:32-67 | a thread woken without a reason looks again and sleeps on |
| BlockingQueue.TimedOutWaitsChangeNothing | src/third/spdlog/details/mpmc_blocking_q.h:54-67 | a wait whose time runs out on an empty queue leaves everything as it was |
| BlockingQueue.RestIsJustified | src/third/spdlog/details/mpmc_blocking_q.h:32-67 | with nothing under way consumers sleep only on an empty queue and producers only on a full one |
| ThreadPool.DoKeepsInv | src/third/spdlog/details/thread_pool-inl.h:37-124 | every step of clients, workers and destructor keeps the account of each message |
| ThreadPool.PostsAreAcceptedExactly | src/third/spdlog/details/thread_pool-inl.h:54-83 | a thread that is not inside the queue may post if and only if it is no worker and the pool is not being destroyed |
| ThreadPool.ShutdownHandlesEverything | src/third/spdlog/details/thread_pool-inl.h:37-124 | in every interleaving, once all workers have left, the queue is empty, each took one terminate, and each log was handled exactly as often as calls posted it; one worker handles them in the order in which they got into the queue |
| ThreadPool.ShutdownNeverStuck | src/third/spdlog/details/thread_pool-inl.h:37-52 | a started shutdown in which a worker is left always has a step that brings it forward |
| ThreadPool.ProgressLowersWork | src/third/spdlog/details/thread_pool-inl.h:37-124 | each such step lowers a measure of the work left |
| ThreadPool.ShutdownEnds | src/third/spdlog/details/thread_pool-inl.h:37-124 | in every interleaving of a started shutdown, spurious wake-ups and expired waits included, the steps that bring it forward are at most the work left and two for each of those, and it stops only where every worker has left |
| ThreadPool.ShutdownCompletes | src/third/spdlog/details/thread_pool-inl.h:37-124 | from every state of a started shutdown such steps lead to the exit of every worker |
| ThreadPool.EveryPoolCanBeShutDown | src/third/spdlog/details/thread_pool-inl.h:37-124 | whatever a pool has begun, those who are posting get through, it can be closed, and every worker leaves |
| ThreadPool.ShutdownPossibleExactly | src/third/spdlog/details/thread_pool-inl.h:37-52 | at any time of any run all workers can leave, without another message, if and only if the queue has room for a message |
| RotatingSink.NamesAreDistinct | src/third/spdlog/sinks/rotating_file_sink-inl.h:43-54 | different indexes give different names, for any base name |
| RotatingSink.IndexStandsBeforeTheExtension | src/third/spdlog/sinks/rotating_file_sink-inl.h:41-54 | a base name with an extension gets the index in front of it |
| RotatingSink.IndexStandsAtTheEnd | src/third/spdlog/details/file_helper-inl.h:111-131 | a file without an extension, hidden or not, gets it at its end, also in a folder with a dot |
| RotatingSink.IndexStandsBehindALastDot | src/third/spdlog/details/file_helper-inl.h:111-131 | so does a name that ends in a dot |
| RotatingSink.NamesAsDocumented | src/third/spdlog/sinks/rotating_file_sink-inl.h:41-54 | logs/mylog.3.txt |
| RotatingSink.RotationDropsOnlyTheOldest | src/third/spdlog/sinks/rotating_file_sink-inl.h:88-117 | a rotation forgets exactly the last file, and only when another takes its place |
| RotatingSink.EveryRunKeepsASuffix | src/third/spdlog/sinks/rotating_file_sink-inl.h:63-74 | after any run the files are a suffix of the first contents and all that was written, and files begun by the sink are within the limit or hold one message |
| RotatingSink.NothingIsForgottenWhileItFits | src/third/spdlog/sinks/rotating_file_sink-inl.h:63-74 | in every run that fits into the newest file, that file grows by exactly what is written and every other one is as it was |
| RotatingSink.FilesArePacked | src/third/spdlog/sinks/rotating_file_sink-inl.h:63-117 | exactly what every file of the series holds after any run: the messages packed, newest file first, then the files there were |
| RotatingSink.PackedIsGreedy | src/third/spdlog/sinks/rotating_file_sink-inl.h:63-74 | no message is lost, moved or split, and a file is closed only when the next message would have taken it over the limit |
| RotatingSink.Sink.constructor | src/third/spdlog/sinks/rotating_file_sink-inl.h:27-39 | opening keeps the history, rotates if asked to, and touches no file outside the series |
| RotatingSink.Sink.Rotate | src/third/spdlog/sinks/rotating_file_sink-inl.h:88-117 | the loop of renames moves every file up by one and begins a new one, touching nothing else |
| RotatingSink.Sink.RenameFile | src/third/spdlog/sinks/rotating_file_sink-inl.h:122-127 | the file takes the target's place and its own place is empty |
| RotatingSink.Sink.SinkIt | src/third/spdlog/sinks/rotating_file_sink-inl.h:63-74 | one message keeps the invariant of every run, and the files and the size counter become those of the step that the runs above are made of |
| ConsistentHash.AddMovesOnlyToTheNewNode | src/commlib/consistent_hash.hpp:42-59 | adding a node moves a key only to that node, for every key and ring |
| ConsistentHash.RemoveMovesOnlyItsKeys | src/commlib/consistent_hash.hpp:61-66 | removing a node whose points are its own moves only the keys it held |
| ConsistentHash.RemoveUndoesAddExactly | src/commlib/consistent_hash.hpp:54-66 | removing undoes adding if and only if none of the node's points was taken |
| ConsistentHash.RemoveErasesFromHistory | src/commlib/consistent_hash.hpp:54-66 | after any history, whenever and however often the node was added, removal gives the ring of the other additions when no other node shares a point with it |
| ConsistentHash.RemovalErasesExactly | src/commlib/consistent_hash.hpp:54-66 | it does so if and only if no other node of the history shares a point with it |
| ConsistentHash.HistoryRemovalMovesOnlyItsKeys | src/commlib/consistent_hash.hpp:42-66 | after any such history a key of another node keeps its node |
| ConsistentHash.HistoryLeavesTheSurvivors | src/commlib/consistent_hash.hpp:54-66 | after any history of additions and removals of nodes without common points the ring is that of the nodes added last |
| ConsistentHash.EachPointIsItsNodes | src/commlib/consistent_hash.hpp:54-66 | and its points are exactly those of the nodes present, each its own node's, in whatever order they came and went |
| ConsistentHash.HashRing.AddNode | src/commlib/consistent_hash.hpp:54-59 | the loop puts the node at the sixteen codes of its name with `_#` and a number, and changes nothing else |
| ConsistentHash.HashRing.RemoveNode | src/commlib/consistent_hash.hpp:61-66 | the loop erases exactly the sixteen codes of the node |
| ConsistentHash.HashRing.GetNode | src/commlib/consistent_hash.hpp:42-52 | the node at the greatest code not above the key's, or at the least code of all when there is none; nothing exactly on an empty ring |
| ConsistentHash.OwnerServes | src/commlib/consistent_hash.hpp:42-52 | so it is for every ring and code |
| ConsistentHash.ServesIsUnique | src/commlib/consistent_hash.hpp:42-52 | and there is one such code |
| ConsistentHash.WrappedKey | src/commlib/consistent_hash.hpp:46-50 | a ring of two nodes and a key below both, which goes round to the least code |
| ConsistentHash.CodesOfNode | src/commlib/consistent_hash.hpp:54-59 | the points of a node, in literal characters and numbers |
| TomlText.EscapeString | src/third/toml/cpptoml.h:3415-3461 | the escapes of all bytes in order |
| TomlText.StringLiteral | src/third/toml/cpptoml.h:2493-2517 | the loop reads what the literal grammar says, failures included |
| TomlText.WritableIsRecovered | src/third/toml/cpptoml.h:2493-2564 | a string whose only control bytes are \b \t \n \f \r is read back, whatever follows it |
| TomlText.StringRoundTripExactly | src/third/toml/cpptoml.h:3415-3461 | reading the written text gives the string back if and only if it has no other control byte |
| TomlText.EscapesAsWritten | src/third/toml/cpptoml.h:3415-3461 | the escapes the writer uses, character by character |
| TomlText.EscapesAsRead | src/third/toml/cpptoml.h:2519-2563 | the escapes the reader knows, and that it refuses others |
| TomlText.ShortUnicodeExactly | src/third/toml/cpptoml.h:2565-2625 | \u with four hexadecimal digits is refused if and only if it is half of a surrogate pair, and otherwise stands for the code point of its digits |
| TomlText.LongUnicodeExactly | src/third/toml/cpptoml.h:2565-2625 | \U with eight is refused if and only if it is that or above the last code point |
| TomlText.UnicodeAsRead | src/third/toml/cpptoml.h:2565-2625 | escapes in upper and lower case, with too few digits, and with eight |
| TomlText.EncodesUtf8Exactly | src/third/toml/cpptoml.h:2577-2625 | a code point is encoded in UTF-8 if and only if it does not need three bytes with the upper half of the middle ones |
| TomlText.SingleQuotedIsVerbatim | src/third/toml/cpptoml.h:2493-2517 | between single quotes nothing is an escape |
| TomlTime.PrintFraction | src/third/toml/cpptoml.h:207-217 | the digit loop ends before it would divide by zero, with the digits of the quotients |
| TomlTime.EatTwoDigits | src/third/toml/cpptoml.h:1806-1816 | two digits and their value, or a failure |
| TomlTime.ReadTime | src/third/toml/cpptoml.h:2898-2929 | reads a whole time up to the end of its characters, or fails |
| TomlTime.InRangeReadsBack | src/third/toml/cpptoml.h:198-220 | a printed time in range is read back |
| TomlTime.TimeRoundTripExactly | src/third/toml/cpptoml.h:198-220 | reading a printed time gives it back if and only if its fields have two digits and its fraction lies in 0..999999 |
| TomlTime.ReadsExactly | src/third/toml/cpptoml.h:2898-2929 | exactly the times are read, each field as its number and the first six digits of the fraction, filled up, as millionths |
| TomlTime.TimeCharsAsWritten | src/third/toml/cpptoml.h:2890-2896 | a time goes on as far as digits, colons and dots do |
| TomlTime.TimesAsPrinted | src/third/toml/cpptoml.h:198-220 | two times as they are printed |
| TomlTree.RunKeeps | src/third/toml/cpptoml.h:1892-1919 | every accepted run of statements only adds to the tree |
| TomlTree.StatementsStay | src/third/toml/cpptoml.h:1892-2175 | each accepted key/value statement is in the final tree at its place; scalars, plain arrays and arrays of tables with an empty part in their name are unchanged, other values have gained at most |
| TomlTree.StatementsStandUnderTheirHeader | src/third/toml/cpptoml.h:1892-2175 | in every accepted document each key/value statement stands at the name of the last header before it followed by its own |
| TomlTree.CursorFollowsHeaders | src/third/toml/cpptoml.h:1892-2133 | after every accepted run the current table is the one the last header names, through tables and last elements of arrays |
| TomlTree.HeaderLeadsToItsName | src/third/toml/cpptoml.h:1956-2032 | every accepted header leads to the table of its name, through arrays of tables too |
| TomlTree.ArrayHeaderLeadsToItsElement | src/third/toml/cpptoml.h:2034-2133 | every accepted array header leads to a new last element, empty, of the array of its name |
| TomlTree.CurrentIsUnique | src/third/toml/cpptoml.h:1973-1988 | a name leads to one such place only |
| TomlTree.ArrayTakesAnother | src/third/toml/cpptoml.h:2034-2133 | as long as the table that holds it is current, an array takes another element by the same header, after all earlier ones, whatever stands between |
| TomlTree.NothingElseIsAdded | src/third/toml/cpptoml.h:1892-2175 | whatever an accepted statement adds is on the way of its name or in its value |
| TomlTree.LeavesAreWritten | src/third/toml/cpptoml.h:1892-2175 | every scalar and plain array of an accepted document was written by a key/value statement at that place |
| TomlTree.ValueChangesExactly | src/third/toml/cpptoml.h:1892-2175 | for every reachable state and accepted key/value statement, some accepted continuation changes the value if and only if it is a table, or an array of tables whose name has no empty part |
| TomlTree.AcceptedExactly | src/third/toml/cpptoml.h:2135-2175 | a key/value statement is accepted if and only if its name leads through tables to a free end |
| TomlTree.SecondDefinitionRejected | src/third/toml/cpptoml.h:2135-2175 | a second statement for the same place is rejected, whatever stands between |
| TomlTree.HeaderAcceptedExactly | src/third/toml/cpptoml.h:1945-2032 | a header is accepted if and only if its name leads, through tables and last elements of arrays, to nothing yet or to a table with entries but no scalar |
| TomlTree.ArrayHeaderAcceptedExactly | src/third/toml/cpptoml.h:2034-2133 | an array header is accepted if and only if its name leads to nothing yet or to an array of tables not written as a value |
| TomlTree.TablesCanBeOpenedTwice | src/third/toml/cpptoml.h:2007-2027 | a table with entries but no scalar is opened by its header any number of times, unchanged |
| TomlTree.ReopeningDocument | src/third/toml/cpptoml.h:1945-2032 | a document accepted from the start that opens a table twice |
| TomlTree.InlineTablesCanGrow | src/third/toml/cpptoml.h:2141-2162 | in any state a table written as a value can gain entries by a dotted key |
| TomlTree.InlineArraysCanGrow | src/third/toml/cpptoml.h:1945-2032 | in any reachable state an array of inline tables written by named keys can gain entries by a header |
| TomlTree.Parser.Follow | src/third/toml/cpptoml.h:1956-2009 | the walk down a dotted name makes and enters tables as the model's walk does |
| TomlTree.Parser.ParseSingleTable | src/third/toml/cpptoml.h:1945-2032 | a header is accepted where the model accepts it and leads to the table of its name |
| TomlTree.Parser.ParseTableArray | src/third/toml/cpptoml.h:2034-2133 | an array header appends an element exactly where it may |
| TomlTree.Parser.ParseKeyValue | src/third/toml/cpptoml.h:2135-2175 | a key/value statement puts its value under the current table or is rejected |
| TomlTree.Parser.Parse | src/third/toml/cpptoml.h:1892-1919 | the loop over all statements builds the model's tree or fails at the first rejection |

## Left out

- Context switching itself, stacks, the event loop, networking, message brokers and protobuf: foreign
  code. "The main loop resumes", "a message arrives" and "the clock advances" are the steps.
- Nested resumes and `CoTask::ResumeAll`: it resumes without cancelling the timer, so it breaks the
  discipline the timer needs. Only the main loop resumes here.
- Which transaction a late reply was meant for: the code checks only that the coroutine id exists.
- Runs in which all 2^32 - 1 coroutine ids are in use at once, so that the next one is taken, and for
  the theorems of `Timeouts` more than 2^32 seconds of uptime.
- Tasks that add tasks, register commands or handle messages during their turn.
- `kKeySize` of the hash ring is 0, so its mask keeps every bit; other sizes are not modelled.
- Timer records are freed in the model as soon as their task ends, in the code when the whole batch
  is done: the model's allocator has more freedom, not less.
- `Coroutine` records are values in the pool's list and map, not objects on the heap; the code never
  shares one between the two.
- The class fields of `CoPool` stand in `Runtime.CoTask`, and the batch and the fired node, local
  variables in the code, are fields there, because the allocator depends on them.
- How long the cancel list may grow.
- The map lookups `std::set`, `std::map` and `std::unordered_map` are taken as ordered sequences,
  maps and least keys, not as trees and tables.
- Failed allocations, buffers of 2 GB and more, and the width of `size_t`: the 64-bit header field
  is taken as unbounded.
- Negating LLONG_MIN in `sdsll2str` is undefined in C; its magnitude is taken as 2^63.
- `isprint` and `isspace` are those of the C locale.
- `vsnprintf`: the text it prints for a number is given with the value.
- RespFormat.ReadPercent: what a format that ends inside a short conversion makes the code read behind
  the terminator: that is memory outside the format, and only reported as such.
- RespFormat.FormatCommand: gives no output for such a format, for the same reason.
- The queue's variants for MinGW, which notify under the lock, and moving or copying the ring.
- The pool's overrun policies: `ThreadPool` covers the block policy; `BlockingQueue` and
  `CircularQueue` cover `enqueue_nowait`.
- Failing renames, and the retry and exception that follow.
- `std::hash`: any function will do.
- Reading TOML lines into names and values: the statements are given. Floats, dates, zone offsets,
  multi-line strings and locale are not part of this model.
- The Redis command wrappers, template traits, the other log sinks, pattern formatting and service
  lists: thin or easy.
