# Vitex core algorithms in Dafny

Vitex is a C++ framework. This project models the algorithms and state machines at its core and proves what they
are for: fixed-width integers that wrap like the mathematics says, exact decimals, a scheduler that loses nothing,
codecs that invert, a calendar that agrees with counting. `dafny verify dfyconfig.toml` checks all of it.

| files | what they model |
|---|---|
| `Words`, `Uint128`, `Uint256` | the two-limb and four-limb integers: carry, borrow, shifts, schoolbook products, two division algorithms |
| `Radix`, `Bytes`, `Uint256Text`, `Uint256Decimal` | printing and parsing in base 2 to 36, and conversion to a decimal |
| `Calendar` | the closed form of `global_time` against counting years and months |
| `Timers`, `Tasks`, `Coroutines`, `Wakeup` | the scheduler: timer queue, task queues, coroutine pool, and the suspend and wake-up hand-over |
| `Digits10`, `Decimal`, `DecimalArithmetic`, `DecimalText` | digit strings, canonical form, exact arithmetic and order, text |
| `Jsonb`, `JsonbReader`, `JsonbRoundTrip`, `JsonbLayout` | the binary tree format with its name dictionary, and its bytes in numbers |
| `Md5`, `Md5Transform`, `Md5Empty` | the streaming hash, what its transform computes, and a digest worked out |
| `Rotation`, `Base64`, `Base64Bits`, `Base32`, `Base45` | the keyed rotation and the text codecs |
| `Conditions`, `ConditionTrees`, `ConditionStreams`, `ConditionOpen` | nested conditional directives of the preprocessor, closed and never closed |
| `Regions`, `LinearAllocator`, `StackAllocator` | the region allocators |

Machine words are integers with their range written out, and every wrap is an explicit remainder. State that the
program updates in place is a class with `modifies` clauses; each such method is tied to a function or to a step of a
transition system, and the laws are proved of those. Other threads and user code are nondeterministic steps. Clock
readings, addresses from the system's allocator, hash functions, the truth of one condition, and the directives found
in a text are parameters.

Where the code does not meet the law one would expect of it, the exact condition is proved: right shifts of `uint256`
by 128 and more, padded hexadecimal text, the 32-bit year field, timers handed out by `trigger_timers` before they are
due, clearing an interval in flight, the MD5 block loop near 2^32 bytes, unknown characters in base 45, texts that parse
to decimals out of canonical form, lengths and pointers that do not fit a JSONB field, empty blocks in the linear
allocator, conditional groups that are never closed. For the last one, `process` turns a failed preparation into a
"condition not closed" error (`src/vitex/compute.cpp:8882-8884`), but preparation of a
group that is never closed does not fail; the model follows the code.

## Model

| member | source | states |
|---|---|---|
| `Uint128.Less` | src/vitex/compute.cpp:1163-1169 | limb comparison is the order of the values, both directions |
| `Uint128.Greater` | src/vitex/compute.cpp:1156-1162 | limb comparison is the order of the values, both directions |
| `Uint128.Add` | src/vitex/compute.cpp:1178-1181 | sum modulo 2^128: the carry test on the low limb is right for every pair |
| `Uint128.Sub` | src/vitex/compute.cpp:1188-1191 | difference modulo 2^128, borrow included |
| `Uint128.Or128Value` | src/vitex/compute.cpp:1070-1073 | limb-wise OR is OR of the values |
| `Uint128.Shl` | src/vitex/compute.cpp:1094-1109 | every shift amount, in range or not: the value times 2^s modulo 2^128 |
| `Uint128.Shr` | src/vitex/compute.cpp:1115-1130 | every shift amount: the floor quotient by 2^s |
| `Uint128.ColumnsFit` | src/vitex/compute.cpp:1209-1221 | seven 32-bit digits and a carry never overflow a 64-bit column accumulator |
| `Uint128.ProductModulo` | src/vitex/compute.cpp:1197-1227 | the ten partial products that are kept are the whole product modulo 2^128 |
| `Uint128.Multiply` | src/vitex/compute.cpp:1197-1227 | for all inputs the result is the product modulo 2^128 |
| `Uint128.Bits` | src/vitex/compute.cpp:1384-1407 | the number of significant bits n: 2^(n-1) <= x < 2^n, and 0 for 0 |
| `Uint128.RestoreStep` | src/vitex/compute.cpp:1259-1271 | one round of restoring division keeps prefix = q*d + r with r < d |
| `Uint128.Divide` | src/vitex/compute.cpp:1243-1273 | left = q*right + r and r < right for every nonzero divisor, those above 2^127 included; the doubled remainder never overflows |
| `Uint256.Less256` | src/vitex/compute.cpp:1773-1780 | comparison of halves is the order of the values |
| `Uint256.Greater256` | src/vitex/compute.cpp:1761-1768 | comparison of halves is the order of the values |
| `Uint256.Add256Value` | src/vitex/compute.cpp:1801-1804 | sum modulo 2^256, on top of the 128-bit sum and its carry test |
| `Uint256.Sub256Value` | src/vitex/compute.cpp:1819-1822 | difference modulo 2^256 |
| `Uint256.Or256Value` | src/vitex/compute.cpp:1625-1628 | half-wise OR is OR of the values |
| `Uint256.Shl256Value` | src/vitex/compute.cpp:1667-1682 | the value times 2^s modulo 2^256 for every shift amount |
| `Uint256.Shr256Value` | src/vitex/compute.cpp:1696-1711 | floor quotient by 2^s below 128, zero from 128 on |
| `Uint256.ShiftRightIsDivisionExactlyWhen` | src/vitex/compute.cpp:1696-1711 | the shift is floor division by 2^s if and only if s < 128 or the value is below 2^s: from 128 on the code drops a nonzero quotient |
| `Uint256.ColumnsFit256` | src/vitex/compute.cpp:1848-1857 | seven 64-bit digits never overflow a 128-bit column accumulator |
| `Uint256.Multiply256` | src/vitex/compute.cpp:1836-1863 | for all inputs the result is the product modulo 2^256, on top of the 128-bit product |
| `Uint256.Bits256` | src/vitex/compute.cpp:2045-2068 | the number of significant bits |
| `Uint256.SetQuotientBit` | src/vitex/compute.cpp:1897-1901 | the adder's bit is clear in the quotient so far, so `|=` adds it |
| `Uint256.RoundKeepsValue` | src/vitex/compute.cpp:1897-1901 | left = q*right + r survives moving right*adder from the remainder to the quotient |
| `Uint256.DivideRound` | src/vitex/compute.cpp:1895-1904 | one round keeps: copyd = right*adder, adder a power of two, r below 2*copyd, lower quotient bits clear, left = q*right + r |
| `Uint256.Divide256` | src/vitex/compute.cpp:1873-1906 | terminates with left = q*right + r and r < right for every left and nonzero right |
| `Uint256.Modulo256` | src/vitex/compute.cpp:1928-1931 | left - right*(left/right) is the Euclidean remainder |
| `Radix.DigitsValue` | src/vitex/compute.cpp:2084-2142 | the numeral of n in a base stands for n and is one (digits of the base, no leading zero) |
| `Radix.NumeralUnique` | src/vitex/compute.cpp:2084-2142 | a numeral is determined by its number, so the two printing paths cannot differ |
| `Radix.AlphabetIs` | src/vitex/compute.cpp:2087-2087 | the digits of the printer, character by character |
| `Radix.DigitValueIs` | src/vitex/compute.cpp:1557-1561 | a character of the alphabet stands for its place, any other for zero |
| `Uint256Text.Bytes256` | src/vitex/compute.cpp:2069-2079 | the exact number of bytes without leading zero bytes, none for zero |
| `Uint256Text.HexEncode` | src/vitex/compute.cpp:7649-7667 | two digits for each byte, standing for the number of the bytes |
| `Uint256Text.FilledLimbs` | src/vitex/compute.cpp:2102-2116 | the limbs that are written hold the whole value whatever the array held before |
| `Uint256Text.ToText` | src/vitex/compute.cpp:2084-2142 | printing in base 2 to 36 at any padding length: the numeral with zeros in front, except in base 16, where zeros go behind it |
| `Uint256Text.PaddedTextIs` | src/vitex/compute.cpp:2084-2142 | the text has as many characters as length and numeral ask for, zeros in front of the numeral, or behind it in base 16 |
| `Uint256Text.UnpaddedText` | src/vitex/compute.cpp:2084-2142 | without a length the text is the numeral of the value, by hexadecimal limbs or by repeated division |
| `Uint256Text.PaddingKeepsValueExactlyWhen` | src/vitex/compute.cpp:2118-2123 | padding keeps the value if and only if the base is not 16, the value is zero, or the length is at most two digits for each byte |
| `Uint256Text.FromText` | src/vitex/compute.cpp:1549-1566 | reading any text in any base of 8 bits gives its Horner value modulo 2^256 |
| `Uint256Text.PrintThenParse` | src/vitex/compute.cpp:1549-1566 | reading the printed text gives the number back, every value and base |
| `Uint256Decimal.ToDecimal` | src/vitex/compute.cpp:2080-2083 | hexadecimal print, then Horner's rule on decimals, has exactly the value |
| `Calendar.YearWalk` | src/vitex/core.cpp:172-232 | counting year by year ends in the one year that contains the day |
| `Calendar.CenturyCorrection` | src/vitex/core.cpp:195-206 | the two integer corrections find the March-based year and the day in it, for every day of every era |
| `Calendar.MonthFormula` | src/vitex/core.cpp:214-218 | (5*yday+8)/153 finds the month, for every day of a leap-length year |
| `Calendar.ClosedFormIsCounting` | src/vitex/core.cpp:172-232 | for every integer day, before 1970 and after, the closed form is the date that year-and-month counting with the 4/100/400 rule gives |
| `Calendar.GlobalTime` | src/vitex/core.cpp:172-232 | every field written through `tm` for every 64-bit time; no intermediate leaves 64 bits |
| `Calendar.YearFieldExactWhen` | src/vitex/core.cpp:172-232 | the 32-bit year field is the true year if and only if the time is in -67768040609740800 .. 67768036191676799 |
| `Timers.Probe` | src/vitex/core.cpp:11693-11698 | the probed key is free, every key from the wanted expiry up to it is taken |
| `Timers.ProbeLateness` | src/vitex/core.cpp:11693-11698 | the probed key is at most one microsecond per queued timer late |
| `Timers.ArmKeepsInv` | src/vitex/core.cpp:11028-11033 | arming a timer that is nowhere else drops nothing and keeps the invariant |
| `Timers.StepKeepsInv` | src/vitex/core.cpp:10991-11150 | every step, `trigger_timers` included, keeps: at most one arming of each timer, and no timer queued under a key before it is due |
| `Timers.RunKeepsInv` | src/vitex/core.cpp:11314-11363 | the invariant holds in every state of every run |
| `Timers.OneArming` | src/vitex/core.cpp:11314-11363 | in every run a timer is in the queue at most once or in one re-arm task, never both |
| `Timers.StepEarlyExactlyWhen` | src/vitex/core.cpp:11323-11363 | a firing by the timer thread is never early; what `trigger_timers` hands out is early exactly when some queued timer is not due |
| `Timers.NoFiringEarlyExactlyWhen` | src/vitex/core.cpp:11096-11107 | a run has no early firing if and only if every `trigger_timers` in it came at or after the due time of every timer then queued |
| `Timers.TriggerFiresEarly` | src/vitex/core.cpp:11096-11107 | the failing runs: any timer, triggered at any clock before it is due |
| `Timers.TriggeredForGood` | src/vitex/core.cpp:11096-11107 | a timer queued when `trigger_timers` came, interval or not, is in no later queue and in no later task |
| `Timers.EveryTimerInOnePlace` | src/vitex/core.cpp:10991-11150 | in every state of every run each number given out is in exactly one place: queued, in flight, or ended once by a clear that found it queued, by `trigger_timers` or by firing without re-arming; no other number is anywhere |
| `Timers.NotEndedIsArmed` | src/vitex/core.cpp:11343-11355 | a timer that nothing has ended is queued or in flight: an interval goes on for ever |
| `Timers.StepFires` | src/vitex/core.cpp:11343-11359 | a step adds one firing, with its clock and the asked time, for each callback it hands out, and no other |
| `Timers.FiringsCountHandOuts` | src/vitex/core.cpp:11343-11359 | in every run the firings of a timer are as many as the steps that handed its callback out |
| `Timers.StepSetsDue` | src/vitex/core.cpp:11006-11033 | the asked time is set, to clock plus period, by the step that arms the timer and by no other |
| `Timers.InsertionsLand` | src/vitex/core.cpp:11017-11035 | in every run every insertion is kept, at a key no later than the queue size in microseconds after its expiry |
| `Timers.ClearedForGood` | src/vitex/core.cpp:11077-11095 | once clearing answered true the timer is in no later queue and in no later task |
| `Timers.ClearedExactlyWhen` | src/vitex/core.cpp:11077-11095 | clearing a number that was given out leaves its timer gone for good if and only if it is not an interval in flight |
| `Timers.ClearedInFlightReturns` | src/vitex/core.cpp:11077-11095 | in every run, clearing an interval in flight changes nothing, and its re-arming queues it again |
| `Timers.OneShotFiresOnce` | src/vitex/core.cpp:11323-11363 | a timer that fired without re-arming never queues or fires again |
| `Timers.Schedule.GetTimeout` | src/vitex/core.cpp:11693-11698 | the probing loop ends at the first free key at or after the wanted expiry |
| `Timers.Schedule.SetTimer` | src/vitex/core.cpp:10998-11035 | one step of the protocol with a new number, or refusal with nothing changed |
| `Timers.Schedule.ClearTimeout` | src/vitex/core.cpp:11077-11095 | one step; true exactly when the timer was queued |
| `Timers.Schedule.FireDue` | src/vitex/core.cpp:11323-11363 | one step: the first timer leaves the queue exactly when its key is reached |
| `Timers.Schedule.Rearm` | src/vitex/core.cpp:11348-11355 | one step: the interval in flight is queued again |
| `Timers.Schedule.TriggerTimers` | src/vitex/core.cpp:11096-11107 | one step: every queued callback is handed out in key order, and whether there was one |
| `Coroutines.Costate.Pop` | src/vitex/core.cpp:10692-10709 | one routine more in use, taken from the cache if there is one, made fresh otherwise |
| `Coroutines.Costate.Activate` | src/vitex/core.cpp:10776-10791 | only a suspended routine changes, to resumable |
| `Coroutines.Costate.Slice` | src/vitex/core.cpp:10732-10743 | the current routine gets exactly one slice, entered in the history with how it ended, and is left in the state that this outcome means |
| `Coroutines.Costate.RunDeferred` | src/vitex/core.cpp:10744-10748 | the deferred call is made once, entered in the history, and forgotten |
| `Coroutines.Costate.Execute` | src/vitex/core.cpp:10723-10751 | a suspended routine gets no slice; any other gets exactly one, and right behind it the deferred call exactly if the slice left one, whatever other threads wake meanwhile; nobody is current afterwards |
| `Coroutines.PairedMore` | src/vitex/core.cpp:10744-10748 | in the history every deferred call stands right behind the slice that left it, and no such slice is without its call |
| `Coroutines.Costate.Reuse` | src/vitex/core.cpp:10752-10764 | a finished routine moves to the cache without a callback |
| `Coroutines.Costate.Push` | src/vitex/core.cpp:10765-10775 | a finished routine leaves the state |
| `Coroutines.Costate.Clear` | src/vitex/core.cpp:10810-10816 | the cache is emptied and nothing in use is touched |
| `Coroutines.ServingRan` | src/vitex/core.cpp:10823-10838 | one visit of the loop keeps: who was not suspended at the start has had a slice or is still to be visited, and who left had one from which it returned |
| `Coroutines.Costate.Dispatch` | src/vitex/core.cpp:10817-10841 | terminates despite its restart, conserves used + cached, leaves nothing finished in use, gives a slice in the history to every routine in use that was not suspended, removes only routines that returned, and answers true exactly when it gave a slice |
| `Coroutines.Costate.Fill` | src/vitex/core.cpp:11413-11429 | taking new routines from two queues never exceeds the maximum and stops short only when both queues are drained |
| `Wakeup.StepKeepsInv` | src/vitex/core.cpp:10723-10751 | every step of the suspending thread, the waker and the loop keeps the hand-over invariant |
| `Wakeup.WakerFindsSuspended` | src/vitex/core.cpp:10776-10809 | in every interleaving the waker finds the routine suspended and makes it resumable |
| `Wakeup.WokenUntilExecuted` | src/vitex/core.cpp:10723-10751 | a woken routine stays resumable until it is executed |
| `Wakeup.NoLostWakeup` | src/vitex/core.cpp:10776-10809 | in every interleaving, once the waker has fired the loop never skips the routine, and can execute it whenever it looks at it |
| `Wakeup.NeverStuck` | src/vitex/core.cpp:10723-10751 | in every run the routine's thread has a step to take unless the routine has finished |
| `Wakeup.WakerCanFire` | src/vitex/core.cpp:10744-10748 | after every suspension the deferred call publishes the waker, which can fire from then on |
| `Wakeup.TurnIsRun` | src/vitex/core.cpp:10723-10751 | what an execution does to a routine is a run of the protocol with the outcome's state and deferred call |
| `Wakeup.NextDispatchRuns` | src/vitex/core.cpp:10817-10841 | after any interleaving in which the waker fired and the routine was not executed since, the next dispatch gives it a slice |
| `Wakeup.EagerPublishingLosesWakeups` | src/vitex/core.cpp:10792-10803 | publishing the waker before suspending has a run that leaves the routine suspended for good |
| `Tasks.StepConserves` | src/vitex/core.cpp:11454-11490 | a step adds exactly the next task or moves tasks without losing or copying one |
| `Tasks.EveryTaskInOnePlace` | src/vitex/core.cpp:11036-11048 | in every run each accepted task is in exactly one place, once, and no recycled queue is over `max_recycles` |
| `Tasks.DrainedMeansDone` | src/vitex/core.cpp:11454-11490 | when queues are empty and nothing runs, every accepted task has run exactly once |
| `Tasks.OwnTasksInOrder` | src/vitex/core.cpp:11470-11477 | in every run a worker takes the oldest task of its own queue, and a shared one only when that is empty |
| `Tasks.Pool.FastBypassEnqueue` | src/vitex/core.cpp:11621-11632 | into the caller's own queue exactly if it is one of several sync workers and has room |
| `Tasks.Pool.SetTask` | src/vitex/core.cpp:11036-11048 | one step of the protocol, or refusal with nothing changed |
| `Tasks.Pool.Acquire` | src/vitex/core.cpp:11470-11477 | one step: a worker's own queue first, the shared one only when that is empty |
| `Tasks.Pool.Finish` | src/vitex/core.cpp:11482-11484 | one step: the task is done |
| `Tasks.Pool.Leave` | src/vitex/core.cpp:11485-11489 | a leaving thread's tasks go behind the shared queue, in order, by steps that keep every task in one place |
| `Digits10.TopDigit` | src/vitex/core.cpp:3202-3209 | a digit string is as large as its length says exactly when its top digit is not zero |
| `Digits10.Sum` | src/vitex/core.cpp:3106-3134 | exact sum of two digit strings |
| `Digits10.Subtract` | src/vitex/core.cpp:3135-3163 | exact difference when the left is not smaller |
| `Digits10.Multiply` | src/vitex/core.cpp:3164-3201 | exact product by rows of digits |
| `Decimal.Cell.Unlead` | src/vitex/core.cpp:2062-2073 | same number, canonical afterwards |
| `Decimal.Cell.Untrail` | src/vitex/core.cpp:2074-2086 | exactly the trailing fractional zeros go |
| `Decimal.Cell.Truncate` | src/vitex/core.cpp:1989-2013 | fractional digits are cut or zeros added, in place |
| `Decimal.MoreDigits` | src/vitex/core.cpp:3204-3209 | on canonical numbers more integer digits means greater: why comparing digit counts is sound |
| `Decimal.CompareNum` | src/vitex/core.cpp:3202-3264 | 0, 1 or 2 as the magnitudes of canonical numbers compare |
| `Decimal.Less` | src/vitex/core.cpp:2561-2588 | on canonical numbers exactly the rational order, signed zeros equal; false on NaN |
| `Decimal.Greater` | src/vitex/core.cpp:2526-2553 | on canonical numbers exactly the rational order, signed zeros equal; false on NaN |
| `DecimalArithmetic.Add` | src/vitex/core.cpp:2596-2696 | canonical numbers give the exact rational sum, canonical again, with the longer fraction, the common sign, or plain zero; NaN propagates |
| `DecimalArithmetic.SubtractNum` | src/vitex/core.cpp:2709-2808 | canonical numbers give the exact rational difference, canonical again, with the longer fraction, or plain zero; NaN propagates |
| `DecimalArithmetic.Times` | src/vitex/core.cpp:2821-2837 | canonical numbers give the exact rational product, canonical again, with the fractions' lengths added and the sign of the product; NaN propagates |
| `DecimalText.Parse` | src/vitex/core.cpp:2087-2148 | the reading loops accept exactly an optional sign, digits, and a point with digits; all else is NaN |
| `DecimalText.ParseAccepts` | src/vitex/core.cpp:2087-2148 | a text of sign or none, digits, and point with digits or none is read as these digits, negative exactly with a minus sign |
| `DecimalText.ParsedWasWritten` | src/vitex/core.cpp:2087-2148 | and every accepted text is one: the grammar in both directions |
| `DecimalText.ToText` | src/vitex/core.cpp:2325-2349 | the printing loop gives the text of the untrailed number |
| `DecimalText.PrintedIs` | src/vitex/core.cpp:2325-2349 | what is printed, character by character: a minus sign or nothing, the integer digits, and a point only before fractional digits without trailing zero |
| `DecimalText.ParsePrinted` | src/vitex/core.cpp:2325-2349 | printing a canonical decimal and parsing it gives its untrailed form with its sign |
| `DecimalText.UntrailedSame` | src/vitex/core.cpp:2074-2086 | untrailing leaves no trailing fractional zero and changes neither the number nor canonical form |
| `DecimalText.ParsedCanonicalExactlyWhen` | src/vitex/core.cpp:2087-2148 | every accepted text is canonical if and only if its integer part is one digit, or longer without a leading zero: the parser does not unlead |
| `DecimalText.NoIntegerDigit` | src/vitex/core.cpp:2087-2148 | a sign, a point and any digits, even none, are accepted and not canonical |
| `DecimalText.TruncateTowardZero` | src/vitex/core.cpp:1989-2013 | `truncate(p)` is the rational rounded toward zero at p digits, canonical, sign kept |
| `DecimalText.FromInteger` | src/vitex/core.h:2063-2088 | exact and canonical for every unsigned integer |
| `DecimalText.FromText` | src/vitex/core.cpp:3069-3094 | Horner's rule in decimals is exact for every text and base |
| `DecimalText.MappedIs` | src/vitex/core.cpp:3071-3084 | the mapping table: digits, letters of either case, anything else zero |
| `Jsonb.NamesCover` | src/vitex/core.cpp:13055-13069 | the naming pass gives every key of the tree a number of its own |
| `JsonbRoundTrip.NodeRead` | src/vitex/core.cpp:12715-12839 | a written node is read back, cut to its length fields and with pointers null, wherever it stands in the bytes |
| `JsonbRoundTrip.TreeRead` | src/vitex/core.cpp:12645-12693 | reading a written tree, for any order of the dictionary and any bytes behind it, gives the tree cut to its length fields, pointers null, and consumes exactly the bytes written |
| `JsonbRoundTrip.RestoredExactlyWhenItFits` | src/vitex/core.cpp:12998-13054 | the tree comes back (decimals untrailed) if and only if every key, string and decimal text fits its length field and every pointer is null |
| `JsonbLayout.TypeNumbers` | src/vitex/core.h:129-142 | the type byte of each kind of value, as a number |
| `JsonbLayout.NodeExactly` | src/vitex/core.cpp:12998-13054 | a node is written as its key number, its type byte and its payload, each field byte j being x / 256^j % 256; these bytes and no others are the writer's |
| `JsonbLayout.TreeExactly` | src/vitex/core.cpp:12451-12472 | a document is DD 33 10 EF 00 00 00 00, the number of names, the names with number and length, and the root node; these bytes and no others are the writer's |
| `JsonbLayout.LaidTreeRead` | src/vitex/core.cpp:12645-12693 | every document of that layout is read, whatever bytes follow |
| `JsonbLayout.HeaderExactly` | src/vitex/core.cpp:12648-12658 | a document is refused for its version exactly when its first eight bytes are not these, and for its dictionary exactly when the count behind them is cut |
| `JsonbLayout.MissingFields` | src/vitex/core.cpp:12715-12839 | the error of a cut node says which of its fields is missing |
| `JsonbLayout.TruncatedRefused` | src/vitex/core.cpp:12645-12693 | a written document cut anywhere before its end is refused |
| `JsonbLayout.RawEntriesRead` | src/vitex/core.cpp:12660-12686 | any dictionary, numbers twice and empty names included, is read entry by entry |
| `JsonbLayout.FirstNameCounts` | src/vitex/core.cpp:12676-12685 | of several names with one number the first that is not empty counts |
| `JsonbLayout.NumberedByFirstUse` | src/vitex/core.cpp:13055-13069 | the dictionary holds the keys of the tree, each numbered by how many others came before its first use, parents before children |
| `JsonbReader.Reader.ReadOne` | src/vitex/core.cpp:12715-12839 | the offset-advancing reader of one node refines the reading function, errors included |
| `JsonbReader.Reader.Run` | src/vitex/core.cpp:12645-12714 | the whole reader refines the reading function, errors included |
| `Md5.FoldMore` | src/vitex/compute.cpp:2603-2627 | bytes that come later fold on from the bytes left over |
| `Md5.PaddedLength` | src/vitex/compute.cpp:2632-2651 | padding of sections 3.1 and 3.2 of RFC 1321 makes whole 64-byte blocks |
| `Md5Transform.PaddedIs` | src/vitex/compute.cpp:2632-2646 | the padded message byte by byte: the message, 0x80, zeros, and byte j of the bit count as its quotient by 256^j modulo 256 |
| `Md5Transform.WordOrder` | src/vitex/compute.cpp:2522-2588 | the message words of the four rounds: k, 5k+1, 3k+5 and 7k modulo 16 |
| `Md5Transform.MixBits` | src/vitex/compute.cpp:2692-2707 | F, G, H and I bit by bit: a choice by x, a choice by z, the parity, y against x or not z |
| `Md5Transform.WordIs` | src/vitex/compute.cpp:2498-2504 | a word is its four bytes in base 256, least significant first |
| `Md5Transform.EncodedAre` | src/vitex/compute.cpp:2505-2516 | byte 4k+j of the digest is register k divided by 256^j, modulo 256 |
| `Md5Transform.TransformUndone` | src/vitex/compute.cpp:2517-2598 | the transform minus the incoming registers is undone operation by operation back to them, for all registers and blocks |
| `Md5Empty.EmptyDigest` | src/vitex/compute.cpp:2485-2651 | the digest of the empty message is d41d8cd98f00b204e9800998ecf8427e |
| `Md5.GuardStopsExactlyWhen` | src/vitex/compute.cpp:2613-2621 | the 32-bit loop guard stops at the last block if and only if the next block start fits 32 bits |
| `Md5.LoopEndsExactlyWhen` | src/vitex/compute.cpp:2613-2621 | the block loop ends if and only if it stops there: on any other input it goes round for ever |
| `Md5.Hasher.Update` | src/vitex/compute.cpp:2603-2627 | after any updates the object is a function of the bytes fed, in order, also after `finalize`, from whose registers it then goes on; on every input from which the code returns |
| `Md5.Hasher.Finalize` | src/vitex/compute.cpp:2632-2651 | the digest is the transform folded over message, 0x80, zeros and 64-bit length, a multiple of 64 bytes; counts and buffer are cleared; a second call does nothing |
| `Md5.ShortAllAcceptable` | src/vitex/compute.cpp:2613-2621 | parts below 2^32 - 64 bytes are never ones that wrap the guard, in whatever order they come |
| `Md5.Hasher.UpdateString` | src/vitex/compute.cpp:2599-2602 | a string is fed as far as its length, cut to 32 bits, covers it |
| `Md5.HashParts` | src/vitex/compute.cpp:2599-2651 | however a message is cut into updates, the digest is that of the whole, for all parts from which the code returns; parts of 2^32 bytes and more count as far as their cut length covers them |
| `Rotation.BackwardUndoesForward` | src/vitex/compute.cpp:7212-7243 | rotating back undoes rotating forward, every buffer, seed and hash |
| `Rotation.ForwardUndoesBackward` | src/vitex/compute.cpp:7212-7243 | and the other way around |
| `Rotation.RotateBuffer` | src/vitex/compute.cpp:7212-7238 | in place, each byte moves modulo 256 by the hash of the rotated bytes before it and (seed + i + 1) modulo 2^64 modulo 254, taken modulo 254; backward by the same with the sign turned |
| `Base64.DecodeEncode` | src/vitex/compute.cpp:7245-7344 | decoding inverts encoding for every byte string, any alphabet, with and without padding |
| `Base64.Encode` | src/vitex/compute.cpp:7245-7294 | the row loop computes the encoding |
| `Base64Bits.EncodedSpells` | src/vitex/compute.cpp:7245-7294 | the text writes, in the alphabet, sextets that hold the bits of the bytes followed by less than one sextet of zero bits, and then only the padding that fills up four characters |
| `Base64Bits.EncodeBits` | src/vitex/compute.cpp:7245-7294 | the same of the method, with the length of the text in both modes |
| `Base64.Decode` | src/vitex/compute.cpp:7295-7344 | the row loop computes the decoding, stopping characters included |
| `Base64Bits.DecodedHolds` | src/vitex/compute.cpp:7295-7344 | on any text the bytes are the whole bytes of the sextets before the first stopping character |
| `Base64Bits.OffsetIs` | src/vitex/compute.cpp:37-48 | a character stands for its first place in the alphabet, or 63 if it is not there |
| `Base64Bits.AlphabetsAre` | src/vitex/compute.cpp:7526-7545 | the two alphabets, character by character |
| `Base64.BothAreAlphabets` | src/vitex/compute.cpp:7526-7551 | the standard and the URL alphabet of RFC 4648 are such alphabets, although a missing character reads as 63 |
| `Base32.PushedLow` | src/vitex/compute.cpp:7367-7438 | the low bits are right although the 64-bit accumulator wraps |
| `Base32.SymbolIs` | src/vitex/compute.cpp:7369-7369 | the alphabet, character by character |
| `Base32.QuintIs` | src/vitex/compute.cpp:7409-7426 | what each character is read as: both cases, the three look-alike digits, blanks, and where the text ends |
| `Base32.Encode` | src/vitex/compute.cpp:7367-7401 | the text is written in the alphabet of section 6 of RFC 4648 and holds the bits of the bytes followed by less than one quintet of zero bits |
| `Base32.Decode` | src/vitex/compute.cpp:7402-7438 | any text gives all whole bytes of the quintets it holds, spaces and hyphens passed over, up to the first unknown character |
| `Base32.EncodeThenDecode` | src/vitex/compute.cpp:7367-7438 | decoding inverts encoding for every byte string |
| `Base45.DecodeEncode` | src/vitex/compute.cpp:7439-7525 | decoding inverts encoding for every byte string |
| `Base45.SymbolIs` | src/vitex/compute.cpp:7442-7442 | the alphabet of section 4.2 of RFC 9285, character by character |
| `Base45.TableIs` | src/vitex/compute.cpp:7477-7495 | the decoding table: the alphabet, small letters, two brackets, and nothing else |
| `Base45.EncodedIs` | src/vitex/compute.cpp:7439-7473 | two bytes are three digits of base 45, least significant first, a last byte is two, and so the length |
| `Base45.DecodedIs` | src/vitex/compute.cpp:7501-7521 | three known digits are two bytes modulo 2^16, two at the end one byte modulo 2^8 |
| `Base45.DecodedAny` | src/vitex/compute.cpp:7501-7521 | what three characters give, known or not |
| `Base45.Encode` | src/vitex/compute.cpp:7439-7473 | the loop computes the encoding of section 4 of RFC 9285 |
| `Base45.Decode` | src/vitex/compute.cpp:7474-7525 | the loop computes the decoding, on text of any kind |
| `Base45.DecodedLength` | src/vitex/compute.cpp:7474-7525 | the length of the text alone decides the length of the bytes: the tests for unknown characters never hold on signed characters |
| `Base45.UnsignedSameExactlyWhen` | src/vitex/compute.cpp:7504-7516 | a build with unsigned characters gives a prefix, and the same bytes if and only if every character that is looked at is known |
| `Conditions.PrepareConditions` | src/vitex/compute.cpp:8402-8492 | the loop over directives, with a call for each nested group, computes the listing, errors included |
| `Conditions.EvaluateListing` | src/vitex/compute.cpp:8493-8515 | the pass over a listing, skipping chained conditionals after a taken one, computes the selected text |
| `ConditionTrees.ChainPrepared` | src/vitex/compute.cpp:8402-8492 | the directives of any group become the listing of its tree: positions, children, texts before, between and behind nested groups |
| `ConditionTrees.ChainEvaluated` | src/vitex/compute.cpp:8493-8515 | evaluating the listing of a tree emits the text of the first branch that holds, recursively |
| `ConditionTrees.ElseIsComplement` | src/vitex/compute.cpp:8468-8475 | an `else` that repeats the expression of its `if` selects exactly when the `if` does not |
| `ConditionTrees.Elaborated` | src/vitex/compute.cpp:8402-8515 | preparing and evaluating any group, anywhere in a buffer, under any truth of conditions, emits what the direct semantics selects |
| `ConditionStreams.StreamElaborated` | src/vitex/compute.cpp:8402-8515 | every group that counting openings and closings says is closed is a tree, and elaborating it emits that tree's meaning, at any depth |
| `ConditionStreams.StopsWhereClosed` | src/vitex/compute.cpp:8402-8492 | preparation ends where counting says the group closes, or at the end of the stream |
| `ConditionOpen.OpenElaborated` | src/vitex/compute.cpp:8402-8515 | a group left open, with groups left open in it: the first branch that holds is emitted, reaching to the end of the buffer if nothing is nested in it, without the text behind its last nested group otherwise |
| `ConditionOpen.UnclosedElaborated` | src/vitex/compute.cpp:8402-8515 | every group that counting says is never closed is such a tree and emits that meaning |
| `ConditionStreams.FailsExactlyWhen` | src/vitex/compute.cpp:8468-8484 | preparation fails if and only if the first directive is an `elif` or `else`; a missing `endif` is never an error |
| `Regions.CutKeeps` | src/vitex/core.cpp:708-726 | bytes cut off the free end overlap no live block |
| `Regions.TakenBackKeeps` | src/vitex/core.cpp:727-736 | taking back the block that ends at the free address keeps every other block |
| `Regions.ResetLeavesOne` | src/vitex/core.cpp:737-754 | a used allocator is left with one free region whose size is the sum of the old ones |
| `Regions.Flush` | src/vitex/core.cpp:789-806 | every region is given back once, bottom first |
| `Regions.ResetList` | src/vitex/core.cpp:737-754 | rewinding, summing and replacing give the specified regions, and which were released |
| `LinearAllocator.FreeExactlyWhen` | src/vitex/core.cpp:727-736 | freeing a live block keeps live blocks disjoint and inside if and only if it is not an empty block at the address of the latest allocation |
| `LinearAllocator.AllocateThenFree` | src/vitex/core.cpp:708-736 | the latest allocation freed at once leaves the regions as they were, one region more if it needed one |
| `LinearAllocator.RunSaneExactlyWhen` | src/vitex/core.cpp:699-815 | in every run, allocations of any size, live blocks stay disjoint and inside one region if and only if no such free occurs |
| `LinearAllocator.RunKeepsInv` | src/vitex/core.cpp:699-815 | so they do in every run of nonzero allocations, frees of live blocks and resets |
| `LinearAllocator.EmptyBlocksBreak` | src/vitex/core.cpp:708-736 | the failing runs, from every good state with room: freeing an empty block takes back live bytes and the next allocation overlaps them |
| `LinearAllocator.RunThenReset` | src/vitex/core.cpp:737-754 | after any run `reset` leaves one region with all the room there was |
| `LinearAllocator.Allocator.Allocate` | src/vitex/core.cpp:708-726 | at most one region is asked for, and the new state is the specified one |
| `LinearAllocator.Allocator.Free` | src/vitex/core.cpp:727-736 | the new state is the specified one |
| `LinearAllocator.Allocator.Reset` | src/vitex/core.cpp:737-754 | the new state is the specified one, and which regions were released |
| `StackAllocator.RunKeepsInv` | src/vitex/core.cpp:817-932 | in every run of allocations of any size, frees of live blocks, writes by their owners and resets, live blocks are disjoint, inside one region, and keep their size words |
| `StackAllocator.RestoredExactlyWhen` | src/vitex/core.cpp:826-853 | last-in-first-out use restores the regions and the free address if and only if its peak fits the bottom region |
| `StackAllocator.RunThenReset` | src/vitex/core.cpp:854-871 | after any run `reset` leaves one region with all the room there was |
| `StackAllocator.Allocator.Allocate` | src/vitex/core.cpp:826-845 | the new state, size word included, is the specified one |
| `StackAllocator.Allocator.Free` | src/vitex/core.cpp:846-853 | the new state is the specified one |
| `StackAllocator.Allocator.Reset` | src/vitex/core.cpp:854-871 | the new state is the specified one, and which regions were released |

## Left out

- OpenSSL, zlib, JSON and XML text, console, file system and network wrappers: foreign code or input and output.
- The regular expression engine, `cached_allocator`, and `uint128` text construction, byte counting and compact encoding: not modelled.
- `decimal` division, modulus and `round`: not modelled; the partial remainder can keep a leading zero while the comparison goes by digit counts.
- DecimalText.FromInteger: unsigned integers only; decimals made from negative integers and floating point numbers are left out.
- Decimal operators work on values here; only `unlead`, `untrail` and `truncate` are modelled in place. Lengths do not wrap at 2^31.
- Timers: task numbers do not wrap at 2^64, periods times 1000 do not overflow, clocks are nonnegative microseconds, and runs take enqueueing as allowed.
- Timers.Schedule.FireDue: the thread's waiting on its condition variable is left out; one round under the lock is one step.
- Coroutines.Costate.Dispatch: slices return and add no routines; stack switching is one atomic step.
- Wakeup.NoLostWakeup: one routine and one waker; other routines do not touch its fields.
- Tasks.Pool.Acquire: the shared queue is one sequence from which any task may be handed out; waiting for one is left out.
- JsonbRoundTrip.TreeRead: child counts and dictionary sizes fit 32 bits, the host is little-endian, only objects and arrays have children, and booleans are 0 or 1. The writer is a function of the tree, since it only emits bytes in order.
- Md5.HashParts: parts are those from which an update returns (Md5.LoopEndsExactlyWhen); on others the code goes round for ever, reading past its input.
- Md5.Hasher.Update: inputs from which the code never returns (Md5.LoopEndsExactlyWhen) and block sizes other than the default of 64 are left out.
- Base45.Decode: characters are signed, as on the usual compilers; Base45.UnsignedSameExactlyWhen says what other builds do.
- Scanning text for directives, macro expansion and includes are left out; Conditions starts from the directives found, and the truth of a condition is a parameter.
- LinearAllocator.Allocator.Allocate: the region list is a sequence of records; the `upper_address` and `lower_address` links are not modelled.
- StackAllocator.Allocator.Allocate: memory is what is written at word addresses; the region list is a sequence of records.
- `layer.h`, `bindings.h` and `vitex.cpp`: declarations and glue.
