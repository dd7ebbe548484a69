# Verification of the castle libraries, the NMEA parser and the GNSS and condition-variable demos

A Dafny 4.11 model of the parts of this repository that contain real algorithms, protocols and state machines, with
proofs of the properties they are meant to have. `dafny verify dfyconfig.toml` checks everything.

| file | what it models |
|---|---|
| `Algorithm.dfy`, `Searching.dfy`, `Compaction.dfy` | in-place heapsort, ordered searches, `remove_if` and `unique` over arrays |
| `Divisors.dfy`, `Duration.dfy`, `CommonPeriod.dfy` | gcd and lcm, exact durations over arbitrary positive rational periods, the coarsest common period |
| `NmeaProtocol.dfy`, `NmeaFraming.dfy`, `NmeaParser.dfy` | the NMEA 0183 framing state machine as a function, the events of a stream it is measured against, and the parser object that runs it |
| `GnssPipeline.dfy`, `CondVar.dfy` | interrupt, ring buffer and thread as a step system with its line framer; the one-condvar monitor with N consumers |
| `LatchPolicies.dfy`, `CountingPolicies.dfy`, `TimedPolicies.dfy` | `once`, `armed_window`, `every_n`, `throttle`, `periodic` under all interleavings |
| `TickTimer.dfy`, `RingBuffer.dfy` | the catch-up timer against its closed form, the circular buffer against a bounded queue |
| `BitTricks.dfy`, `BitReversal.dfy`, `PowersOfTwo.dfy` | population count and reversal on machine words; smearing and halving searches at any width |
| `SlotMaps.dfy`, `Registrations.dfy`, `Registries.dfy` | registrations and generation-counted tickets over whole runs, against a plain set; both registries and the subscription handle |
| `Sigslot.dfy`, `Connections.dfy` | the two-way links between signals and move-only connections, against plain variables |
| `Dispatcher.dfy` | `function` as an object-lifetime protocol, and the dispatcher's deferred self-replacement |
| `Options.dfy`, `Numbers.dfy` | a value that may be absent; shared facts about numbers |

Conventions. Objects the source updates in place are classes whose methods are specified by functions on plain values;
the laws are proved about those functions and about every run of them. Concurrent code is a step system whose steps are
the atomic operations, lock-guarded blocks and kernel calls of the source, interleaved freely; atomics are sequentially
consistent. 32-bit counters and generations wrap explicitly. Comparators and predicates are pure functions. C++ integer
division is written out as truncation toward zero.

Assumptions about code that is not part of this model. The parser's internal headers: a reset context waits for '$'
with an empty buffer and checksum zero, hexadecimal digits of either case are accepted, the tokenizer delivers the
buffer unchanged, and the buffer holds 256 bytes and a terminator. The kernel's mutex, condition variable, semaphore and
ring buffer behave as documented, with spurious wake-ups allowed. Clock readings are parameters.

Where the code departs from what one would expect of it:

- `tick_timer::resume` re-arms a timer that has completed, and nothing else lets it exceed its limit
  (`ExceedsLimitIffResumed`). When the 32-bit tick counter wraps a periodic timer loses fires, and a limited one does
  unless what is left still exhausts it (`PeriodicKeepsStepIff`, `RunFiresInFullIff`).
- Concurrent `every_n` of version 2.0 loses the calls that fall between its increment and its store of zero: exactly
  when some store finds the counter off a multiple of N (`NothingLostIff`), and then a later fire is missing
  (`LossIsFelt`, with an input in `CountsCanBeLost`). The 1.0 counter, which `execute` never clears, stays exact for
  ever iff N divides the size of its type (`WrapIsHarmlessIffDividing`).
- Re-arming an `armed_window` during an `execute()` can fire on a late reading, exactly when a caller holds an early
  reading at or past the new deadline, and can be lost to an early expiry, exactly when a caller holds a late reading
  before it (`RearmIsSafeIff`, with inputs in `OverlappingRearmFiresLate` and `OverlappingRearmExpiresEarly`); the
  source asks callers to prevent both.
- Registry tickets are unique only below 2^32 deactivations of a slot (`HonouredIff`, `WrapRepeatsTicket`).
- Invocation order is registration order until a subscribe fills a slot that has a used one after it, which is not the
  same as reusing a slot (`OrderOfRegistration`, with an input in `ReuseBreaksOrder`).
- `periodic` with a period of zero or less loops for ever once the deadline is reached (`PollEndsIff`).
- A running callback that passes its own wrapper to `replace` as the new value destroys itself
  (`RunningIsDestroyedIff`).
- `next_power_of_two` returns zero above half the range (`NextPowerOfTwo`).

## Model

| member | source | states |
|---|---|---|
| `Algorithm.HeapSiftDown` | test_features/linking_lib_castle_2.0/include/castle/algorithm/algorithm.hpp:100-124 | for every strict weak order, restores the heap at `start` when everything below it is one, only rearranges positions from `start` to `count`, and compares at most twice per level |
| `Algorithm.RootIsGreatest` | test_features/linking_lib_castle_2.0/include/castle/algorithm/algorithm.hpp:1131-1140 | the root of a heap precedes none of its elements, so each extracted element is a greatest one |
| `Algorithm.ExtractTail` | test_features/linking_lib_castle_2.0/include/castle/algorithm/algorithm.hpp:1136-1139 | swapping the root behind the heap puts one more element in final position |
| `Algorithm.TailSurvives` | test_features/linking_lib_castle_2.0/include/castle/algorithm/algorithm.hpp:1139-1139 | sifting the shortened heap disturbs neither the sorted tail nor the multiset |
| `Algorithm.LevelSumIsLinear` | test_features/linking_lib_castle_2.0/include/castle/algorithm/algorithm.hpp:1127-1130 | all sifts of the build phase together descend at most N levels, so building the heap is linear |
| `Algorithm.Sort` | test_features/linking_lib_castle_2.0/include/castle/algorithm/algorithm.hpp:1112-1141 | for every range and strict weak order: no later element precedes an earlier one, same multiset, and at most 2 * N * (log2 N + 1) comparisons in the worst case |
| `Searching.SortedIsPartitioned` | test_features/linking_lib_castle_2.0/include/castle/algorithm/algorithm.hpp:1173-1203 | a sorted range is partitioned around every value, which is all the binary searches need |
| `Searching.Find` | test_features/linking_lib_castle_2.0/include/castle/algorithm/algorithm.hpp:138-150 | the first position equal to the value, or the end |
| `Searching.LowerBound` | test_features/linking_lib_castle_2.0/include/castle/algorithm/algorithm.hpp:1173-1203 | the exact partition point: everything before precedes the value, nothing from it on does |
| `Searching.UpperBound` | test_features/linking_lib_castle_2.0/include/castle/algorithm/algorithm.hpp:1236-1266 | the exact partition point: nothing before it is preceded by the value, everything from it on is |
| `Searching.BinarySearch` | test_features/linking_lib_castle_2.0/include/castle/algorithm/algorithm.hpp:1299-1309 | on any range partitioned around the value, true exactly when some element is equivalent to it |
| `Searching.Count` | test_features/linking_lib_castle_2.0/include/castle/algorithm/algorithm.hpp:228-246 | the multiplicity of the value |
| `Searching.BlockOccurrences` | test_features/linking_lib_castle_2.0/include/castle/algorithm/algorithm.hpp:1173-1266 | between the two bounds of a totally ordered range lie exactly the occurrences of the value |
| `Searching.OrderedQueriesAgree` | test_features/linking_lib_castle_2.0/include/castle/algorithm/algorithm.hpp:138-1309 | after sorting under a total order: upper minus lower bound is the count, binary search agrees with linear find, and find returns the lower bound |
| `Compaction.KeptIsStableFilter` | test_features/linking_lib_castle_2.0/include/castle/algorithm/algorithm.hpp:997-1024 | what `remove_if` must leave is the input read at exactly the surviving positions in increasing order |
| `Compaction.FindIf` | test_features/linking_lib_castle_2.0/include/castle/algorithm/algorithm.hpp:168-182 | the first position satisfying the predicate, or the end |
| `Compaction.RemoveIf` | test_features/linking_lib_castle_2.0/include/castle/algorithm/algorithm.hpp:997-1024 | the range before the returned end is the stable filter of the input |
| `Compaction.Unique` | test_features/linking_lib_castle_2.0/include/castle/algorithm/algorithm.hpp:1037-1062 | for any predicate, the range before the returned end drops each element equivalent to the last one kept |
| `Compaction.DedupedReadsKept` | test_features/linking_lib_castle_2.0/include/castle/algorithm/algorithm.hpp:1037-1062 | for any binary predicate what `unique` must leave is the input read at the first position and, after each position kept, at the next one not equivalent to it |
| `Compaction.SortedDedupedIncreases` | test_features/linking_lib_castle_2.0/include/castle/algorithm/algorithm.hpp:1037-1062 | on a sorted range under a total order, `unique` yields a strictly increasing list of the same values |
| `Compaction.IncreasingListIsUnique` | test_features/linking_lib_castle_2.0/include/castle/algorithm/algorithm.hpp:1037-1062 | there is only one such list, so sort followed by unique is determined by the set of values |
| `Divisors.TruncLaws` | test_features/linking_lib_castle_2.0/include/castle/chrono/duration.hpp:426-433 | C++ integer division: truncates toward zero, remainder has the sign of the dividend |
| `Divisors.GcdIsGcd` | test_features/linking_lib_castle_1.0/include/castle/math/gcd.h:37-43 | the Euclidean recursion yields a common divisor that every common divisor divides |
| `Divisors.GcdIsUnique` | test_features/linking_lib_castle_1.0/include/castle/math/gcd.h:37-43 | there is only one such number, so the divisibility law determines the result |
| `Divisors.RuntimeGcd` | test_features/linking_lib_castle_1.0/include/castle/math/gcd.h:25-44 | the loop, with truncated remainder and signs, returns the greatest common divisor of the absolute values |
| `Divisors.StaticGcdAgrees` | test_features/linking_lib_castle_1.0/include/castle/math/gcd.h:14-22 | the compile-time recursion, which only takes the sign off at the end, gives the same value for all signs |
| `Divisors.VariadicGcdIsGcd` | test_features/linking_lib_castle_1.0/include/castle/math/gcd.h:46-58 | the variadic form, with its early exit at one, gives the greatest common divisor of all arguments |
| `Divisors.LcmIsLcm` | test_features/linking_lib_castle_1.0/include/castle/math/lcm.h:33-38 | divide-then-multiply is a common multiple that divides every common multiple, and lcm * gcd is the product |
| `Divisors.RuntimeLcm` | test_features/linking_lib_castle_1.0/include/castle/math/lcm.h:20-39 | the runtime function for all signs and zero |
| `Duration.CommonRefines` | test_features/linking_lib_castle_2.0/include/castle/chrono/duration.hpp:446-457 | gcd of the numerators over lcm of the denominators is a valid period of which both periods are whole multiples |
| `CommonPeriod.CommonIsGcdOverLcm` | test_features/linking_lib_castle_2.0/include/castle/chrono/duration.hpp:446-457 | its numerator is the greatest common divisor of the numerators, its denominator the least common multiple of the denominators |
| `CommonPeriod.CommonIsCoarsest` | test_features/linking_lib_castle_2.0/include/castle/chrono/duration.hpp:446-457 | for periods in lowest terms it is the coarsest: every period that both are whole multiples of divides it |
| `CommonPeriod.CommonIsReduced` | test_features/linking_lib_castle_2.0/include/castle/chrono/duration.hpp:446-457 | it is then in lowest terms itself, so reducing it changes nothing |
| `CommonPeriod.ReducedIsSame` | test_features/linking_lib_castle_2.0/include/castle/math/ratio.hpp:47-76 | the ratio type divides the greatest common divisor out: lowest terms, same length of a tick, nothing changed when already in lowest terms |
| `CommonPeriod.UnreducedIsNotCoarsest` | test_features/linking_lib_castle_2.0/include/castle/math/ratio.hpp:47-76 | an input that shows why periods are reduced: 2/2 and 3/3 left as they are |
| `Duration.CommonExact` | test_features/linking_lib_castle_2.0/include/castle/chrono/duration.hpp:418-457 | casting to the common period loses nothing, for any positive periods and any counts |
| `Duration.ComparisonsAreExact` | test_features/linking_lib_castle_2.0/include/castle/chrono/duration.hpp:708-758 | `==` and `<` decide the true order of the rational instants |
| `Duration.ArithmeticIsExact` | test_features/linking_lib_castle_2.0/include/castle/chrono/duration.hpp:528-562 | sum and difference have exactly the sum and difference of the lengths |
| `Duration.QuotientLaw` | test_features/linking_lib_castle_2.0/include/castle/chrono/duration.hpp:640-695 | quotient and remainder of two durations recompose, with truncation toward zero |
| `Duration.CastTruncates` | test_features/linking_lib_castle_2.0/include/castle/chrono/duration.hpp:418-433 | a cast is the target tick count truncated toward zero: within one tick, never further from zero |
| `Duration.FloorIsGreatest` | test_features/linking_lib_castle_2.0/include/castle/chrono/duration.hpp:826-833 | the greatest target tick not above the value, negative counts included |
| `Duration.CeilIsLeast` | test_features/linking_lib_castle_2.0/include/castle/chrono/duration.hpp:844-851 | the least target tick not below the value |
| `Duration.RoundIsNearest` | test_features/linking_lib_castle_2.0/include/castle/chrono/duration.hpp:862-882 | no target tick is nearer, and at a tie the even one is taken |
| `NmeaProtocol.ChunkingIsInvisible` | test_features/linking_cpp_libs/lib/nmea_parser/src/nmea_parser.cpp:62-72 | splitting the bytes across `feed` calls never changes the outcome |
| `NmeaProtocol.ChecksummedSentence` | test_features/linking_cpp_libs/lib/nmea_parser/src/nmea_parser.cpp:93-237 | a sentence with a checksum field is dispatched iff its digits are hexadecimal and spell the XOR of the body; otherwise discarded |
| `NmeaProtocol.BareSentence` | test_features/linking_cpp_libs/lib/nmea_parser/src/nmea_parser.cpp:131-145 | a sentence without a checksum field is always dispatched, marked unchecked |
| `NmeaProtocol.RoundTrip` | test_features/linking_cpp_libs/lib/nmea_parser/src/nmea_parser.cpp:93-237 | from every state but the two checksum-digit ones, any chunking of a printed body of at most 256 clean bytes dispatches exactly it once, valid, decoded + 1, back to waiting |
| `NmeaProtocol.TooLongIsDiscarded` | test_features/linking_cpp_libs/lib/nmea_parser/src/nmea_parser.cpp:146-152 | a longer body is reported as too long, once, and never dispatched |
| `NmeaProtocol.SingleByteCorruptionIsCaught` | test_features/linking_cpp_libs/lib/nmea_parser/src/nmea_parser.cpp:93-237 | in any correctly checksummed sentence, however its digits are written, replacing one body byte by another non-delimiter byte ends in a checksum discard |
| `NmeaProtocol.PrintedCorruptionIsCaught` | test_features/linking_cpp_libs/lib/nmea_parser/src/nmea_parser.cpp:93-237 | in particular in a sentence as the printer writes it |
| `NmeaProtocol.SentencesAreConserved` | test_features/linking_cpp_libs/lib/nmea_parser/src/nmea_parser.cpp:76-237 | over every byte stream: sentences opened = decoded + discarded + in progress |
| `NmeaProtocol.StatisticsMatchEvents` | test_features/linking_cpp_libs/lib/nmea_parser/src/nmea_parser.cpp:50-51 | the two counters count exactly the events reported |
| `NmeaProtocol.DispatchesAreFramed` | test_features/linking_cpp_libs/lib/nmea_parser/src/nmea_parser.cpp:93-237 | over every byte stream, whatever is dispatched stands in the stream between a '$' and a line feed, with a matching checksum if it has one |
| `NmeaFraming.OpeningIff` | test_features/linking_cpp_libs/lib/nmea_parser/src/nmea_parser.cpp:93-176 | a '$' opens a sentence iff the stream before it does not make it a checksum digit of an earlier one |
| `NmeaFraming.DispatchesAreTheSentences` | test_features/linking_cpp_libs/lib/nmea_parser/src/nmea_parser.cpp:93-237 | over every byte stream the dispatched events are exactly the sentences of the stream in order, defined without the machine: none missed, invented or repeated |
| `NmeaFraming.FailureIsReported` | test_features/linking_cpp_libs/lib/nmea_parser/src/nmea_parser.cpp:76-237 | a '$' inside a sentence is reported as an unexpected start, the 257th body byte as too long, digits that are not hexadecimal or spell another sum as a checksum mismatch |
| `NmeaFraming.EventsAreExpected` | test_features/linking_cpp_libs/lib/nmea_parser/src/nmea_parser.cpp:76-237 | over every byte stream the reported events, sentences and failures with their reasons alike, are exactly the ones the stream itself calls for, in order |
| `NmeaParsing.NmeaParser.ProcessByte` | test_features/linking_cpp_libs/lib/nmea_parser/src/nmea_parser.cpp:93-204 | the object's update of buffer, checksum, state and counters is one step of the protocol machine |
| `NmeaParsing.NmeaParser.CompleteSentence` | test_features/linking_cpp_libs/lib/nmea_parser/src/nmea_parser.cpp:206-237 | checks the checksum, then reports or discards, and clears the context |
| `NmeaParsing.NmeaParser.DiscardSentence` | test_features/linking_cpp_libs/lib/nmea_parser/src/nmea_parser.cpp:76-89 | counts the discard, reports it with its reason, and clears the context |
| `NmeaParsing.NmeaParser.Reset` | test_features/linking_cpp_libs/lib/nmea_parser/src/nmea_parser.cpp:53-58 | forgets the sentence in progress and both counters |
| `NmeaParsing.NmeaParser.Feed` | test_features/linking_cpp_libs/lib/nmea_parser/src/nmea_parser.cpp:62-72 | a chunk runs the protocol over its bytes |
| `NmeaParsing.PrintSentence` | test_features/linking_cpp_libs/src/main.cpp:33-46 | the printer: '$', body, '*', two upper-case digits of the XOR, CR LF |
| `GnssFraming.LineFramer.Process` | test_drivers/rpi_pico_ublox_gnss/src/main.c:65-85 | one byte through the fixed line buffer is one framing step |
| `GnssFraming.OpenLine` | test_drivers/rpi_pico_ublox_gnss/src/main.c:65-85 | the collected line is the open part of the stream since its '$', cut at 255 bytes |
| `GnssFraming.FramerLogsExpectedLines` | test_drivers/rpi_pico_ublox_gnss/src/main.c:65-85 | over every stream the logged lines are exactly those closed by a line feed, in order |
| `GnssFraming.LoggedLinesAreWellFormed` | test_drivers/rpi_pico_ublox_gnss/src/main.c:65-85 | each logged line starts with '$', has no other '$' or line feed, and at most 255 bytes |
| `GnssPipeline.ExecutionKeepsInv` | test_drivers/rpi_pico_ublox_gnss/src/main.c:21-88 | in every interleaving of interrupt and thread, ring, semaphore, framer and counter stay consistent |
| `GnssPipeline.ReceiveTakesWhatFits` | test_drivers/rpi_pico_ublox_gnss/src/main.c:35-40 | a burst is taken whole, or up to a full ring |
| `GnssPipeline.NothingDroppedIff` | test_drivers/rpi_pico_ublox_gnss/src/main.c:35-40 | over every interleaving: all bytes offered have been accepted iff every burst found room for itself |
| `GnssPipeline.EveryLineIsLogged` | test_drivers/rpi_pico_ublox_gnss/src/main.c:21-88 | at rest after bursts that all fitted, the log is exactly the lines of what the hardware delivered |
| `GnssPipeline.NoByteIsStranded` | test_drivers/rpi_pico_ublox_gnss/src/main.c:35-87 | whenever the thread blocks at semaphore zero with the interrupt idle, the ring is empty and every line of the accepted stream is logged |
| `GnssPipeline.LogFollowsAcceptedStream` | test_drivers/rpi_pico_ublox_gnss/src/main.c:60-87 | in every state the log is a function of the consumed prefix of the accepted bytes |
| `GnssPipeline.ByteCounterIsExact` | test_drivers/rpi_pico_ublox_gnss_dma/src/main.c:68-85 | the DMA counter is exactly the bytes accepted modulo 2^32; the interrupt-driven one the bytes read |
| `GnssPipeline.ThreadSettles` | test_drivers/rpi_pico_ublox_gnss/src/main.c:58-88 | left alone, the thread drains everything and blocks again |
| `CondVar.ItemsAreConserved` | test_features/kernel_cond_vars/src/main.c:17-60 | in every reachable state consumed + count = 10 * batches, mutual exclusion holds, and a refill happens only at count zero |
| `CondVar.NoDeadlock` | test_features/kernel_cond_vars/src/main.c:17-60 | with any number of consumers and spurious wake-ups, every reachable state has a thread able to step |
| `CondVar.AnotherItemCanBeTaken` | test_features/kernel_cond_vars/src/main.c:17-60 | from every state of the invariant some schedule without spurious wake-ups consumes one more item |
| `CondVar.ItemsKeepBeingTaken` | test_features/kernel_cond_vars/src/main.c:17-60 | and every schedule does, fair or not: more than n * (9 + 2n) steps, and three more per spurious wake-up, always take an item |
| `OncePolicy.OncePerArming` | test_features/linking_lib_castle_2.0/include/castle/callbacks/exec_policy.hpp:347-376 | in every interleaving no arming runs the callback twice, and once all have returned exactly the armings in which some step called execute have run it |
| `OncePolicy.FiredIsAbsorbing` | test_features/linking_lib_castle_2.0/include/castle/callbacks/exec_policy.hpp:347-358 | over every run without reset a fired latch stays fired, and only callers already through run the callback |
| `OncePolicy.ExecuteRuns` | test_features/linking_lib_castle_2.0/include/castle/callbacks/exec_policy.hpp:347-358 | a caller that finds the latch open gets to run the callback, whatever the others are doing |
| `ArmedWindowPolicy.FirstAttemptDecides` | test_features/linking_lib_castle_2.0/include/castle/callbacks/exec_policy.hpp:468-534 | in every interleaving the first attempt to settle an arming decides it: expired for exactly the late ones, and once all have returned the callback has run for exactly the early ones, on that caller's reading |
| `ArmedWindowPolicy.ExecuteAlone` | test_features/linking_lib_castle_2.0/include/castle/callbacks/exec_policy.hpp:468-492 | an execute that nobody interrupts fires before the deadline, lets the window expire from it on, and does nothing when it is not armed |
| `ArmedWindowPolicy.FiresOnceAndInTime` | test_features/linking_lib_castle_2.0/include/castle/callbacks/exec_policy.hpp:468-525 | in every interleaving in which no re-arming finds a stale early reading, re-arming from a running callback included: at most one fire per arming, each admitted on a reading strictly before that arming's deadline |
| `ArmedWindowPolicy.ArmingsAreSettledOnce` | test_features/linking_lib_castle_2.0/include/castle/callbacks/exec_policy.hpp:468-534 | in every interleaving, with re-arming at any moment: no arming fires twice, expires twice, or does both |
| `ArmedWindowPolicy.ExpiresOnceAndNotEarly` | test_features/linking_lib_castle_2.0/include/castle/callbacks/exec_policy.hpp:477-481 | under the mirrored condition no execute() lets an arming expire before its own deadline |
| `ArmedWindowPolicy.DisarmedIsAbsorbing` | test_features/linking_lib_castle_2.0/include/castle/callbacks/exec_policy.hpp:468-534 | fired and expired are left only by re-arming |
| `ArmedWindowPolicy.RearmIsSafeIff` | test_features/linking_lib_castle_2.0/include/castle/callbacks/exec_policy.hpp:507-525 | a re-arming can never lead to a late fire iff no caller holds an early clock reading at or past the new deadline, and never to an early expiry iff none holds a late reading before it |
| `ArmedWindowPolicy.StaleReadingFiresLate` | test_features/linking_lib_castle_2.0/include/castle/callbacks/exec_policy.hpp:477-491 | otherwise that caller claims the new arming and fires late |
| `ArmedWindowPolicy.PrematureReadingExpiresEarly` | test_features/linking_lib_castle_2.0/include/castle/callbacks/exec_policy.hpp:477-481 | a caller with a late reading before the new deadline lets the new arming expire early |
| `ArmedWindowPolicy.OverlappingRearmFiresLate` | test_features/linking_lib_castle_2.0/include/castle/callbacks/exec_policy.hpp:514-525 | such a state is reached: a concrete schedule with a late fire |
| `ArmedWindowPolicy.OverlappingRearmExpiresEarly` | test_features/linking_lib_castle_2.0/include/castle/callbacks/exec_policy.hpp:514-525 | the other one too: a concrete schedule in which a re-armed window expires at once |
| `EveryNPolicy.CallsAreAccountedFor` | test_features/linking_lib_castle_2.0/include/castle/callbacks/exec_policy.hpp:636-648 | in every interleaving N * fires + counter mod N + lost = calls, so N * fires + counter mod N <= calls |
| `EveryNPolicy.NothingLostIff` | test_features/linking_lib_castle_2.0/include/castle/callbacks/exec_policy.hpp:636-666 | N * fires + counter mod N = calls iff every store of zero in the schedule finds the counter on a multiple of N; then fires = floor(calls / N) |
| `EveryNPolicy.UndisturbedLosesNothing` | test_features/linking_lib_castle_2.0/include/castle/callbacks/exec_policy.hpp:636-648 | which holds whenever nobody counts between a winner's increment and its store |
| `EveryNPolicy.CallbackRunsInFull` | test_features/linking_lib_castle_2.0/include/castle/callbacks/exec_policy.hpp:636-648 | calls and fires are counted in real steps: with everyone returned and no count wiped out the callback has run floor(calls / N) times |
| `EveryNPolicy.LossIsFelt` | test_features/linking_lib_castle_2.0/include/castle/callbacks/exec_policy.hpp:636-648 | otherwise letting everyone return and one caller count on, without overlap, ends with fires < floor(calls / N) |
| `EveryNPolicy.CountsCanBeLost` | test_features/linking_lib_castle_2.0/include/castle/callbacks/exec_policy.hpp:639-646 | a run of four calls with N = 2 that fires once |
| `EveryNPolicy.SingleThread20.Execute` | test_features/linking_lib_castle_2.0/include/castle/callbacks/exec_policy.hpp:636-648 | single-threaded: fires exactly when the calls since reset reach a multiple of N |
| `EveryNPolicy.SingleThread10.Execute` | test_features/linking_lib_castle_1.0/include/castle/callbacks/callback_policy.h:485-494 | the same for the counter that is compared and cleared |
| `EveryNPolicy.Concurrent10.Execute` | test_features/linking_lib_castle_1.0/include/castle/callbacks/callback_policy.h:525-534 | the same for the counter that `execute` never clears, on its wrapped value |
| `EveryNPolicy.WrapIsHarmlessIffDividing` | test_features/linking_lib_castle_1.0/include/castle/callbacks/callback_policy.h:525-534 | the wrapping counter fires floor(calls / N) times for ever iff N divides the size of the counter type |
| `TimedPolicies.Throttle.Execute` | test_features/linking_lib_castle_2.0/include/castle/callbacks/exec_policy.hpp:910-929 | fires iff nothing was recorded or the reading is an interval past the last record |
| `TimedPolicies.DriveThrottle` | test_features/linking_lib_castle_2.0/include/castle/callbacks/exec_policy.hpp:910-929 | the object records exactly the readings of the run function the laws are about |
| `TimedPolicies.ThrottleKeepsInterval` | test_features/linking_lib_castle_2.0/include/castle/callbacks/exec_policy.hpp:910-929 | over any order of stale readings, recorded fires are at least the interval apart |
| `TimedPolicies.ThrottleDropsOnlyWithinInterval` | test_features/linking_lib_castle_2.0/include/castle/callbacks/exec_policy.hpp:910-929 | every reading, fired or not, comes within the interval of some recorded fire |
| `TimedPolicies.Periodic.Poll` | test_features/linking_lib_castle_2.0/include/castle/callbacks/exec_policy.hpp:1037-1058 | afterwards fires = floor((now - start) / period), or unchanged on an older reading |
| `TimedPolicies.PollEndsIff` | test_features/linking_lib_castle_2.0/include/castle/callbacks/exec_policy.hpp:1048-1052 | the catch-up loop ends iff the period is positive or the deadline has not been reached |
| `TimedPolicies.DrivePeriodic` | test_features/linking_lib_castle_2.0/include/castle/callbacks/exec_policy.hpp:1037-1058 | the object counts exactly the fires of the run function |
| `TimedPolicies.PollingDoesNotDrift` | test_features/linking_lib_castle_2.0/include/castle/callbacks/exec_policy.hpp:1037-1058 | any spacing of polls gives exactly the whole periods elapsed |
| `TickTimers.TickTimer.SetPeriod` | test_features/linking_lib_castle_1.0/include/castle/events/tick_timer.h:92-100 | rejects zero, otherwise stores the period |
| `TickTimers.TickTimer.Start` | test_features/linking_lib_castle_1.0/include/castle/events/tick_timer.h:135-154 | error cases and the freshly armed state |
| `TickTimers.TickTimer.Stop` | test_features/linking_lib_castle_1.0/include/castle/events/tick_timer.h:161-167 | idle, with counter and remaining repeats cleared |
| `TickTimers.TickTimer.Pause` | test_features/linking_lib_castle_1.0/include/castle/events/tick_timer.h:173-176 | stops ticking, keeps the counter |
| `TickTimers.TickTimer.Resume` | test_features/linking_lib_castle_1.0/include/castle/events/tick_timer.h:181-189 | runs again whenever a period is configured |
| `TickTimers.TickTimer.OnTick` | test_features/linking_lib_castle_1.0/include/castle/events/tick_timer.h:213-259 | the catch-up loop equals the closed form: accumulated / period fires, capped by the remaining repeats or one shot |
| `TickTimers.TickTimer.Reset` | test_features/linking_lib_castle_1.0/include/castle/events/tick_timer.h:194-197 | clears the tick counter and nothing else |
| `TickTimers.CatchUpIsExact` | test_features/linking_lib_castle_1.0/include/castle/events/tick_timer.h:213-259 | over runs of any length and in every mode: fires and final timer are the closed form of all ticks, less 2^32 for every call that overflows the counter |
| `TickTimers.NoDriftWithoutWrap` | test_features/linking_lib_castle_1.0/include/castle/events/tick_timer.h:202-259 | as long as no single call overflows the counter, whatever the total: the closed form of the total |
| `TickTimers.BatchingIsInvisible` | test_features/linking_lib_castle_1.0/include/castle/events/tick_timer.h:213-259 | any two splits of the same total in which no call overflows give the same fires and final timer |
| `TickTimers.OneCallDoesAsWell` | test_features/linking_lib_castle_1.0/include/castle/events/tick_timer.h:213-259 | and so does one call with the total, when that fits the counter |
| `TickTimers.PeriodicKeepsStepIff` | test_features/linking_lib_castle_1.0/include/castle/events/tick_timer.h:202-226 | over any run a periodic timer fires once per elapsed period iff no call overflows the counter, and never more often |
| `TickTimers.RunFiresInFullIff` | test_features/linking_lib_castle_1.0/include/castle/events/tick_timer.h:213-259 | over any run and in every mode the timer fires in full iff no call overflows the counter or the ticks left still exhaust a limited timer |
| `TickTimers.FiresInFullIff` | test_features/linking_lib_castle_1.0/include/castle/events/tick_timer.h:213-259 | the same for one call: iff the counter does not wrap or the wrapped rest still exhausts a limited timer |
| `TickTimers.PeriodicFiresIffNoOverflow` | test_features/linking_lib_castle_1.0/include/castle/events/tick_timer.h:220-226 | one call fires a periodic timer (counter + elapsed) / period times iff the 32-bit counter does not wrap |
| `TickTimers.DriveTimer` | test_features/linking_lib_castle_1.0/include/castle/events/tick_timer.h:92-259 | the object carries out any commands as the histories the limits are proved about |
| `TickTimers.DriveStarted` | test_features/linking_lib_castle_1.0/include/castle/events/tick_timer.h:135-259 | started with a limit and driven by any commands, the object calls its callbacks at most that often, plus once for every resume of a spent timer |
| `TickTimers.FiresAreLimited` | test_features/linking_lib_castle_1.0/include/castle/events/tick_timer.h:228-252 | over any commands after a start, a one-shot fires at most once and an n-repeat at most n times, plus once for every resume of a spent timer |
| `TickTimers.ResumeRearmsSpentTimer` | test_features/linking_lib_castle_1.0/include/castle/events/tick_timer.h:181-189 | resume re-arms a completed one-shot or n-repeat timer, which then fires again |
| `TickTimers.ExceedsLimitIffResumed` | test_features/linking_lib_castle_1.0/include/castle/events/tick_timer.h:135-259 | after any commands a spent limited timer can fire beyond its limit iff resume may be used |
| `PopulationCount.PopcountIsOnes` | test_features/linking_lib_castle_2.0/include/castle/bit/bit_count.hpp:38-45 | the branch-free reduction counts the set bits of every 64-bit value |
| `PopulationCount.Popcount` | test_features/linking_lib_castle_2.0/include/castle/bit/bit_count.hpp:38-45 | the staged computation returns the number of set bits |
| `BitReversal.ReverseMirrorsBits` | test_features/linking_lib_castle_2.0/include/castle/bit/bit_reverse.hpp:36-87 | at 8, 16, 32 and 64 bits, bit i goes to bit W-1-i |
| `BitReversal.ReverseIsInvolution` | test_features/linking_lib_castle_2.0/include/castle/bit/bit_reverse.hpp:36-87 | reversing twice is the identity at every width |
| `BitReversal.ReverseKeepsOnes` | test_features/linking_lib_castle_2.0/include/castle/bit/bit_reverse.hpp:36-87 | reversal preserves the number of set bits at every width |
| `BitReversal.PopcountOfReverse` | test_features/linking_lib_castle_2.0/include/castle/bit/bit_count.hpp:38-61 | `popcount` of a value and of its reversal agree at every width |
| `BitReversal.ByteSwapReversesBytes` | test_features/linking_lib_castle_2.0/include/castle/bit/bit_reverse.hpp:111-151 | `byte_swap` reverses the order of the bytes at 16, 32 and 64 bits |
| `BitReversal.ByteSwapIsInvolution` | test_features/linking_lib_castle_2.0/include/castle/bit/bit_reverse.hpp:111-151 | swapping twice is the identity |
| `BitReversal.ReverseIsByteSwapThenEachByte` | test_features/linking_lib_castle_2.0/include/castle/bit/bit_reverse.hpp:36-151 | reversal is byte swap composed with reversal inside each byte, at 16, 32 and 64 bits |
| `PowersOfTwo.Smear` | test_features/linking_lib_castle_2.0/include/castle/bit/bit_math.hpp:130-133 | for any width, the smearing loop fills every bit below the highest one |
| `PowersOfTwo.NextPowerOfTwo` | test_features/linking_lib_castle_2.0/include/castle/bit/bit_math.hpp:116-136 | the least power of two not below v when v <= 2^(W-1) (1 for 0); zero for every larger v |
| `PowersOfTwo.PreviousPowerOfTwo` | test_features/linking_lib_castle_2.0/include/castle/bit/bit_math.hpp:176-195 | 2^floor(log2 v), 0 for 0 |
| `PowersOfTwo.GreatestPower` | test_features/linking_lib_castle_2.0/include/castle/bit/bit_math.hpp:176-195 | that is the greatest power of two not above v |
| `PowersOfTwo.IsPowerOfTwo` | test_features/linking_lib_castle_2.0/include/castle/bit/bit_math.hpp:86-97 | true exactly for the powers of two, false for negatives and zero |
| `PowersOfTwo.ExtractHighestSetBit` | test_features/linking_lib_castle_2.0/include/castle/bit/bit_utils.hpp:54-72 | the highest set bit alone |
| `PowersOfTwo.ExtractLowestSetBit` | test_features/linking_lib_castle_2.0/include/castle/bit/bit_utils.hpp:37-46 | v & -v is 2^(trailing zeros), 0 for 0 |
| `PowersOfTwo.CountLeadingZeros` | test_features/linking_lib_castle_2.0/include/castle/bit/bit_count.hpp:98-126 | for every width 2^k the halving search returns W - 1 - floor(log2 v), W for 0 |
| `PowersOfTwo.CountTrailingZeros` | test_features/linking_lib_castle_2.0/include/castle/bit/bit_count.hpp:134-159 | for every width 2^k the halving search returns the position of the lowest set bit, W for 0 |
| `PowersOfTwo.BitWidth` | test_features/linking_lib_castle_2.0/include/castle/bit/bit_count.hpp:168-182 | floor(log2 v) + 1, 0 for 0 |
| `PowersOfTwo.Log2Floor` | test_features/linking_lib_castle_2.0/include/castle/bit/bit_count.hpp:191-205 | floor(log2 v), 0 for 0 |
| `PowersOfTwo.SearchesAgree` | test_features/linking_lib_castle_2.0/include/castle/bit/bit_math.hpp:176-195 | smearing and searching agree: previous power = highest set bit = 2^log2_floor, lowest set bit = 2^count_trailing_zeros |
| `Words.ShiftDivides` | test_features/linking_lib_castle_2.0/include/castle/bit/bit_math.hpp:130-133 | the model's right shift is division by a power of two |
| `Words.MaskIsModulo` | test_features/linking_lib_castle_1.0/include/castle/buffers/ring_buffer.h:314-319 | masking with 2^n - 1 is the remainder modulo 2^n |
| `RingBuffers.WrapIsModulo` | test_features/linking_lib_castle_1.0/include/castle/buffers/ring_buffer.h:314-324 | both ways of wrapping are the remainder, for every capacity |
| `RingBuffers.RingBuffer.TryPush` | test_features/linking_lib_castle_1.0/include/castle/buffers/ring_buffer.h:109-120 | appends, or reports full and leaves the contents alone |
| `RingBuffers.RingBuffer.OverwritingPush` | test_features/linking_lib_castle_1.0/include/castle/buffers/ring_buffer.h:140-153 | keeps the newest `capacity` items of contents plus the new one; reports an eviction exactly when full |
| `RingBuffers.RingBuffer.TryPop` | test_features/linking_lib_castle_1.0/include/castle/buffers/ring_buffer.h:182-209 | removes the oldest item, or reports empty |
| `RingBuffers.RingBuffer.Peek` | test_features/linking_lib_castle_1.0/include/castle/buffers/ring_buffer.h:217-226 | the index-th oldest item, or out of range |
| `RingBuffers.RingBuffer.Front` | test_features/linking_lib_castle_1.0/include/castle/buffers/ring_buffer.h:232-233 | the oldest item |
| `RingBuffers.RingBuffer.Back` | test_features/linking_lib_castle_1.0/include/castle/buffers/ring_buffer.h:238-239 | the newest item |
| `RingBuffers.RingBuffer.PushAll` | test_features/linking_lib_castle_1.0/include/castle/buffers/ring_buffer.h:248-264 | appends exactly the longest prefix that fits |
| `RingBuffers.RingBuffer.PopAll` | test_features/linking_lib_castle_1.0/include/castle/buffers/ring_buffer.h:270-286 | moves out exactly the oldest items in order and leaves the rest of the destination alone |
| `RingBuffers.RingBuffer.ClearAll` | test_features/linking_lib_castle_1.0/include/castle/buffers/ring_buffer.h:95-100 | empties the buffer |
| `RingBuffers.Drive` | test_features/linking_lib_castle_1.0/include/castle/buffers/ring_buffer.h:109-286 | any run of operations leaves the contents and delivers the items of the bounded queue |
| `BoundedQueues.QueueIsFifo` | test_features/linking_lib_castle_1.0/include/castle/buffers/ring_buffer.h:109-286 | over every run, departed items followed by held items are exactly the accepted ones in order; without overwriting or clearing all departures are deliveries |
| `BoundedQueues.NewestSurvive` | test_features/linking_lib_castle_1.0/include/castle/buffers/ring_buffer.h:140-153 | k overwriting pushes keep exactly the newest min(N, held + k) items in order |
| `Registrations.RegistrationsArePlain` | test_features/linking_lib_castle_2.0/include/castle/callbacks/function_registry.hpp:155-296 | in every run with fewer than 2^32 deactivations per slot a registry is a plain set with room for its capacity: exactly its members' tickets are honoured and exactly their callbacks invoked, each once |
| `Registrations.SubscribeIsPlain` | test_features/linking_lib_castle_2.0/include/castle/callbacks/function_registry.hpp:155-194 | while fewer registrations are in force than there are slots, subscribing puts the callback into force and touches no other |
| `Registrations.UnsubscribeIsPlain` | test_features/linking_lib_castle_2.0/include/castle/callbacks/function_registry.hpp:220-246 | unsubscribing ends the registration of the ticket presented, if it is in force, and no other |
| `Registrations.InvocationRunsLive` | test_features/linking_lib_castle_2.0/include/castle/callbacks/function_registry.hpp:253-264 | an invocation runs the registrations in force, each once |
| `SlotMaps.HonouredIff` | test_features/linking_lib_castle_2.0/include/castle/callbacks/function_registry.hpp:220-246 | over runs of any length: a ticket is honoured iff its slot is in use and was deactivated a multiple of 2^32 times since issue |
| `SlotMaps.HonouredWhileHolding` | test_features/linking_lib_castle_2.0/include/castle/callbacks/function_registry.hpp:220-246 | below 2^32 deactivations per slot, a ticket is honoured exactly while its own registration holds the slot |
| `SlotMaps.TicketsAreSafe` | test_features/linking_lib_castle_2.0/include/castle/callbacks/function_registry.hpp:155-246 | in every such run: tickets are pairwise different, each successful unsubscribe ends the presenter's own registration, no ticket or copy succeeds twice |
| `SlotMaps.StaleForever` | test_features/linking_lib_castle_2.0/include/castle/callbacks/function_registry.hpp:220-246 | a registration that has lost its slot is never honoured again |
| `SlotMaps.ClearMakesAllStale` | test_features/linking_lib_castle_2.0/include/castle/callbacks/function_registry.hpp:281-296 | after `clear` no earlier ticket is ever honoured again |
| `SlotMaps.WrapRepeatsTicket` | test_features/linking_lib_castle_2.0/include/castle/callbacks/function_registry.hpp:220-246 | after 2^32 deactivations the first ticket is issued again and an old copy removes a foreign registration |
| `SlotMaps.InvocationRunsHolders` | test_features/linking_lib_castle_2.0/include/castle/callbacks/delegate_registry.hpp:233-250 | in every state an invocation calls exactly the callbacks of the registrations that hold slots |
| `SlotMaps.OrderIff` | test_features/linking_lib_castle_2.0/include/castle/callbacks/delegate_registry.hpp:233-250 | they run in registration order iff slots further on hold later registrations |
| `SlotMaps.EndingKeepsOrder` | test_features/linking_lib_castle_2.0/include/castle/callbacks/function_registry.hpp:220-296 | unsubscribe and clear never disturb the order |
| `SlotMaps.SubscribeKeepsOrderIff` | test_features/linking_lib_castle_2.0/include/castle/callbacks/function_registry.hpp:155-194 | a successful subscribe leaves callbacks in registration order iff they were and no slot after the first free one is in use |
| `SlotMaps.OrderOfRegistration` | test_features/linking_lib_castle_2.0/include/castle/callbacks/delegate_registry.hpp:159-250 | over every run of subscribes, unsubscribes and clears: invocation goes in registration order all along iff no subscribe fills a slot that has a used one after it |
| `SlotMaps.FirstRegistrationsInOrder` | test_features/linking_lib_castle_2.0/include/castle/callbacks/delegate_registry.hpp:159-250 | in particular the first registrations run in the order they were made |
| `SlotMaps.ReuseBreaksOrder` | test_features/linking_lib_castle_2.0/include/castle/callbacks/delegate_registry.hpp:159-250 | an input for which it fails: a newcomer in a reused slot runs before an older callback |
| `Registries.FunctionRegistry.Subscribe` | test_features/linking_lib_castle_2.0/include/castle/callbacks/function_registry.hpp:155-194 | first free slot, invalid-callback and full results, count of active slots |
| `Registries.FunctionRegistry.UnsubscribeSlot` | test_features/linking_lib_castle_2.0/include/castle/callbacks/function_registry.hpp:220-246 | succeeds exactly when the slot map honours the ticket, and frees just that slot |
| `Registries.FunctionRegistry.Invoke` | test_features/linking_lib_castle_2.0/include/castle/callbacks/function_registry.hpp:253-264 | calls exactly the active callbacks in slot order |
| `Registries.FunctionRegistry.ClearAll` | test_features/linking_lib_castle_2.0/include/castle/callbacks/function_registry.hpp:281-296 | frees every active slot and bumps its generation |
| `Registries.FunctionRegistry.Size` | test_features/linking_lib_castle_2.0/include/castle/callbacks/function_registry.hpp:302-305 | the number of active slots |
| `Registries.DelegateRegistry.Subscribe` | test_features/linking_lib_castle_2.0/include/castle/callbacks/delegate_registry.hpp:159-196 | the same slot map with null pointers for free slots |
| `Registries.DelegateRegistry.UnsubscribeSlot` | test_features/linking_lib_castle_2.0/include/castle/callbacks/delegate_registry.hpp:206-230 | the same honouring rule |
| `Registries.DelegateRegistry.Invoke` | test_features/linking_lib_castle_2.0/include/castle/callbacks/delegate_registry.hpp:239-250 | calls exactly the registered delegates in slot order |
| `Registries.DelegateRegistry.ClearAll` | test_features/linking_lib_castle_2.0/include/castle/callbacks/delegate_registry.hpp:268-282 | frees every occupied slot and bumps its generation |
| `Registries.DelegateRegistry.Size` | test_features/linking_lib_castle_2.0/include/castle/callbacks/delegate_registry.hpp:288-291 | the number of occupied slots |
| `Registries.DriveFunctions` | test_features/linking_lib_castle_2.0/include/castle/callbacks/function_registry.hpp:155-296 | every run of an owning registry is a run of the slot map, slots and tickets alike |
| `Registries.DriveDelegates` | test_features/linking_lib_castle_2.0/include/castle/callbacks/delegate_registry.hpp:159-282 | every run of a borrowing registry is a run of the same slot map |
| `Registries.Subscription.Unsubscribe` | test_features/linking_lib_castle_2.0/include/castle/callbacks/subscription.hpp:175-188 | presents the ticket once and is spent whatever the answer; an invalid handle touches nothing |
| `Registries.Subscription.Reset` | test_features/linking_lib_castle_2.0/include/castle/callbacks/subscription.hpp:195-201 | clears the handle without touching the registry |
| `Connections.ConnectionsArePlain` | test_features/linking_lib_castle_1.0/include/castle/events/sigslot.h:98-625 | over every run connections are plain variables: connected exactly when, by what was connected, moved and disconnected, they hold a callback, which is then in the slot they name; a signal has room while fewer hold on to it than it has slots |
| `Connections.ConnectHolds` | test_features/linking_lib_castle_1.0/include/castle/events/sigslot.h:283-315 | connecting connects: while a slot is inactive the new object is linked to one holding just this callback, and no other connection notices |
| `Connections.EmissionRunsHolders` | test_features/linking_lib_castle_1.0/include/castle/events/sigslot.h:418-429 | an emission calls the callbacks of exactly the connections that hold on to the signal, each once |
| `Connections.RebindHandsOver` | test_features/linking_lib_castle_1.0/include/castle/events/sigslot.h:106-148 | a move hands what the source held to the target and leaves the source with nothing |
| `Connections.DetachLetsGo` | test_features/linking_lib_castle_1.0/include/castle/events/sigslot.h:156-178 | a disconnect lets go of just this connection's callback |
| `Connections.VacatingAdvances` | test_features/linking_lib_castle_1.0/include/castle/events/sigslot.h:446-573 | whatever the operation, a slot that is vacated gets the next 32-bit generation and no other slot changes its own |
| `Sigslot.ReachableIsConsistent` | test_features/linking_lib_castle_1.0/include/castle/events/sigslot.h:98-625 | in every reachable world: connected iff the slot is active, has the generation and points back; disconnect then succeeds; counts are exact, whatever the generations wrapped to |
| `Sigslot.StepKeepsConsistent` | test_features/linking_lib_castle_1.0/include/castle/events/sigslot.h:98-625 | every operation keeps signals and connections consistent |
| `Sigslot.DisconnectAlwaysSucceeds` | test_features/linking_lib_castle_1.0/include/castle/events/sigslot.h:156-178 | a connected object's disconnect passes all checks and leaves it unlinked |
| `Sigslot.SlotsHaveOneOwner` | test_features/linking_lib_castle_1.0/include/castle/events/sigslot.h:500-506 | two connections never share a slot |
| `Sigslot.Connection.MoveFrom` | test_features/linking_lib_castle_1.0/include/castle/events/sigslot.h:106-122 | move construction hands the slot over and resets the source |
| `Sigslot.Connection.MoveAssign` | test_features/linking_lib_castle_1.0/include/castle/events/sigslot.h:124-148 | move assignment, within or between signals, disconnects the old slot first; self-assignment does nothing |
| `Sigslot.Connection.Disconnect` | test_features/linking_lib_castle_1.0/include/castle/events/sigslot.h:156-178 | ok iff connected; frees exactly that slot |
| `Sigslot.Connection.Destroy` | test_features/linking_lib_castle_1.0/include/castle/events/sigslot.h:98-101 | the destructor frees the slot |
| `Sigslot.Signal.Connect` | test_features/linking_lib_castle_1.0/include/castle/events/sigslot.h:283-315 | first inactive slot, invalid and full results |
| `Sigslot.Signal.DisconnectSlot` | test_features/linking_lib_castle_1.0/include/castle/events/sigslot.h:538-573 | index, activity, generation and address checks |
| `Sigslot.Signal.RebindConnection` | test_features/linking_lib_castle_1.0/include/castle/events/sigslot.h:581-604 | re-points the slot, or does nothing when the slot is not meant |
| `Sigslot.Signal.DisconnectAll` | test_features/linking_lib_castle_1.0/include/castle/events/sigslot.h:446-468 | resets every connection of this signal, frees its slots, touches no other |
| `Sigslot.Signal.InvalidateConnections` | test_features/linking_lib_castle_1.0/include/castle/events/sigslot.h:613-625 | the destructor makes every connection of this signal inert |
| `Sigslot.Signal.Emit` | test_features/linking_lib_castle_1.0/include/castle/events/sigslot.h:418-429 | runs the callbacks of active slots in slot order |
| `Callbacks.CallablesAreDestroyedOnce` | test_features/linking_lib_castle_2.0/include/castle/callbacks/function.hpp:100-369 | over every run of builds, copies, moves, assignments, destructions and dispatches: wrappers hold what plain variables would, no callable is destroyed twice or while executing, and when all wrappers are gone each was destroyed exactly once |
| `Callbacks.RunIsPlain` | test_features/linking_lib_castle_2.0/include/castle/callbacks/function.hpp:100-369 | the same from any quiet state |
| `Callbacks.DispatchIsPlain` | test_features/linking_lib_castle_2.0/include/castle/callbacks/callback_dispatcher.hpp:46-91 | any list of replace and clear requests by the running callback ends with every wrapper as if applied in order to plain variables |
| `Callbacks.RunningIsDestroyedIff` | test_features/linking_lib_castle_2.0/include/castle/callbacks/callback_dispatcher.hpp:46-57 | a callback is destroyed while running iff it passes its own wrapper to `replace` as the source |
| `Callbacks.MoveAssignedIs` | test_features/linking_lib_castle_2.0/include/castle/callbacks/function.hpp:229-249 | move assignment on values and lifetimes; self-move does nothing |
| `Callbacks.CopyAssignedIs` | test_features/linking_lib_castle_2.0/include/castle/callbacks/function.hpp:203-221 | copy assignment on values and lifetimes |
| `Callbacks.PointerAssignedIs` | test_features/linking_lib_castle_2.0/include/castle/callbacks/function.hpp:305-358 | assignment of a function pointer or null |
| `Callbacks.Function.CopyConstruct` | test_features/linking_lib_castle_2.0/include/castle/callbacks/function.hpp:166-176 | copies the other's callable, if any |
| `Callbacks.Function.MoveConstruct` | test_features/linking_lib_castle_2.0/include/castle/callbacks/function.hpp:183-195 | constructs from and destroys the other's callable, leaving it empty |
| `Callbacks.Function.CopyAssignFrom` | test_features/linking_lib_castle_2.0/include/castle/callbacks/function.hpp:203-221 | destroys, then copies; nothing on self-assignment |
| `Callbacks.Function.MoveAssignFrom` | test_features/linking_lib_castle_2.0/include/castle/callbacks/function.hpp:229-249 | destroys, then moves; nothing on self-assignment |
| `Callbacks.Function.AssignPointer` | test_features/linking_lib_castle_2.0/include/castle/callbacks/function.hpp:305-358 | destroys, then stores or empties |
| `Callbacks.Function.Destruct` | test_features/linking_lib_castle_2.0/include/castle/callbacks/function.hpp:363-369 | destroys what is held |
| `Callbacks.CallbackDispatcher.RequestReplace` | test_features/linking_lib_castle_2.0/include/castle/callbacks/callback_dispatcher.hpp:46-57 | deferred into the pending wrapper for the running target, immediate otherwise |
| `Callbacks.CallbackDispatcher.RequestClear` | test_features/linking_lib_castle_2.0/include/castle/callbacks/callback_dispatcher.hpp:60-71 | the same for clear |
| `Callbacks.CallbackDispatcher.Invoke` | test_features/linking_lib_castle_2.0/include/castle/callbacks/callback_dispatcher.hpp:75-91 | runs the callback's requests, then applies the deferred one |

## Left out

- Overflow of tick counts, periods and products in `duration`, `gcd` and `lcm`: the source documents it as unchecked, the model uses unbounded integers; `abs`, `++`, `+=` and the other one-line members only repeat the arithmetic that is modelled.
- CommonPeriod.CommonIsCoarsest: for periods in lowest terms, as the ratio type makes them; all other results on durations hold for any positive numerator and denominator. Floating-point representations are not modelled.
- NmeaProtocol.StatisticsMatchEvents: the 64-bit statistics counters are unbounded in the model.
- Tokenizing and the field parsers of the NMEA library; the raw-sentence and error callbacks are the reported events.
- `LOG_INF` cuts a logged line at a NUL byte; the model logs the whole line. The interrupt handler's timing output and the DMA buffer hand-over are left out.
- CondVar.NoDeadlock: the contents of the shared buffer are not modelled, since consumers never read them; which consumer takes an item is up to the scheduler.
- EveryNPolicy.CallsAreAccountedFor: assumes the concurrent 2.0 counter stops short of wrapping; `size_type` is taken as 32 bits, as on the boards used. Callbacks that re-enter the same policy are not modelled.
- ArmedWindowPolicy.FiresOnceAndInTime: re-arming is one step; a caller that reads the deadline while it is being written is not modelled, as the source leaves that race to its callers. `on_change` is left out as a one-branch member.
- TimedPolicies.Periodic.Poll: requires exactly what makes the source's loop end.
- TickTimers.TickTimer.OnTick: callbacks that start, stop or re-enter the timer while it fires; the registry behind it is modelled separately.
- Algorithms run on whole arrays rather than iterator sub-ranges, with pure comparators; the elements after the new logical end of `remove_if` and `unique` are left unspecified, as the source leaves them.
- PowersOfTwo.NextPowerOfTwo: unsigned values; for signed types the source works on the unsigned representation. Words are numbers with explicit bits here, and machine bit-vectors in `BitTricks.dfy` and `BitReversal.dfy`.
- The contents of a ring buffer's unused slots, its iterators, and callers that pass the buffer's own storage to the bulk operations.
- Callbacks that subscribe, unsubscribe or clear during `invoke` or `emit`; use of a handle after its registry is destroyed, which the source forbids.
- Callbacks.DispatchIsPlain: nested `invoke` calls, which owners reject; invoking an empty wrapper, which the source asserts against. Requests are those of a callback that also makes and drops temporaries.
- Sigslot: the callback payload is an opaque identifier; the same object-lifetime questions are answered by `Dispatcher.dfy`.
- `stack_buffer`, `soo_buffer`, hash containers, signal-event wrappers, bit-field helpers, alignment helpers, string and log builders, and the remaining demo mains.
