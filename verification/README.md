# MqttCalcul, verified in Dafny

MqttCalcul is a small reactive engine. Formulas name remote sensors as `{server:topic}`; a cache keeps the last
value of each sensor together with the calculations that depend on it; every sensor message re-evaluates only those
calculations, and only changed results are queued and published. This project models that engine, the parser it
depends on, the daemon's three threads and the blocking queue of the vendored MQTT library, and proves what they
are for.

`dafny verify dfyconfig.toml` checks everything.

| file | what it models |
|---|---|
| `Text.dfy`, `StringTools.dfy`, `Replacement.dfy`, `Numbers.dfy` | the string searches, `StringTools`, and `atoi` |
| `Formula.dfy` | the placeholder grammar and the scan that recognises it |
| `Calculator.dfy` | substitution of sensor values into a formula |
| `Engine.dfy`, `EngineRuns.dfy`, `History.dfy` | cache, reverse index and `on_cache` on values; whole runs of messages |
| `Config.dfy` | `AddSensor` and the second half of `DaemonConfigure` on values |
| `Daemon.dfy`, `DaemonRuns.dfy` | the interleaved steps of sensor callback, command callback and daemon thread |
| `Service.dfy` | sections, commands and loop turns on values |
| `CalculData.dfy`, `CacheManager.dfy`, `MqttCalcul.dfy` | the source's classes, proved against those functions |
| `ThreadQueue.dfy` | `mqtt::thread_queue` as steps, and the queue object |

How to read the model:

- A pointer to a `CalculData` is its index in `m_Calculs`. The calculations are elements of one vector that no longer
  grows, so a `set<CalculData*>` is walked in index order.
- `Calculator::Evaluate` is any function of formula, devices and values (`Engine.Evaluator`). `Calculator.EvaluatorOf`
  is the instance the class uses: the real substitution, then any function on the substituted text.
- The outcome of every connection attempt is a parameter (`Config.Request.connects`, `Config.Outcomes`), and so is
  what `Service::Wait` returns (`Daemon.Wake`): the proofs hold for all of them.
- `Config`, `Engine*`, `History`, `Daemon*` and `Service` switch Dafny's automatic induction off; every induction in
  them is written out.
- Rows about `Calculator` cite the declarations in src/Calculator.h of `Calculator::Evaluate` and
  `Calculator::VariablesReplace`, whose bodies are lines 13-65 of src/Calculator.cpp.
- A lemma with an empty body is a boundary: its users hide the definitions it speaks about.

Main results:

- **Incremental evaluation is full recomputation** at every message of every run, exactly when the reverse index is
  complete after configuration (`EngineRuns.RefinementExactlyWhenWired`); so is the agreement of cache and results
  (`EngineRuns.AgreementExactlyWhenWired`). Whatever the network does, the index is complete for a calculation exactly
  when either some sensor of it was accepted for no calculation at all, or all its sensors were accepted for it
  (`Config.WiredExactly`), which turns both into conditions on the connection outcomes (`Service.RefinementExactly`,
  `Service.AgreementExactly`). Servers that are up or down throughout meet them (`Config.StableNetworkWires`,
  `Service.StableDaemonIsExact`). A server that fails the first `AddSensor` and answers a later one does not
  (`Service.RecoveringServerBreaksRefinement`): the first calculation is missing from the index of a cached sensor.
- **What a calculation holds**: from the configuration file, through any messages and any interleaving of the threads, it is
  set exactly when all its sensors were heard, and then holds the arithmetic of its formula with every placeholder
  replaced by the last value of its sensor, in the form of its type (`MqttCalcul.CalculationMeans`,
  `MqttCalcul.DaemonMeans`, `Engine.SwitchReadsDecimal`).
- **History does not matter** for a calculation exactly when its index is complete or empty
  (`History.HistoryIndependentExactly`, `Service.HistoryExactly`); see also `History.SlimRunIsSame` and
  `History.OnlyChangesArePublished`.
- **Interleaving does not matter**: between callbacks the daemon is an atomic run of the messages it accepted
  (`DaemonRuns.CallbacksAreAtomic`), delivery is first in, first out and exactly once (`DaemonRuns.DeliveryIsFifo`),
  and replaying everything sent gives exactly the current values (`DaemonRuns.ReplayReconstructs`).
- **The parser decides its grammar**, and parsing and printing invert each other (`Formula.ScanDecidesGrammar`,
  `Formula.PrintInvertsScan`).
- **Lost wakeups** of `thread_queue`, on both sides and for any number of threads. For a capacity that is never changed:
  a consumer can stay asleep beside items exactly when there are a consumer and another thread, and a non-zero finite
  capacity or else a second consumer and a third thread (`ThreadQueue.LostWakeupExactly`). A producer can stay asleep
  beside free room exactly with a finite non-zero capacity and either a consumer and another thread, or two places and
  three threads (`ThreadQueue.LostNotFullExactly`). Both can sleep at once, on an empty queue, exactly with a finite
  non-zero capacity, a consumer and another thread (`ThreadQueue.DeadlockExactly`). When `capacity(cap)` may be called
  on the way, the initial capacity protects from nothing: a producer can be left asleep by any two threads, and the
  other two need only a consumer besides (`ThreadQueue.ResizedLostNotFullExactly`,
  `ThreadQueue.ResizedLostWakeupExactly`, `ThreadQueue.ResizedDeadlockExactly`). The header's own comments promise a
  signal whenever an item is added to an empty queue or removed from a full one. The code decides by the size read
  before the wait, so a thread that waited signals nobody, and where it does signal, one notification can answer
  several items or places; a change of the capacity signals nobody either.
- **ReplaceAll** equals a single left-to-right pass exactly when no offset lets a replacement take part in a later
  occurrence (`Replacement.IteratedIsOnePassExactly`). For deletion that means exactly when the search string repeats
  one character (`Replacement.DeletionIsOnePassExactly`).
- **Keys of received messages** mean the sensor they name exactly when the topic has no colon
  (`Engine.EventKeyExactly`): behind a wildcard subscription, topic `a:b` of server `s` sets the sensor `b` of a server
  `s:a`.
- **Comparison ignoring case** is exact if and only if its left operand is shorter than 2^32 characters, because the
  length goes through `unsigned int` (`StringTools.ComparisonIsExact`).

## Model

| member | source | states |
|---|---|---|
| StringTools.IsEqualCaseInsensitive | dependency/StringTools/StringTools.cpp:63-72 | the right operand has the length of the left one modulo 2^32 and matches that much of it up to ASCII case |
| StringTools.ComparisonIsExact | dependency/StringTools/StringTools.cpp:65-67 | the comparison is equality up to case for every right operand if and only if the left one is shorter than 2^32 |
| StringTools.LTrim | dependency/StringTools/StringTools.cpp:7-11 | removes white space from the front only, and all of it |
| StringTools.RTrim | dependency/StringTools/StringTools.cpp:14-18 | removes white space from the end only, and all of it |
| StringTools.Trim | dependency/StringTools/StringTools.cpp:21-24 | removes white space at both ends only, and all of it |
| StringTools.Split | dependency/StringTools/StringTools.cpp:26-39 | fails exactly without delimiter, and returns the key and value of every padded join that makes the source |
| StringTools.JoinIsUnambiguous | dependency/StringTools/StringTools.cpp:26-39 | all padded joins that make one text have the same key and value |
| Replacement.ReplaceAll | dependency/StringTools/StringTools.cpp:50-61 | for a call that terminates, the result of repeatedly replacing the first occurrence, with no occurrence left |
| Replacement.ShorterReplacementTerminates | dependency/StringTools/StringTools.cpp:57-58 | the loop terminates whenever the replacement is shorter than the search string |
| Replacement.SelfFeedingTerminatesExactly | dependency/StringTools/StringTools.cpp:57-58 | with a replacement that contains the search string the loop terminates exactly when there is nothing to replace |
| Replacement.EmptySearchNeverStops | dependency/StringTools/StringTools.cpp:57-58 | the empty search string never lets the loop end |
| Replacement.IteratedIsOnePass | dependency/StringTools/StringTools.cpp:50-61 | when no offset lets the replacement take part in a later occurrence, the loop terminates with the one-pass, left-to-right substitution |
| Replacement.IteratedIsOnePassExactly | dependency/StringTools/StringTools.cpp:50-61 | loop and single pass agree on every text if and only if there is no such offset: one at which search string and replacement agree on their overlap, and which does not presuppose an earlier occurrence |
| Replacement.InterferenceDiffers | dependency/StringTools/StringTools.cpp:50-61 | for every such offset, a text on which the loop does not end in the single pass |
| Replacement.ForeignSettles | dependency/StringTools/StringTools.cpp:50-61 | a non-empty replacement that shares no character with the search string has no such offset |
| Replacement.EmptyReplacementDiffers | dependency/StringTools/StringTools.cpp:50-61 | for every search string with two different characters, a text on which one pass leaves the search string and the loop does not |
| Replacement.DeletionIsOnePassExactly | dependency/StringTools/StringTools.cpp:50-61 | with an empty replacement, loop and single pass agree on every text if and only if the search string repeats one character |
| Numbers.AtoiReadsDecimal | src/CalculData.cpp:23 | the reading of a switch value inverts decimal printing behind white space and sign and before other text |
| Numbers.AtoiWithoutNumber | src/CalculData.cpp:23 | a text that begins no number, or only with a sign, reads as 0 |
| Numbers.AtoiPositiveExactly | src/CalculData.cpp:23 | a text reads as a number above zero exactly when it is white space, an optional plus and digits, one of them not 0, followed by anything |
| Formula.ScanDecidesGrammar | src/CalculData.cpp:44-69 | parsing succeeds exactly on printed texts, with the devices and offsets of their pieces; each error occurs exactly when good pieces are followed by an unclosed or a serverless placeholder |
| Formula.PrintInvertsScan | src/CalculData.cpp:52-66 | on success the formula is its gaps interleaved with the placeholders at the recorded offsets, and no other pieces print it |
| Formula.ScanPieces | src/CalculData.cpp:50-68 | scanning printed pieces lays them out and goes on with whatever follows |
| Formula.ScanSpans | src/CalculData.cpp:59-67 | recorded spans are disjoint and increasing, each encloses exactly its key without closing brace, and every opening brace is in one |
| Formula.KeysNeverAlias | src/CalculData.cpp:60-65 | keys of topics without colon are equal only for equal server and topic |
| Formula.SplitAtLastColon | src/CalculData.cpp:60-65 | the last colon splits a key into exactly its server and topic when the topic has no colon |
| Calculations.FindDevices | src/CalculData.cpp:44-69 | the scanning loop terminates with the result of the scan, and its spans fit the formula |
| Calculations.CalculData.constructor | src/CalculData.cpp:7-11 | a new calculation is unset and empty |
| Calculations.CalculData.Create | src/CalculData.cpp:7-11 | a new object holds what its section says, or the type error, or else the first formula error |
| Calculations.BuildExactly | src/CalculData.cpp:7-11 | a section becomes a calculation of the type its word names in any case, over the pieces its formula is printed from; every other word is refused, and a good type with an unclosed or serverless placeholder gives the corresponding error |
| Calculations.CalculData.IsNewValue | src/CalculData.cpp:17-35 | what is stored is the text itself for a num, and for a switch ON exactly when the text reads as positive, OFF otherwise; the result tells whether what is held differs from before |
| Calculator.VariablesReplace | src/Calculator.h:16 | the formula with its spans replaced by values, or nothing when a value is missing |
| Calculator.SubstitutionOfPieces | src/Calculator.h:16 | the substitution replaces exactly the placeholders and keeps the text between them |
| Calculator.SelfSubstitution | src/Calculator.h:16 | replacing every placeholder by itself gives the formula back |
| Calculator.EvaluateMeans | src/Calculator.h:13 | for every reading of the formula as pieces, the result is the arithmetic applied to the pieces with the values of their sensors, and empty when a value is missing or no text is left |
| Calculator.EvaluateCalcul | src/Calculator.h:13 | the same of the method: the arithmetic is applied to the substituted text, unless a value is missing or the text is empty |
| Engine.CanonicalMeaning | src/CacheManager.cpp:60-71 | six words in any case mean 1, six others 0, and the rest is kept, where of a payload of 2^32 characters or more only the length modulo 2^32 is seen |
| Engine.CanonicalIsStable | src/CacheManager.cpp:60-71 | canonical payloads are their own canonical form |
| Engine.EventKeyExactly | src/MqttCalcul.cpp:121 | a received message can only mean the sensor of its own server and topic, for every device a formula can hold, if and only if its topic has no colon |
| Engine.TargetIsLocal | src/MqttCalcul.cpp:137-146 | a message for another sensor leaves the value a calculation should have alone |
| Engine.SwitchReadsDecimal | src/CalculData.cpp:21-27 | a switch holds ON for a printed decimal above zero behind white space and an optional plus, and OFF for zero, for negative numbers and for texts that begin no number |
| Engine.CallbackKeepsAgreement | src/MqttCalcul.cpp:117-164 | on_cache keeps a wired calculation in agreement with the cache |
| Engine.IncrementalIsFull | src/MqttCalcul.cpp:117-164 | from agreement and a complete index, on_cache gives the state and messages of recomputing every calculation with devices |
| EngineRuns.AgreementExactlyWhenWired | src/MqttCalcul.cpp:132-154 | over every run a calculation is set exactly when all its devices are read, with the value of its formula, if and only if the index is complete for it |
| EngineRuns.RefinementExactlyWhenWired | src/MqttCalcul.cpp:117-164 | on_cache equals full recomputation at every message of every run if and only if the index is complete |
| EngineRuns.UnwiredDiffers | src/MqttCalcul.cpp:117-164 | for every gap in the index, a run and a message on which the two differ |
| EngineRuns.RunCache | src/CacheManager.cpp:52-79 | after a run each cached sensor holds the canonical payload of its last message |
| EngineRuns.RunValue | src/MqttCalcul.cpp:132-154 | after any run a completely indexed calculation is set exactly when all its sensors are cached and had a message, and then holds, in the form of its type, what its formula gives for their last values |
| History.HistoryIndependence | src/MqttCalcul.cpp:117-164 | runs with the same last canonical value per cached sensor leave a completely indexed calculation the same, whatever gaps the index has for others |
| History.StateHistoryIndependence | src/MqttCalcul.cpp:117-164 | with a complete index such runs end in the same state |
| History.HistoryIndependentExactly | src/MqttCalcul.cpp:117-164 | after configuration a calculation with devices depends on the last values alone if and only if the index is complete for it or none of its sensors leads to it |
| History.SlimRunIsSame | src/CacheManager.cpp:52-79 | canonical spellings and dropping repetitions change neither the final state nor the messages enqueued |
| History.SlimHasEffect | src/CacheManager.cpp:58-78 | no message of that reduced run could be dropped: each is canonical and has an effect when its turn comes |
| History.CallbackIdle | src/CacheManager.cpp:58-78 | a message has no effect exactly when its sensor is not cached or already holds its value |
| History.CallbackSendsChange | src/MqttCalcul.cpp:146-153 | one callback sends at most one message per calculation, and only a value it did not hold |
| History.CallbackLists | src/MqttCalcul.cpp:132-153 | one callback sends, in the order of the calculations, name and new value of exactly those that hold a new one |
| History.OnlyChangesArePublished | src/MqttCalcul.cpp:132-153 | over a run the values sent for a calculation never repeat a neighbour, and the last one is the one held |
| Config.IndexIsExact | src/CacheManager.cpp:14-50 | after any AddSensor calls the cache indexes exactly the accepted dependencies, and the bridges are the servers reached |
| Config.ReturnedTrue | src/CacheManager.cpp:14-31 | a call returns true exactly when its server has been reached by then |
| Config.AcceptedExactly | src/CacheManager.cpp:19-31 | a dependency is accepted exactly when one of its calls, or an earlier call for the same server, found the server |
| Config.OrderDoesNotMatter | src/CacheManager.cpp:35-48 | with fixed outcomes the index depends on the set of dependencies only |
| Config.SubscriptionDiscipline | src/MqttBridge.cpp:16-21 | a topic is subscribed at most once per bridge, the subscriptions are the bridge's topics, and every cached sensor is among them |
| Config.SubscriptionsAreAccepted | src/MqttBridge.cpp:16-21 | the broker of a server is asked for exactly the topics of the calls for that server that returned true |
| Config.RequestsAreUses | src/MqttCalcul.cpp:48-59 | configuration asks only for devices of the calculation it names |
| Config.UsesAreRequested | src/MqttCalcul.cpp:48-59 | configuration asks for every device of every calculation |
| Config.ConfigurationIsConfigured | src/MqttCalcul.cpp:48-59 | whatever the network does, nothing is read yet and the index names users of the sensor only |
| Config.IndexOfConfiguration | src/CacheManager.cpp:35-49 | after configuration a sensor is cached exactly when some calculation has an accepted device of its key, and GetCalculs gives exactly those calculations |
| Config.IndexOfStableConfiguration | src/CacheManager.cpp:88-93 | with servers up or down throughout, GetCalculs of a key gives exactly the calculations with a device of that key on a server that is up |
| Config.WiredExactly | src/MqttCalcul.cpp:48-59 | the index is complete for a calculation if and only if, when all its sensors were accepted for some calculation, all were accepted for it |
| Config.StableNetworkWires | src/MqttCalcul.cpp:48-59 | servers that are up or down throughout leave a complete index |
| Config.AcceptedCalculationIsWired | src/MqttCalcul.cpp:56-57 | a calculation all of whose calls returned true is completely indexed |
| Config.RecoveringServerLeavesGap | src/CacheManager.cpp:19-31 | of two calculations that share a sensor, the first is left out of the index when the server is reached only at the second call |
| Caching.MqttBridge.Subscribe | src/MqttBridge.cpp:16-21 | the broker is called for new topics only |
| Caching.CacheManager.AddSensor | src/CacheManager.cpp:14-50 | bridges and cache afterwards, and the result, are those of the configuration function |
| Caching.CacheManager.FindBridge | src/CacheManager.cpp:19-31 | finds the bridge of a server or connects one, and fails exactly when the connection does |
| Caching.CacheManager.AddDependent | src/CacheManager.cpp:35-49 | the calculation is in the sensor's entry afterwards, whatever was there stays |
| Caching.CacheManager.UpdateValue | src/CacheManager.cpp:52-79 | the cache afterwards, and whether it changed, are those of the engine function |
| Caching.Canonicalise | src/CacheManager.cpp:60-71 | the chain of comparisons computes the canonical payload |
| Daemon.ThreadsAreIndependent | src/MqttCalcul.cpp:66-252 | a step of one thread never disables a step of another, except that keeping the queue lock disables entering it |
| Daemon.StepKeepsFifo | src/MqttCalcul.cpp:237-249 | every step of every thread keeps order and exactly-once delivery, and no drain starts while paused |
| Daemon.DrainIsExclusive | src/MqttCalcul.cpp:239-247 | while a drain holds the lock nobody enqueues, and each publication takes the front of the queue |
| Daemon.DrainDeliversAll | src/MqttCalcul.cpp:239-247 | a drain can end only after publishing exactly the queue it found |
| DaemonRuns.SweepIsLinear | src/MqttCalcul.cpp:132-149 | evaluating one calculation keeps the callback in progress a prefix of the atomic one |
| DaemonRuns.EmplaceIsLinear | src/MqttCalcul.cpp:150-151 | so does enqueueing its result, however long the lock was held by others |
| DaemonRuns.SweepDoneIsLinear | src/MqttCalcul.cpp:158-163 | the end of the callback completes the atomic one |
| DaemonRuns.EveryInterleaving | src/MqttCalcul.cpp:66-252 | the invariant holds in every interleaving of the threads |
| DaemonRuns.CallbacksAreAtomic | src/MqttCalcul.cpp:117-164 | between callbacks cache, calculations and enqueued results are those of an atomic run, and calculations without devices are where the initial pass put them |
| DaemonRuns.AgreementUnderInterleaving | src/MqttCalcul.cpp:132-154 | between callbacks cache and results agree, whatever the other threads do |
| DaemonRuns.RefinementUnderInterleaving | src/MqttCalcul.cpp:117-164 | between callbacks the next message does to the daemon's own state what full recomputation would do |
| DaemonRuns.HistoryUnderInterleaving | src/MqttCalcul.cpp:117-164 | two daemons past their initial passes that accepted messages with the same last values agree on cache and completely indexed calculations, however their threads interleaved |
| DaemonRuns.DeliveryIsFifo | src/MqttCalcul.cpp:198-249 | what was published is the initial publications, then a prefix of everything enqueued, the rest of which is queued; nothing is drained while paused |
| DaemonRuns.EveryDrainDelivers | src/MqttCalcul.cpp:239-247 | in every interleaving a drain is alone with the queue and can end exactly when it has published the queue it found, in order |
| DaemonRuns.ReplayReconstructs | src/MqttCalcul.cpp:66-153 | replaying published and queued messages, REQUEST replies included, gives exactly the values of the set calculations, up to a value in flight |
| DaemonRuns.InitialPassMeans | src/MqttCalcul.cpp:198-212 | the initial pass sets every calculation without devices to what its formula gives in the form of its type, leaves the others alone, and sends names and values of those changed in their order |
| Service.ConfigurationIsFresh | src/MqttCalcul.cpp:26-59 | distinct sections configure a state in which the daemon's invariant starts |
| Service.CalcsExactly | src/MqttCalcul.cpp:26-45 | the calculations are, in order, those of exactly the sections that name a type and whose formula is in the grammar, other than mqtt and log |
| Service.AgreementExactly | src/MqttCalcul.cpp:22-164 | after any configuration cache and results agree over every run for a calculation if and only if its sensor calls were completely accepted |
| Service.RefinementExactly | src/MqttCalcul.cpp:22-164 | after any configuration on_cache equals full recomputation at every message of every run if and only if the sensor calls of every calculation were completely accepted |
| Service.HistoryExactly | src/MqttCalcul.cpp:22-164 | after any configuration a calculation depends on the last values alone if and only if its sensor calls were completely accepted or none of them was |
| Service.RecoveringServerBreaksRefinement | src/MqttCalcul.cpp:22-164 | two differently named sections sharing a sensor, whose server answers only the second AddSensor, give a state on which some message differs from full recomputation |
| Service.StableConfigurationIsExact | src/MqttCalcul.cpp:22-164 | from a configuration file on a stable network every atomic run refines full recomputation at every message and depends on the last values alone |
| Service.StableDaemonIsExact | src/MqttCalcul.cpp:22-164 | the daemon of such a file refines full recomputation between callbacks and forgets its history, in every interleaving of its threads |
| Service.AnswersTellEverything | src/MqttCalcul.cpp:74-79 | replaying the answer to one service-wide REQUEST gives the value of every calculation and nothing else |
| Service.AnswersList | src/MqttCalcul.cpp:75-79 | that answer gives name and value of exactly the set calculations, in their order |
| Service.PassStepsAnswer | src/MqttCalcul.cpp:74-80 | an undisturbed REQUEST pass of the step system enqueues that answer |
| Service.DispatchDecodes | src/MqttCalcul.cpp:170-186 | a topic is a service command exactly as main topic and "command", and a device command exactly with one more character and the device name |
| Service.ReplyExactly | src/MqttCalcul.cpp:66-187 | a REQUEST on the service topic is answered with every set calculation, one on a calculation's topic with its own value if it is set, and everything else with nothing |
| Service.LoopDelivers | src/MqttCalcul.cpp:214-250 | sent followed by still queued is what was there followed by what arrived |
| Service.TurnExactly | src/MqttCalcul.cpp:216-248 | a turn sends everything held and arrived on START, or when notified and not paused, and nothing otherwise; only STOP stops, only PAUSE and START change the pause |
| Service.StoppedExactly | src/MqttCalcul.cpp:216-233 | the loop has stopped exactly when a wakeup said STOP |
| Service.NothingAfterStop | src/MqttCalcul.cpp:216-233 | turns behind a STOP change nothing |
| Service.PausedExactly | src/MqttCalcul.cpp:222-230 | the loop is paused exactly when the last PAUSE or START before it stopped was a PAUSE |
| Service.AwakeExactly | src/MqttCalcul.cpp:219-237 | the waking step of the step system does the same |
| Service.PauseHoldsEverything | src/MqttCalcul.cpp:221-237 | from PAUSE on nothing is published and everything that arrives is kept, whatever wakes the loop, until START or STOP |
| Service.StartReleasesEverything | src/MqttCalcul.cpp:228-247 | START then publishes all of it, in order, in one turn |
| Service.LoopTurnIsSteps | src/MqttCalcul.cpp:216-249 | a turn of the loop is one of the interleavings of the step system |
| Service.CallbackIsSteps | src/MqttCalcul.cpp:117-164 | an undisturbed callback is an execution of the step system, with the state and messages of on_cache |
| Service.CommandIsSteps | src/MqttCalcul.cpp:66-115 | so is an undisturbed command, with its reply |
| Service.BootIsSteps | src/MqttCalcul.cpp:198-212 | so is the initial pass from the boot, with what it sets and sends |
| MqttCalcul.MqttCalcul.constructor | src/MqttCalcul.cpp:14-16 | a new daemon has no calculations, no sensors and an empty queue |
| MqttCalcul.MqttCalcul.BuildCalculs | src/MqttCalcul.cpp:26-45 | one calculation per valid section, in order, skipping mqtt and log |
| MqttCalcul.MqttCalcul.Wire | src/MqttCalcul.cpp:48-59 | the nested loops make exactly the AddSensor calls of all devices |
| MqttCalcul.MqttCalcul.DaemonConfigure | src/MqttCalcul.cpp:22-64 | the configured state of the sections |
| MqttCalcul.MqttCalcul.Gather | src/MqttCalcul.cpp:135-143 | all values are there exactly when every device has been read, and then each device's key, and no other, has its cached value |
| MqttCalcul.MqttCalcul.Recompute | src/MqttCalcul.cpp:134-158 | one round refreshes one calculation, no other, and queues its changed value |
| MqttCalcul.MqttCalcul.Sweep | src/MqttCalcul.cpp:132-159 | the loop refreshes the dependent calculations, no other, and queues their changed values in order |
| MqttCalcul.MqttCalcul.OnCache | src/MqttCalcul.cpp:117-164 | state and queue afterwards are those of the engine function; what was added lists, in order, exactly the calculations that hold a new value |
| MqttCalcul.MqttCalcul.MessageForService | src/MqttCalcul.cpp:66-82 | REQUEST queues every set value in order, anything else nothing |
| MqttCalcul.MqttCalcul.MessageForDevice | src/MqttCalcul.cpp:84-115 | REQUEST queues the value of the first calculation of that name if it is set, anything else nothing |
| MqttCalcul.MqttCalcul.OnMessage | src/MqttCalcul.cpp:166-187 | what is added answers a service-wide REQUEST with every set calculation in order, a REQUEST to a calculation with its own value, and anything else with nothing |
| MqttCalcul.MqttCalcul.InitialPass | src/MqttCalcul.cpp:198-212 | calculations without devices hold what their formulas give, the others are untouched, and what was published lists the changed ones in order |
| MqttCalcul.MqttCalcul.WaitLoop | src/MqttCalcul.cpp:214-250 | queue and publications afterwards are those of the loop turns |
| MqttCalcul.MqttCalcul.Drain | src/MqttCalcul.cpp:239-247 | the queue is published in order and left empty |
| MqttCalcul.MqttCalcul.DaemonLoop | src/MqttCalcul.cpp:189-254 | initial publications, then those of the loop |
| MqttCalcul.CalculationMeans | src/MqttCalcul.cpp:22-164 | from configuration file to value: a completely accepted calculation is set exactly when all its sensors were heard, and then holds, in the form of its type, the arithmetic of its formula with every placeholder replaced by its sensor's last value |
| MqttCalcul.DaemonMeans | src/MqttCalcul.cpp:22-164 | the same of the daemon between callbacks, in every interleaving of its threads |
| ThreadQueue.QueueConserves | builds/msvc/Lib/paho.mqtt.cpp/include/mqtt/thread_queue.h:149-279 | in every interleaving items taken followed by items held are the items put |
| ThreadQueue.FixedCapacityBounds | builds/msvc/Lib/paho.mqtt.cpp/include/mqtt/thread_queue.h:149-159 | with a fixed capacity the size never exceeds it |
| ThreadQueue.UnboundedLosesNone | builds/msvc/Lib/paho.mqtt.cpp/include/mqtt/thread_queue.h:149-258 | without capacity from first to last, and with one consumer or two threads, a consumer that sleeps on items has a notification coming |
| ThreadQueue.FiniteCapacityLoses | builds/msvc/Lib/paho.mqtt.cpp/include/mqtt/thread_queue.h:151-158 | every finite non-zero capacity has a run with one producer and one consumer that loses a wakeup |
| ThreadQueue.TwoConsumersLose | builds/msvc/Lib/paho.mqtt.cpp/include/mqtt/thread_queue.h:155-158 | two consumers and a third thread can lose a wakeup without any capacity |
| ThreadQueue.LostWakeupExactly | builds/msvc/Lib/paho.mqtt.cpp/include/mqtt/thread_queue.h:149-258 | for any threads and consumers and a capacity that is never changed, a consumer can stay asleep beside items exactly when there are a consumer and another thread, and a non-zero finite capacity or else a second consumer and a third thread |
| ThreadQueue.FiniteCapacityDeadlocks | builds/msvc/Lib/paho.mqtt.cpp/include/mqtt/thread_queue.h:149-258 | every finite non-zero capacity has a run after which producer and consumer both sleep on an empty queue |
| ThreadQueue.DeadlockExactly | builds/msvc/Lib/paho.mqtt.cpp/include/mqtt/thread_queue.h:149-258 | for a capacity that is never changed, that can happen exactly when it is finite and not zero and there are a consumer and another thread |
| ThreadQueue.TwoProducersLose | builds/msvc/Lib/paho.mqtt.cpp/include/mqtt/thread_queue.h:267-278 | with two or more places, two waiting producers and try_get, one producer can stay asleep beside free room |
| ThreadQueue.TryGetLosesNone | builds/msvc/Lib/paho.mqtt.cpp/include/mqtt/thread_queue.h:267-278 | with a capacity that is never changed, without blocking consumers, and with one place or two threads, a producer that sleeps beside free room is about to be woken, or another one is about to take the room |
| ThreadQueue.LostNotFullExactly | builds/msvc/Lib/paho.mqtt.cpp/include/mqtt/thread_queue.h:149-279 | for a capacity that is never changed, a producer can stay asleep beside free room exactly when it is finite and not zero and there are either a consumer and another thread, or two places and three threads |
| ThreadQueue.ResizingLosesRoom | builds/msvc/Lib/paho.mqtt.cpp/include/mqtt/thread_queue.h:131-155 | raising the capacity, even to unlimited, leaves a waiting producer asleep |
| ThreadQueue.ResizedLostNotFullExactly | builds/msvc/Lib/paho.mqtt.cpp/include/mqtt/thread_queue.h:131-279 | when the capacity may be changed, whatever it is at first, a producer can stay asleep beside free room exactly when there are two threads |
| ThreadQueue.ResizedLostWakeupExactly | builds/msvc/Lib/paho.mqtt.cpp/include/mqtt/thread_queue.h:131-279 | when the capacity may be changed, a consumer can stay asleep beside items exactly when there are a consumer and another thread |
| ThreadQueue.ResizedDeadlockExactly | builds/msvc/Lib/paho.mqtt.cpp/include/mqtt/thread_queue.h:131-279 | when the capacity may be changed, both sides can sleep on an empty queue with room exactly when there are a consumer and another thread |
| ThreadQueue.BlockingQueue.Put | builds/msvc/Lib/paho.mqtt.cpp/include/mqtt/thread_queue.h:149-159 | put up to its wait or its unlock is the step of the system |
| ThreadQueue.BlockingQueue.PutAgain | builds/msvc/Lib/paho.mqtt.cpp/include/mqtt/thread_queue.h:152-158 | put after a wakeup, with the size read before the wait |
| ThreadQueue.BlockingQueue.Get | builds/msvc/Lib/paho.mqtt.cpp/include/mqtt/thread_queue.h:246-258 | get up to its wait or its unlock is the step of the system, and returns the front |
| ThreadQueue.BlockingQueue.GetAgain | builds/msvc/Lib/paho.mqtt.cpp/include/mqtt/thread_queue.h:228-239 | get after a wakeup, with the size read before the wait |
| ThreadQueue.BlockingQueue.TryGetItem | builds/msvc/Lib/paho.mqtt.cpp/include/mqtt/thread_queue.h:267-279 | try_get is the step of the system, and returns the front or nothing |
| ThreadQueue.BlockingQueue.Capacity | builds/msvc/Lib/paho.mqtt.cpp/include/mqtt/thread_queue.h:131-134 | setting the capacity changes nothing else |

## Left out

- The floating-point evaluation of the substituted text (src/Calculator.cpp:67-214): the theorems hold for any function from text to text.
- Reading the configuration file: sections come as a sequence of names with their type and formula entries, and theorems about names take them distinct, as the map of SimpleIni makes them.
- The network: connecting is a success or a failure chosen by the environment, subscribing and publishing append to logs, and the main-topic prefix of a published topic is not modelled.
- Sensor messages that arrive while configuration is still adding sensors: configuration comes first, then the three threads start.
- Unsynchronised reads and writes of the cache and of a calculation while a callback runs: one sensor callback and one command callback run at a time, and reading a calculation or storing its value is one step.
- Progress of the wakeup between the threads: what the wait returns is any value, so only safety is proved of the loop.
- MqttCalcul.MqttCalcul.WaitLoop: proved for any finite sequence of wakeups, because the loop itself need not end.
- MqttCalcul.MqttCalcul.OnCache: the condition-variable notification is not modelled; what it can cause is covered by the arbitrary wakeups.
- Replacement.ReplaceAll: requires a call that terminates; the exact set of terminating calls is characterised for replacements that contain the search string, are shorter than it, or cannot take part in a later occurrence.
- Numbers.AtoiReadsDecimal: integers are unbounded, so the overflow of atoi is not modelled.
- The timed and non-blocking puts and the timed gets of the queue, and the size and empty observers.
- The remaining helpers of StringTools (control-character removal, case conversion, number test), logging, signals, pid files, Windows service code and the test harness.
- Locale: white space, digits and case are those of ASCII.
