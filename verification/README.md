# Digital-twin runtime: verified model

The repository is the runtime of a digital twin: a gateway feeds telemetry into an engine, services follow
positions in real time, and a database actor keeps the twin's data. Most of it is input and output. This project
models the parts that carry state and must keep promises about it, and proves those promises for every input,
every interleaving and every failure.

| file | what it models |
|---|---|
| `RingBuffer.dfy`, `EventQueue.dfy`, `WorkflowEngine.dfy` | the bounded event queue: ring arithmetic in place, the lock and the two wake-up cells for any number of tasks, the engine's budgeted tick |
| `ProtocolConnection.dfy`, `ConnectionPool.dfy` | pooled database connections: the sticky health flag, permits, the idle stack, checkout, prewarm, `release` and `Drop` |
| `Metadata.dfy`, `MetadataActor.dfy` | the database actor's metadata: schema, bindings, managed ids and the persisted snapshot, with SQL failures, crashes and restarts |
| `Text.dfy`, `TelemetryParser.dfy`, `TelemetryExactness.dfy`, `TelemetryValue.dfy` | the tuple-list telemetry format: the parser, a printer, and exactly which lists it reads back; the value-and-unit pattern of a sample's data |
| `DataPointRegistry.dfy` | the dynamic datapoint registry against the log of everything it was asked |
| `ServiceHierarchy.dfy` | the service tree: registration by path, priority order, traversal, selections |
| `RtBudget.dfy`, `RtMonitor.dfy`, `PositionSync.dfy` | the overrun latch, timespec arithmetic and the monitor loop, jitter statistics, fixed-point positions |
| `DbWriter.dfy` | the batching writer and its two ways of ending |

`dafny verify dfyconfig.toml` checks everything.

Where several tasks run at once (event queue, pool, actor, writer) the model is a step system: a task is a program
point between two awaits, an action is one atomic step of one task, and the outcome of everything outside (connect,
ping, reset, SQL) is part of the action. `Step` says what one action does, `Exec` runs a sequence of actions, and a
theorem about all runs is a lemma about every sequence. Everything else keeps the source's form: classes whose
methods update fields, loops with invariants, proved against functions of the old state.

What the code does, where its comments or tests suggest something else (the model follows the code):

* A session's connection is recycled on return when it was last *returned* (or opened) longer than `max_idle` ago, so
  one long use counts as idleness (connector.rs:211-216, 276-315; `ReturnDecidesByOldStamp`, `LongUseIsRecycled`).
* `max_size` bounds live sessions, not open connections: each `Drop` can add one, each prewarm loop `min_size`, and all
  of it at once (`BoundIsAttained`, `ExceedsMaxSizeIff`).
* Two awaiting `pop` callers can leave one asleep beside a queued event, with no task left that could move, since two
  pushes coalesce into one stored permit; likewise two awaiting `push` callers. It takes at least two slots
  (`StallsIffTwoSlots`).
* A failed bootstrap is only logged and commands are served all the same (postgresimpl.rs:378-385). The first of them that
  persists writes a memory that was never filled over all bindings on disk (`GapCommandLosesAll`, `OkFromNothingWipes`);
  nothing else loses a binding that no command is about and whose target stays in the schema (`DurableIffNoGapWrite`).
* `RegisterBinding` answers Ok even when the new binding is pruned at once, and the id's former binding is then gone
  (`RegistrationAnswersOk`).
* `CreateTable` on a tracked table is a no-op in the database but overwrites the tracked columns, prunes bindings and
  leaves the managed ids alone (`SettledAfterOkIff`, `CreateTableKeepsIdsExactIff`).
* `register("root/realtime", s)` puts `s` directly under the root, not under `realtime`
  (`LastComponentIsIgnored`, `LandsAtPathIff`), and a service registered under a name that an earlier sibling of at least its priority
  has cannot be looked up (`RegisteredIsFoundIff`).
* An array's type is that of its first element whatever the others are, where the comment promises a homogeneous type or
  Object: `[1, "x"]` passes for an array of integers (`MixedArrayIsAccepted`, `AcceptedMeansFitsIff`). A declared decimal or custom type accepts only null, not even a
  value of its own type (`RichTypesAcceptOnlyNull`).
* `stop` with operations in the writer's channel may process all of them or lose all of them (`StopMayLoseOrKeep`).
* A value written directly before a unit that starts like a decimal part is read as another value
  (`AdjoiningReadsBackIff`).

## Model

| member | source | states |
|---|---|---|
| RingBuffer.RingState.Push | engine/fischertechnikdtengine/src/eventsystem/eventqueue.rs:88-96 | A push on the array and cursors is an append to a bounded FIFO, or `Full` with nothing changed; afterwards exactly the slots of the window are filled. |
| RingBuffer.RingState.Pop | engine/fischertechnikdtengine/src/eventsystem/eventqueue.rs:98-106 | A pop takes the oldest element of the FIFO, or answers `Empty` with nothing changed; the slot read is always filled, so the `expect` cannot fire. |
| RingBuffer.RingState.TailIsHeadPlusLen | engine/fischertechnikdtengine/src/eventsystem/eventqueue.rs:59-107 | The cursor law `tail = (head + len) mod capacity` holds in every valid ring. |
| EventQueue.InvStep | engine/fischertechnikdtengine/src/eventsystem/eventqueue.rs:133-208 | Every step of any number of tasks keeps lock ownership, the match between sleepers and waiter lists, and liveness: once the ring was used, some side could proceed and a wake-up of that side is stored, pending or being acted on. |
| EventQueue.NoMutualStall | engine/fischertechnikdtengine/src/eventsystem/eventqueue.rs:133-208 | For any number of callers of all four calls: whenever a pusher and a popper are both asleep, some side is ready with its wake-up under way, and some task can run. |
| EventQueue.SoleCallerIsWoken | engine/fischertechnikdtengine/src/eventsystem/eventqueue.rs:159-208 | A sole awaiting `pop` (or, dually, `push`) caller beside any number of other callers is never asleep while it could proceed, except that the lock holder's very next step wakes it. |
| EventQueue.TwoWaitersCanStall | engine/fischertechnikdtengine/src/eventsystem/eventqueue.rs:159-208 | On either side and for every capacity of at least 2, two awaiting callers and two calls that should wake them reach a state with a ready side, a sleeper of that side and no task that can move. |
| EventQueue.OneSlotNeverStalls | engine/fischertechnikdtengine/src/eventsystem/eventqueue.rs:159-208 | With capacity 1 and any number of callers, a sleeper of a ready side always has a task carrying its wake-up, and some task can run. |
| EventQueue.StallsIffTwoSlots | engine/fischertechnikdtengine/src/eventsystem/eventqueue.rs:133-208 | For every positive capacity and either side: a reachable state with a ready side, a sleeper of it and no runnable task exists if and only if the capacity is at least 2. |
| EventQueue.ExactlyOnceInOrder | engine/fischertechnikdtengine/src/eventsystem/eventqueue.rs:88-208 | In every run the accepted events, logged with the call that pushed each, are the delivered ones followed by the queued ones; each is in the log exactly once for one call answered `Pushed`, and delivered exactly once to one caller, who holds just that; the bound is kept. |
| EventQueue.AnswersAreTrue | engine/fischertechnikdtengine/src/eventsystem/eventqueue.rs:133-208 | In every reachable state a finished call answers `Pushed` if and only if it is a push whose event was accepted from it, an event if and only if it is a pop it was delivered to, and an error only if it does not wait: `Busy`, or `Full` for a push and `Empty` for a pop. |
| EventQueue.AccessAnswers | engine/fischertechnikdtengine/src/eventsystem/eventqueue.rs:88-208 | Under the lock a push succeeds exactly if there is room and a pop exactly if there is an event, at the right end; otherwise nothing changes, a waiting call goes on to wait and a try call ends with its error. |
| EventQueue.WhoCanMove | engine/fischertechnikdtengine/src/eventsystem/eventqueue.rs:133-208 | Any call may begin at any time; whoever neither sleeps nor has finished can move, at the lock only while it is free; only a try call can be refused there, with `Busy`. |
| EventQueue.SleepersAreWokenInOrder | engine/fischertechnikdtengine/src/eventsystem/eventqueue.rs:159-208 | Under every step of every task: a poll without a permit joins the end of its side's list, a notification wakes the first of it or stores one permit, the next poll takes that permit, and nothing else touches list or permit. |
| WorkflowEngine.Engine.WithBudget | engine/fischertechnikdtengine/src/eventsystem/workflowengine.rs:19-22 | The budget is never below one. |
| WorkflowEngine.Engine.TryPush | engine/fischertechnikdtengine/src/eventsystem/eventqueue.rs:133-156 | The non-blocking push: `Busy` on contention, otherwise the FIFO's answer, and only an Ok adds to the accepted events. |
| WorkflowEngine.Engine.TryPop | engine/fischertechnikdtengine/src/eventsystem/eventqueue.rs:188-193 | The non-blocking pop: `Busy` on contention, otherwise the FIFO's answer and the oldest event. |
| WorkflowEngine.Engine.Tick | engine/fischertechnikdtengine/src/eventsystem/workflowengine.rs:25-36 | With pushes arriving and contention at any point, accepted = handled ++ queued and at most the budget is handled; if no pop meets contention at least min(budget, queued) events are, whatever arrives; undisturbed, exactly the oldest min(budget, queued), in order. |
| WorkflowEngine.Engine.TickRepeatedly | engine/fischertechnikdtengine/src/bin/mainold.rs:102-114 | With no pushes or contention the ticks handle the queue in order and it is empty exactly from ceil(n / budget) ticks on. |
| WorkflowEngine.DrainsInCeilTicks | engine/fischertechnikdtengine/src/eventsystem/workflowengine.rs:25-36 | The count behind it: n events are gone after k quiet ticks if and only if ceil(n / budget) <= k. |
| ProtocolConnection.Connection.IsHealthy | databases/abstractdatabase/src/client/protocol.rs:176-183 | An unhealthy connection answers false without a ping; otherwise the ping's outcome is answered and recorded. |
| ProtocolConnection.Connection.ResetSession | databases/abstractdatabase/src/client/protocol.rs:185-192 | A failed reset marks the connection unhealthy; a successful one clears the session but not the mark. |
| ProtocolConnection.UnhealthyForEver | databases/abstractdatabase/src/client/protocol.rs:176-192 | Whatever calls follow, the flag is exactly "no ping or reset ever failed", so an unhealthy connection fails every later check. |
| ProtocolConnection.HealthyIffNothingFailed | databases/abstractdatabase/src/client/protocol.rs:176-192 | In terms of the calls alone: after any pings, resets and traffic a connection is healthy if and only if it was and no ping or reset of them failed, and a health check answers true if and only if it is and its own ping succeeds. |
| ProtocolConnection.DirtyIffTrafficLast | databases/abstractdatabase/src/client/protocol.rs:185-192 | Session state is left over if and only if there was traffic after the last successful reset. |
| ProtocolConnection.ConnectsIff | databases/abstractdatabase/src/client/protocol.rs:228-247 | A connection exists if and only if transport and handshake both succeeded, and is then healthy and clean. |
| ConnectionPool.MoveBalances | databases/abstractdatabase/src/client/connector.rs:137-315 | No awaited step creates or destroys a permit, an orphan or a loop, and a loop stays within its round's budget. |
| ConnectionPool.PoolStep | databases/abstractdatabase/src/client/connector.rs:137-315 | Every action keeps permit conservation and the bound on connections open or already decided to be opened. |
| ConnectionPool.OpenConnectionsBounded | databases/abstractdatabase/src/client/connector.rs:137-315 | In every interleaving the open connections are at most `max_size` + `min_size` per prewarm loop + one per `Drop`; so at most `max_size` with `release` only, and `max_size + min_size` with one prewarm loop. |
| ConnectionPool.BoundIsAttained | databases/abstractdatabase/src/client/connector.rs:137-315 | Under every configuration with a positive `max_size`, and for any numbers of prewarm loops and drops, a run attains that bound exactly. |
| ConnectionPool.ExceedsMaxSizeIff | databases/abstractdatabase/src/client/connector.rs:137-315 | More than `max_size` connections can be open, with so many prewarm loops and drops, if and only if `max_size` is positive and there is a drop, or a loop with a positive `min_size`. |
| ConnectionPool.SessionsBounded | databases/abstractdatabase/src/client/connector.rs:124-204 | Free and held permits always sum to `max_size`, so live sessions never exceed it, also with `Drop` and prewarm. |
| ConnectionPool.PlaceStep | databases/abstractdatabase/src/client/connector.rs:160-315 | Every action keeps each issued connection id in exactly one place, idle, in one task's hands or closed, and no other id anywhere. |
| ConnectionPool.NoSharing | databases/abstractdatabase/src/client/connector.rs:160-315 | A connection in one task's hands is in no other's, not idle and not closed. |
| ConnectionPool.QualityStep | databases/abstractdatabase/src/client/connector.rs:160-315 | Every action keeps idle connections handshaken, healthy and reset since their last traffic, a checkout's health check not yet done until it is done, the times of its pop and recycle check in order with the connection's stamp and the clock, and records only good grants. |
| ConnectionPool.GrantsAreGood | databases/abstractdatabase/src/client/connector.rs:168-204 | Every connection ever handed out had finished its handshake, had never failed a check and was reset since earlier traffic; if reused, it was pinged after its pop, and at the time of the recycle check, after the pop, was not idle beyond `max_idle` by its own stamp; everything held was granted with the stamp it still has. |
| ConnectionPool.CheckoutReusesIff | databases/abstractdatabase/src/client/connector.rs:160-204 | From every reachable state with an idle connection, a checkout hands out the top of the stack, opening and closing nothing, if and only if its stamp is fresh and its ping succeeds; otherwise it closes it and connects. |
| ConnectionPool.ConnectsOrGivesUp | databases/abstractdatabase/src/client/connector.rs:160-204 | A checkout that connects hands out a new, handshaken connection stamped now, or on failure ends with its permit back and nothing granted. |
| ConnectionPool.FailureIsNeverGranted | databases/abstractdatabase/src/client/connector.rs:160-315 | A failed connect, ping or reset leads to closing or giving up, never to a grant, the recycle check or the idle stack. |
| ConnectionPool.PermitsAndTraffic | databases/abstractdatabase/src/client/connector.rs:158-204 | A session waits exactly while no permit is free, may time out exactly while it waits, taking nothing with it, and traffic marks the connection. |
| ConnectionPool.ReturnDecidesByOldStamp | databases/abstractdatabase/src/client/connector.rs:211-315 | On both return paths the connection is closed if and only if the stamp it was granted with, its last return before or its opening, is more than `max_idle` ago. |
| ConnectionPool.ReleaseRecyclesIffOld | databases/abstractdatabase/src/client/connector.rs:276-292 | A whole `release` with successful reset and check closes the connection if that stamp is too old, and otherwise stores it with a new stamp; the permit comes back either way. |
| ConnectionPool.LongUseIsRecycled | databases/abstractdatabase/src/client/connector.rs:276-292 | Under every configuration with a limit and a positive `max_size`, a connection opened, used for longer than the limit and released is closed, though it was never idle. |
| ConnectionPool.ReturnStoresIff | databases/abstractdatabase/src/client/connector.rs:211-315 | On both return paths, `release` and the orphan of a `Drop`, the connection goes on top of the idle stack with a new stamp if and only if it is healthy, reset and check succeed and its old stamp is fresh; otherwise it is closed; only `release` gives a permit back. |
| ConnectionPool.RoundTopsUp | databases/abstractdatabase/src/client/connector.rs:137-254 | With a free permit and no failures a prewarm round raises the idle stack to exactly `min_size`, or leaves it if there are as many, and holds no permit afterwards. |
| ConnectionPool.FailedAttempt | databases/abstractdatabase/src/client/connector.rs:137-254 | An attempt without a permit, and one whose connect fails, use up one attempt of the round and change nothing else. |
| Metadata.Store.PruneBindings | databases/postgresdb/src/postgresimpl.rs:231-243 | Retaining in place keeps exactly the bindings whose table, and column if any, are tracked. |
| Metadata.Store.Update | databases/postgresdb/src/postgresimpl.rs:416-633 | The write-locked block of every command, in place, is the memory change that the crash model uses. |
| Metadata.Store.ManageBoundIds | databases/postgresdb/src/postgresimpl.rs:449-455 | Clearing and refilling the managed ids makes them exactly the bound ids. |
| Metadata.UpdatedIsConsistent | databases/postgresdb/src/postgresimpl.rs:416-764 | Every command's memory change keeps all bindings pointing at tracked tables and columns. |
| Metadata.DropsAreSchemaThenPrune | databases/postgresdb/src/postgresimpl.rs:528-620 | The hand-written filters of DropTable and DropColumn equal "change the schema, then prune". |
| Metadata.RegistrationTakesEffectIff | databases/postgresdb/src/postgresimpl.rs:435-462 | After RegisterBinding the id is bound, to the new binding, if and only if the target is tracked; otherwise it is unbound; other ids are untouched. |
| Metadata.ValidIdentIff | databases/postgresdb/src/postgresimpl.rs:52-65 | A name is an identifier if and only if it is a non-empty text of ASCII letters, digits and underscores that does not start with a digit. |
| Metadata.AcceptedIff | databases/postgresdb/src/postgresimpl.rs:411-764 | A command is let through if and only if every name it brings is an identifier and it does not change the schema of the metadata table. |
| MetadataActor.EveryRun | databases/postgresdb/src/postgresimpl.rs:343-764 | With any SQL failures, crashes and foreign schema changes: bindings in memory and in every written snapshot resolve, bound ids are managed between commands, and an Ok answer means disk equals memory. |
| MetadataActor.ExactStepIff | databases/postgresdb/src/postgresimpl.rs:343-764 | From exact managed ids every single step keeps them exact if and only if it is not AddManagedId with an unbound id and not the memory stage of a CreateTable that drops a binding. |
| MetadataActor.ManagedIdsExact | databases/postgresdb/src/postgresimpl.rs:343-764 | Managed ids equal bound ids between commands in every run without such steps. |
| MetadataActor.CreateTableKeepsIdsExactIff | databases/postgresdb/src/postgresimpl.rs:484-516 | From its memory stage to its answer, CreateTable leaves exact managed ids exact if and only if every bound column of that table is in the new definition. |
| MetadataActor.AddManagedIdKeepsIdsExactIff | databases/postgresdb/src/postgresimpl.rs:411-415 | AddManagedId leaves exact managed ids exact if and only if the id is bound. |
| MetadataActor.RegistrationAnswersOk | databases/postgresdb/src/postgresimpl.rs:435-462 | With every statement succeeding, RegisterBinding is answered Ok whatever its target, with disk equal to memory; the id is then bound to it if and only if the target is tracked, and otherwise unbound. |
| MetadataActor.BootstrapIdempotent | databases/postgresdb/src/postgresimpl.rs:343-385 | After a crash, any number of failed or crashed bootstraps before the first success, and commands served after failed ones whose schema statements and persists are rejected, change nothing about its result. |
| MetadataActor.DurableIffNoGapWrite | databases/postgresdb/src/postgresimpl.rs:343-764 | Over every run from a crash on, with any commands, failures, crashes and schema changes: a persisted binding that no command is about and whose target stays in the schema is back in memory and on disk, whenever the memory has been filled and the actor is idle, if and only if no command wrote its snapshot in a life whose memory was never filled. |
| MetadataActor.OkFromNothingWipes | databases/postgresdb/src/postgresimpl.rs:378-764 | From an empty memory, any one command but AddManagedId that is answered Ok leaves no binding on disk. |
| MetadataActor.GapCommandLosesAll | databases/postgresdb/src/postgresimpl.rs:343-385 | From every state a crash, a bootstrap whose first statement is rejected, a RefreshSchema answered Ok and a flawless restart end with no bindings: a concrete run. |
| MetadataActor.CrashAtomicity | databases/postgresdb/src/postgresimpl.rs:343-764 | From a settled state, a crash between any two stages of any command and such a recovery give bindings and real schema both as if it never ran or both as if it ran to completion, with managed ids, disk and tracked schema in agreement. |
| MetadataActor.OkMeansCompleted | databases/postgresdb/src/postgresimpl.rs:411-764 | A command that answers Ok has reached exactly its completed memory, real schema and managed ids, and the memory is on disk. |
| MetadataActor.CommandDoes | databases/postgresdb/src/postgresimpl.rs:411-764 | From every idle state, tracked schema equal to the real one or not, an accepted command whose statements succeed is answered Ok and has done, table by table and binding by binding, what its name says: after RefreshSchema the memory tracks the real schema, is on disk, and keeps exactly the bindings that resolve in it; likewise for the other eight commands, in the database, in memory, in the managed ids and on disk. |
| MetadataActor.SettledAfterOkIff | databases/postgresdb/src/postgresimpl.rs:411-764 | A command answered Ok leads from a settled state to a settled one, tracked schema equal to the real one, if and only if it is not a CreateTable on an existing table with other columns. |
| TelemetryParser.ReadTuple | gateway_old/mqtt/src/models/parser.rs:114-130 | The loop over a tuple's parts ends with the last value of each key, under any of its names. |
| TelemetryParser.ParseCustomTupleList | gateway_old/mqtt/src/models/parser.rs:86-144 | The parser's two loops compute the sample sequence that the round trip is about. |
| TelemetryParser.RoundTrip | gateway_old/mqtt/src/models/parser.rs:86-144 | Printing any list of samples in the documented form and parsing it gives back the same topics, data and raw datetimes, in order, for fields without comma, final parenthesis, edge whitespace or edge quotes and with non-empty data. |
| TelemetryExactness.RoundTripIff | gateway_old/mqtt/src/models/parser.rs:86-144 | The converse too: a printed list is read back under every message topic if and only if all its samples are of that kind. |
| TelemetryExactness.OneSampleUncut | gateway_old/mqtt/src/models/parser.rs:95-144 | A text with two commas yields at most one sample with all its fields, and then no false tuple boundary has cut it. |
| TelemetryParser.ParsedIsReadable | gateway_old/mqtt/src/models/parser.rs:100-144 | For every input text: no sample has empty data, and no field has a comma or a quote at an end. |
| TelemetryParser.AnySpellingReads | gateway_old/mqtt/src/models/parser.rs:102-141 | A tuple with its keys in any order and case, repeated, unknown or under the aliases `value`, `ts` and `time`: the last value under each name counts, the message's topic stands in for a missing one, a missing datetime means now, and without data or with empty data there is no sample. |
| TelemetryParser.BracesAreOptional | gateway_old/mqtt/src/models/parser.rs:86-100 | Outer braces and the blanks around them change nothing about what is parsed. |
| Text.LowerByLetter | gateway_old/mqtt/src/models/parser.rs:118 | Lower-casing takes each capital of the alphabet to the small letter at its place and leaves the rest. |
| TelemetryValue.ScanIsLongestMatch | gateway_old/mqtt/src/models/parser.rs:162-178 | The value-and-unit pattern matches if and only if a scanner without backtracking finds a match; its number is the longest of any match, and its unit that of every match with this number. |
| TelemetryValue.SpacedReadsBack | gateway_old/mqtt/src/models/parser.rs:162-178 | Any number and any unit with blanks between them are read back. |
| TelemetryValue.AloneReadsBack | gateway_old/mqtt/src/models/parser.rs:162-178 | A number alone is read back without a unit. |
| TelemetryValue.AdjoiningReadsBackIff | gateway_old/mqtt/src/models/parser.rs:162-178 | Without a blank, number and unit are read back if and only if the unit does not continue the number as its decimal part. |
| TelemetryValue.NumberOfIff | gateway_old/mqtt/src/models/parser.rs:167-169 | The number is given if and only if its characters are ASCII, and is then the matched text character by character, with only the comma made a point. |
| TelemetryValue.UnitsAreUnits | gateway_old/mqtt/src/models/parser.rs:162-178 | Whatever text arrives, a unit that is read starts with neither a digit nor a blank, ends in no blank and has no line break. |
| DataPointRegistry.AgreesStep | databases/abstractdatabase/src/model/serialization.rs:221-320 | One call on the two maps keeps them in agreement with the log, and a write succeeds exactly when the log says so. |
| DataPointRegistry.RegistryRefinesLog | databases/abstractdatabase/src/model/serialization.rs:221-320 | For every log: metadata is the last definition of the id, the current value the last accepted write, and a name leads to the id last defined under it. |
| DataPointRegistry.NamesNeverDangle | databases/abstractdatabase/src/model/serialization.rs:243-310 | Every id that a name leads to is defined. |
| DataPointRegistry.SchemaLeavesItsLast | databases/abstractdatabase/src/model/serialization.rs:248-253 | A schema leaves, per id and per name, its last definition, keeps current values and touches nothing else. |
| DataPointRegistry.ApplySchemaIdempotent | databases/abstractdatabase/src/model/serialization.rs:248-253 | Applying a schema twice equals applying it once. |
| DataPointRegistry.CompatibleTransitive | databases/abstractdatabase/src/model/serialization.rs:331-352 | Type compatibility is transitive. |
| DataPointRegistry.CompatibleWithItselfIff | databases/abstractdatabase/src/model/serialization.rs:331-352 | A type accepts itself if and only if its innermost element type is neither decimal nor custom. |
| DataPointRegistry.RichTypesAcceptOnlyNull | databases/abstractdatabase/src/model/serialization.rs:331-352 | A declared decimal or custom type accepts a value's type if and only if it is null. |
| DataPointRegistry.AcceptingTypes | databases/abstractdatabase/src/model/serialization.rs:85-352 | For every value exactly the declared types that accept it: all for null, its own and F64 for integers, its own alone for the other scalars and objects, and for an array the array types whose element type accepts the first element. |
| DataPointRegistry.InferredTypesAcceptThemselves | databases/abstractdatabase/src/model/serialization.rs:85-107 | The inferred type of every value accepts itself. |
| DataPointRegistry.InferredTypeDescribesIff | databases/abstractdatabase/src/model/serialization.rs:97-104 | The inferred type describes every element of nested arrays if and only if all their leaves agree with the first leaf: same depth and a type the first accepts, nulls no deeper, empty arrays above it. |
| DataPointRegistry.AcceptedMeansFitsIff | databases/abstractdatabase/src/model/serialization.rs:97-104 | A write that passes the type check fits the declared type element by element, whatever was declared, if and only if the same condition holds. |
| DataPointRegistry.MixedArrayIsAccepted | databases/abstractdatabase/src/model/serialization.rs:97-104 | An array of an integer and a string passes for an array of integers and does not fit it. |
| DataPointRegistry.AutoDefinedKeepsAccepting | databases/abstractdatabase/src/model/serialization.rs:268-320 | A point defined on the fly accepts values of its first value's type until its id is redefined, whatever else happens. |
| DataPointRegistry.Registry.UpsertMeta | databases/abstractdatabase/src/model/serialization.rs:221-245 | A definition replaces the metadata, keeps the current value and records the name; the maps stay the replay of the log. |
| DataPointRegistry.Registry.ApplySchema | databases/abstractdatabase/src/model/serialization.rs:248-253 | The loop over a schema is the fold that idempotence is about. |
| DataPointRegistry.Registry.SetValue | databases/abstractdatabase/src/model/serialization.rs:268-320 | A write succeeds exactly when the log's last definition accepts its type, or, for an unknown id, when auto-definition is on; a refusal changes nothing, a write to a known id changes its current value alone, and one to an unknown id defines it with the inferred type, the given tags and the given name or else its id. |
| DataPointRegistry.Registry.GetById | databases/abstractdatabase/src/model/serialization.rs:255-258 | Lookup by id answers with the log's last definition and last accepted write. |
| DataPointRegistry.Registry.GetByName | databases/abstractdatabase/src/model/serialization.rs:260-264 | Lookup by name succeeds exactly when the name was ever defined and answers with the point of the id last defined under it. |
| ServiceHierarchy.Hierarchy.AddChild | services/servicemanagement/src/hierarchy.rs:98-116 | The insertion loop puts the child before the first of lower priority and keeps the tree valid. |
| ServiceHierarchy.AddedIsValid | services/servicemanagement/src/hierarchy.rs:98-116 | Adding a child anywhere keeps every child list sorted by priority with ties in registration order, and parents and child lists in agreement. |
| ServiceHierarchy.Hierarchy.FindByPath | services/servicemanagement/src/hierarchy.rs:159-173 | The path loop follows each non-empty component to the first child of that name, skipping one that names the current node. |
| ServiceHierarchy.Hierarchy.Register | services/servicemanagement/src/hierarchy.rs:251-269 | Registration succeeds exactly when the path before the last slash resolves; success adds exactly one node below it, failure none. |
| ServiceHierarchy.LastComponentIsIgnored | services/servicemanagement/src/hierarchy.rs:251-264 | The last path component never influences the parent. |
| ServiceHierarchy.PlainPathIsBelowRoot | services/servicemanagement/src/hierarchy.rs:251-256 | A path without a slash, or with a leading one only, has the root as its parent. |
| ServiceHierarchy.LandsAtPathIff | services/servicemanagement/src/hierarchy.rs:159-264 | Registering at a path puts the service below the very node found at that path if and only if the path ends in a slash or repeats that node's own name. |
| ServiceHierarchy.RegisteredIsFoundIff | services/servicemanagement/src/hierarchy.rs:98-280 | Looking up parent path and name finds the service just registered if and only if its name is not empty and has no slash, differs from the parent's, and no sibling of that name has the same or a higher priority. |
| ServiceHierarchy.NodesAreSuccesses | services/servicemanagement/src/hierarchy.rs:98-269 | After any sequence of registrations the nodes are the root and exactly the services of the successful ones, in order: each success adds one node, each failure none. |
| ServiceHierarchy.RegistrationsKeepTheTree | services/servicemanagement/src/hierarchy.rs:98-269 | After any sequence of registrations from the empty hierarchy the tree is valid, and every node keeps its data and parent from its registration on. |
| ServiceHierarchy.TraversalVisitsOnceAtDepth | services/servicemanagement/src/hierarchy.rs:176-193 | The traversal visits every node exactly once, at its distance from the root. |
| ServiceHierarchy.TraversalIsInOrder | services/servicemanagement/src/hierarchy.rs:176-193 | Of any two visits the earlier one is above the later one, or both lie below two children of one node of which the earlier visit's comes first. |
| ServiceHierarchy.Hierarchy.TraverseFrom | services/servicemanagement/src/hierarchy.rs:183-193 | The recursive visitor produces exactly that preorder. |
| ServiceHierarchy.Hierarchy.CollectByType | services/servicemanagement/src/hierarchy.rs:221-230 | The collected services are exactly the matching enabled subsequence of the preorder. |
| ServiceHierarchy.Hierarchy.CollectLeaves | services/servicemanagement/src/hierarchy.rs:202-212 | The collected leaves are exactly the childless subsequence of the preorder. |
| ServiceHierarchy.EnabledOfTypeIff | services/servicemanagement/src/hierarchy.rs:214-230 | Asked at the root, the collector by type gives every enabled service of the type exactly as often as it is registered, and no other. |
| ServiceHierarchy.LeavesAreParentsOfNone | services/servicemanagement/src/hierarchy.rs:195-212 | Asked at the root, the collector of leaves gives exactly the services that are no node's parent, as often as registered. |
| RtBudget.RequestMeets | services/servicemanagement/src/manager.rs:145-202 | Every registration, configuration and tick keeps a manager's fields what its log makes of them: the last threshold set, and for every service the fold over its own times since its registration. |
| RtBudget.RegisterMeets | services/servicemanagement/src/manager.rs:150-158 | Registering at any point of a manager's life adds a service without past times and changes nobody else's statistics, where statistics are defined by each service's own times since its registration. |
| RtBudget.ConfigureMeets | services/servicemanagement/src/manager.rs:145-147 | Changing the threshold at any point of a manager's life changes no service's statistics so far. |
| RtBudget.TickMeets | services/servicemanagement/src/manager.rs:178-202 | The statistics that each service's own times give after one more tick are those before it, each counted once under the threshold then in force. |
| RtBudget.ServiceManager.UpdateStats | services/rtservices/src/rt_guard.rs:53-79 | The field-by-field update counts the call, the overrun and the maximum, and sets the latch exactly at an overrun that reaches the threshold. |
| RtBudget.ServiceManager.TickRt | services/servicemanagement/src/manager.rs:178-202 | The loop ticks every service by itself and leaves disabled ones untouched, and the statistics stay those of each service's own times through any mix of registrations, configurations and ticks. |
| RtBudget.ServicesAreIndependent | services/servicemanagement/src/manager.rs:178-202 | After any ticks a service's statistics are the fold over its own elapsed times. |
| RtBudget.RunsUpToTheDthOverrun | services/rtservices/src/rt_guard.rs:53-79 | With threshold D >= 1 a service runs up to and including its D-th overrun and never after; calls, overruns, last and longest time are those of exactly that prefix. |
| RtBudget.RunsUpToTheTrip | services/rtservices/src/rt_guard.rs:53-79 | However the threshold changes, 0 included, a service runs up to and including the first overrun whose count reaches the threshold then in force, and never after; its statistics are exactly those of that run. |
| RtBudget.FixedThresholdFold | services/servicemanagement/src/manager.rs:178-202 | Under one threshold the statistics a manager keeps are the fold the D-th overrun theorem is about. |
| RtBudget.DisabledForEver | services/servicemanagement/src/manager.rs:178-202 | Once disabled, a service's statistics are frozen however the threshold changes. |
| RtBudget.OverrunsNeverPassTheThreshold | services/rtservices/src/rt_guard.rs:65-77 | The overrun counter never passes a bound on the thresholds, so it cannot wrap. |
| DbWriter.InvStep | services/nonrtservices/src/services/db_writer.rs:71-181 | Every step keeps accepted = processed ++ batch ++ channel, and full batches. |
| DbWriter.NothingLostButTheChannel | services/nonrtservices/src/services/db_writer.rs:71-181 | In every run nothing accepted is lost, duplicated or reordered; all batches but a last one have the batch size; ending by a closed channel processes everything, ending by shutdown loses exactly the channel's rest. |
| DbWriter.ExactlyAfterStop | services/nonrtservices/src/services/db_writer.rs:71-181 | In every run, in terms of what was done in it: accepted is what was offered, in order; without `stop` the worker works; it ends by shutdown only after `stop`, and on a closed channel only after `stop` and the last clone; and exactly when a submission is accepted and each other step is possible. |
| DbWriter.StopMayLoseOrKeep | services/nonrtservices/src/services/db_writer.rs:119-181 | From every reachable state with a living worker and no sender clones, `stop` has a continuation that loses the whole channel and one that processes everything. |
| DbWriter.ExitIsFinal | services/nonrtservices/src/services/db_writer.rs:119-181 | After the worker's exit nothing is accepted or processed any more. |
| DbWriter.Work | services/nonrtservices/src/services/db_writer.rs:119-156 | The worker loop's batches, concatenated, are what it received, and all but the last are full. |
| RtMonitor.Timespec.AddNs | services/rtservices/src/rt_checker.rs:418-427 | Adding any signed number of nanoseconds moves the instant by exactly that and leaves the nanosecond field in [0, 10^9). |
| RtMonitor.AddThenDiff | services/rtservices/src/rt_checker.rs:418-432 | The difference after an addition is the amount added, for both signs. |
| RtMonitor.NormalFormIsUnique | services/rtservices/src/rt_checker.rs:418-427 | A normalized time is determined by its instant. |
| RtMonitor.AddFits | services/rtservices/src/rt_checker.rs:418-427 | No intermediate of the addition leaves 64 bits for seconds and amounts within half the range. |
| RtMonitor.DiffFits | services/rtservices/src/rt_checker.rs:430-432 | No intermediate of the difference leaves 64 bits for instants less than half the range apart. |
| RtMonitor.WatchFits | services/rtservices/src/rt_checker.rs:359-432 | For bounded starts, a bounded whole way of periods and readings within bounds of their deadlines, no intermediate of any turn of the loop leaves 64 bits. |
| RtMonitor.Monitor.RaiseMax | services/rtservices/src/rt_checker.rs:394-407 | The compare-and-exchange loop, with any spurious failures, ends with the maximum. |
| RtMonitor.Monitor.Watch | services/rtservices/src/rt_checker.rs:359-412 | The k-th deadline is exactly start + k periods, and samples, misses and worst lateness are those of the whole trace of clock readings. |
| RtMonitor.MissesAreCounted | services/rtservices/src/rt_checker.rs:389-391 | The miss counter is the number of wake-ups that came later than a whole period after their deadline. |
| RtMonitor.WorstLateIsLargest | services/rtservices/src/rt_checker.rs:393-407 | The recorded maximum is at least every lateness, and one of them unless it is 0. |
| RtMonitor.JitterStats.Record | services/rtservices/src/rt_checker.rs:49-60 | Minimum, maximum, count, histogram and mean are those of everything recorded. |
| RtMonitor.RollingMean | services/rtservices/src/rt_checker.rs:53-55 | The rolling update keeps the exact mean. |
| RtMonitor.BucketsPartition | services/rtservices/src/rt_checker.rs:57-59 | Every sample is in exactly one of the ten buckets. |
| RtMonitor.BucketsCount | services/rtservices/src/rt_checker.rs:57-59 | Bucket b counts the samples from 10b up to 10b + 10 microseconds, the last one those from 90 on. |
| RtMonitor.LeastAndGreatest | services/rtservices/src/rt_checker.rs:49-51 | Minimum and maximum bound all samples and are among them. |
| PositionSync.StoredWithinAStepIff | services/rtservices/src/services/position_sync.rs:31-37 | A stored coordinate is less than 0.001 below the true one if and only if it lies between -1,000,000 and the end of the unsigned range. |
| PositionSync.FixedIsStable | services/rtservices/src/services/position_sync.rs:31-37 | A loaded value stores back to the same fixed-point number. |
| PositionSync.AtomicPosition.Store | services/rtservices/src/services/position_sync.rs:47-51 | After a store a load gives the position rounded down to the fixed point. |
| PositionSync.SyncService.TickOn | services/rtservices/src/services/position_sync.rs:134-158 | A tick on any loaded position leaves the sync counter alone if and only if on every axis the position differs from the last synced one by at most the threshold, and otherwise syncs; it ends within the threshold of it, and keeps every sync paid for by travelled way. |
| PositionSync.SyncService.StoreThenTick | services/rtservices/src/services/position_sync.rs:39-158 | When no store overlaps the tick the synced position is within threshold + 0.001 per axis of the stored one. |
| PositionSync.SyncService.SyncsAreBounded | services/rtservices/src/services/position_sync.rs:108-158 | Syncs times threshold never exceed the L1 length of the way through all loaded positions from the origin. |

## Left out

- EventQueue.NoMutualStall: assumes the documented behaviour of Tokio's mutex and `Notify`; dropping a call's future half-way is not modelled, and fairness is not either, so it says who can run, not when.
- EventQueue.ExactlyOnceInOrder: `push`, `pop`, `try_push` and `try_pop` are steps of tasks on values rather than methods of an object, because their meaning lies in the interleaving; the ring itself is the array of `RingBuffer`. Identifiers and timestamps of events are plain values.
- WorkflowEngine.Engine.Tick: pushes by others arrive between two pops of a tick, not in the middle of one.
- ConnectionPool.OpenConnectionsBounded: the pool is a step system on values, since every await lets other tasks run; a session's user calls the connection only through traffic, not `close`, `reset` or `ping` directly; `try_acquire` may fail in the model also when a permit is free.
- ConnectionPool.GrantsAreGood: the clock is any non-decreasing input; a future dropped in the middle of checkout or release is not modelled.
- MetadataActor.CrashAtomicity: column types, defaults and nullability are not part of a schema; introspection is one step; names are compared exactly, without PostgreSQL's folding of unquoted identifiers.
- MetadataActor.EveryRun: `Execute`, `ExecuteNoAck`, `Query` and row inserts are left out except as schema changes behind the actor's back; one database name.
- Metadata.Store.Update: JSON encoding of the snapshot is taken to be lossless.
- TelemetryParser.RoundTrip: the JSON attempt before it is taken to fail on this form, the datetime stays raw text, and lower-casing covers ASCII.
- TelemetryValue.ScanIsLongestMatch: the regular expression is stated as a predicate on the trimmed text, preferring the longest number as a greedy matcher does; the number stays text, its conversion to a 64-bit float being the library's; which characters are digits is a parameter.
- DataPointRegistry.RegistryRefinesLog: description, source and constraints are carried by a definition like its unit and are left out; floating-point values are reals; names and ids are their text.
- ServiceHierarchy.Hierarchy.AddChild: nodes are a growing sequence with indices for shared pointers, so the locks of single nodes and nodes shared between trees are not captured; description and metadata of a service are left out, and so is `remove_child`.
- RtBudget.ServiceManager.TickRt: elapsed times are inputs; errors of a service's own tick only log and are left out, and the call counter is unbounded.
- DbWriter.NothingLostButTheChannel: one value is one life from `start` on, a restart being a new one; what a batch does to the database is left out.
- RtMonitor.Monitor.Watch: clock readings are arbitrary inputs; affinity, scheduling and memory locking are left out; counters are unbounded.
- RtMonitor.JitterStats.Record: the mean is over reals, without rounding; `reset` and the interval measurement of `tick` are left out.
- PositionSync.SyncService.StoreThenTick: over reals, so up to rounding of 64-bit floats; a tick torn by overlapping stores is covered by `TickOn` only.
- The JSON payloads of the gateway: a library parser.
- Network, broker, SQL text and protocol handshakes: free outcomes of steps.
- Property store, service registry, command-line programs, mock engines and configuration builders: thin map wrappers that would only add easy members.
