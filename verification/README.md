# Verified model of the devedge SDK core

Dafny models of the parts of the SDK whose correctness depends on state kept across many calls:
tenant moves between cells, the transactional outbox, durable request idempotency, in-memory
transactions and aggregates, import ordering, LIKE escaping, the token bucket and the rules cache.
`dafny verify dfyconfig.toml` checks all of it.

## How it is built

- **Tenant moves (`Routes`, `Planes`, `MoveSystem`, `MoveLimits`, `MoveProgress`, `MoveControl`, `Gates`,
  `Admission`).**
  `MoveSystem` is a step system: any number of drivers, each with a program counter between two
  atomic calls on the routing table, the fence or the event barrier. A driver may stop for good
  anywhere, and a call may fail before or after its effect. Its main theorem, `ConcurrentSafety`,
  covers every interleaving; `MoveLimits.ExactlyWhenSafe` says for which configurations it holds
  and builds the losing runs for the others; `MoveProgress` shows that a driver left alone gets its
  move, resume or rollback done. `MoveControl` is the controller as an object over the
  three planes with one live driver and a crash possible after every effect; a joint invariant of
  route, fence and event policy is kept by every method, so recovery always has somewhere to go.
- **Outbox (`Outbox`, `Dispatch`).** Store, relay, bus and consumer as objects. Handlers, bus and
  process fail arbitrarily and other consumers interfere between a handler's check and its commit.
- **Idempotency (`IdempotencyStore`, `TransactionalDedup`, `ReserveDedup`).** One record store and the
  two protocols over it, the second as a step system over any number of callers and a clock.
- **Persistence (`MemoryRepo`, `TxParticipants`, `TxStores`, `NestedTx`, `TxSystem`, `TxProgress`,
  `Aggregates`, `TopoSorting`, `LikePattern`, `Sorting`, `Runs`).** `NestedTx` interprets a whole tree of nested
  `Atomically` calls. `TxSystem` interleaves any number of them one lock, one write and one unlock
  at a time and proves that every run is serial in commit order; `TxProgress` proves that no run
  gets stuck. `Aggregates` runs loads and saves of any number of sessions.
- **Bounds (`TokenBuckets`, `RulesFeed`).** Whole runs of the limiter over real numbers, and
  list-then-watch replication under arbitrary interleaving.

Calls the model cannot see (drain waits, preflight, budget, handlers, the bus, clocks) answer
arbitrarily or as an argument says. Epochs, revisions and sequence numbers are unbounded. Fresh values (etags, barrier ids)
are arguments.

## What turned out to need a condition

- Stored route records rise strictly in every run exactly when a fencer or an event barrier is
  configured; writes are single-writer exactly when a fencer is. A driver that adopts a newer record
  keeps its old barrier epoch and target (cells/move.go:262-264, 399), and only a forward-only plane
  stops it (`MoveLimits.ExactlyWhenSafe`).
- `Move` does not compare the plan's source cell with the tenant's active cell, and a failed or
  abandoned move rests the tenant on the plan's source cell. It comes back to where it was exactly
  when the plan named that cell or none (`MoveControl.RollsBackHomeExactly`);
  `MoveControl.RollsBackElsewhere` is a run that ends on a cell the tenant was never on.
- A successful `Move` means the plan's target exactly for tenants read resting
  (`MoveControl.SuccessOnTargetExactly`). A tenant found mid-move has that move settled instead: on
  success it is on that move's target, or back on its source when that move was overdue, because a
  late rollback is reported as success (cells/move.go:230-235, 493-495).
  `MoveControl.SucceedsElsewhere` is such a run.
- `Assign` never returns on an empty tenant id: the table refuses the empty id in every state, with
  the error of a lost race, and `Assign` starts over (cells/memtable.go:50-52, cells/move.go:526-530,
  `MoveControl.EmptyIdConflicts`).
- A barrier flip on a CLOSED gate keeps the old cutoff, so the returned `MaxSeq` bounds what is in
  flight exactly for gates that are not CLOSED (`Gates.FlipCutsOffUnlessClosed`).
- An outbox row is resolved exactly when it sorts after the cursor when it is appended; any other is
  skipped for good (`Dispatch.Dispatcher.Publish`, `Dispatch.Dispatcher.DrainedExactly`,
  `Outbox.BackdatedRowIsSkipped`).
- A row is dead-lettered only after its own publish was refused as often as configured, unless it was
  appended in front of a head row with counted failures: it then inherits that count
  (`Dispatch.Dispatcher.DeadOnlyWhenRefused`; `Dispatch.BuriedEarly` is a run in which one refusal is
  enough).
- Event ids that continue each other behind the separator share marker keys
  (`Dispatch.KeysApartExactly`).
- An acknowledged event ran all of its handlers exactly when their names are distinct: two handlers
  registered under one name share one marker, and only one of them ever runs
  (`Dispatch.Consumer.AllRanExactlyWhenDistinct`).
- Scopes of idempotency keys meet exactly when one begins with the other, which a NUL inside a tenant
  or a method brings about (`IdempotencyStore.ScopesMeetExactly`, `IdempotencyStore.NulSharesScope`).
- Collecting records up to a time in the future is visible to callers
  (`IdempotencyStore.CollectInvisible`). A reservation whose handler outlives its TTL lets a second
  handler in (`ReserveDedup.ExclusiveExactlyWhenTimely`), and its late completion then replaces the
  second handler's unexpired response (`ReserveDedup.DurableExactlyWhenTimely`).
- A nested `Atomically` joins the outer one when their runners share a participant, and otherwise is
  a transaction of its own (`NestedTx.NestedCall`). A joining call's repository writes outside the
  outer participants are not rolled back; exactly the other writes are (`NestedTx.UndoneExactly`). A
  nested call whose runner shares nobody with the outer one hangs exactly on a repository write to the
  outer set (`NestedTx.NestedWriteHangsExactly`), and `NestedTx.HangsExactly` says of any tree of calls
  when it hangs. Outbox stores are safe from all of this: an append outside the store's transaction is
  refused without a lock (`NestedTx.RowsNeedEnrolment`).
- Saves lose no update exactly when versions are compared and no root is saved with an empty etag
  (`Aggregates.NoLostUpdateExactly`); this is the comparison If-Match asks for in section 13.1.1 of
  RFC 9110, which an absent header skips. Root fields alone are not persisted by `Save`: without a
  member change nothing is written.
- Lock keys identify participants exactly while at most 2^32 repositories were created or no outbox
  store was (`TxParticipants.LockOrderIdentifies`).
- `TopoSort` does not keep the input order of all independent items, as its comment says
  (persistence/upsert.go:296; `TopoSorting.NotStable` is an input). Of any two items the earlier one
  stays first exactly when the last of its in-set references is placed no later than the other's
  (`TopoSorting.InputOrderKeptExactly`), and this fixes the whole order
  (`TopoSorting.ImportOrderUnique`).
- An unescaped LIKE term is literal exactly when it has none of the three special characters
  (`LikePattern.RawTermIsLiteralExactly`).

## Model

| member | source | states |
|---|---|---|
| `MoveSystem.ConcurrentSafety` | cells/move.go:185-466 | in every interleaving of any number of drivers, stored records rise strictly in (epoch, phase); with a fencer, landed writes of one epoch come from one cell and landed epochs never fall; every landed write carries the cell and epoch of a stored record or the default |
| `MoveSystem.CasHitsExactRecord` | cells/memtable.go:56-71 | the two-field precondition succeeds only against exactly the record the driver read or adopted |
| `MoveSystem.AdvanceKeeps` | cells/move.go:229-466 | every atomic call of every driver, stale locals included, keeps the shared and the per-driver invariant |
| `MoveSystem.FenceKeeps` | cells/move.go:291-336 | a seal or hand-over that the fence accepts proves that the driver's locals belong to the record it holds |
| `MoveSystem.EventsKeep` | cells/move.go:298-341 | without a fencer, the event barrier's forward-only epoch stops a stale driver in the same way |
| `MoveSystem.CasPhaseKeeps` | cells/move.go:386-406 | a phase's compare-and-set stores only above the record held, or changes nothing and rereads |
| `MoveSystem.RollbackKeeps` | cells/move.go:413-466 | hand-back and stored record of a rollback keep the invariant in any interleaving |
| `MoveSystem.RunKeeps` | cells/move.go:185-545 | the invariant of table, fence, events, drivers, tokens and writes over every run |
| `MoveSystem.WriteKeeps` | cells/plane.go:102-113 | a write that passes the fence keeps all landed writes single-writer |
| `MoveSystem.LandsExactly` | cells/plane.go:102-113 | a write lands if and only if the tenant was never fenced or the fence is unsealed and held by the writing cell at the token's epoch |
| `MoveLimits.ExactlyWhenSafe` | cells/move.go:261-406 | rising records if and only if fenced or evented; single writer if and only if fenced |
| `MoveLimits.StaleDriverWins` | cells/move.go:262-399 | without either plane a stale driver stores a second resting record of one epoch |
| `MoveLimits.UnfencedWrites` | cells/plane.go:102-113 | without a fencer a write of a lower epoch lands after one of a higher epoch |
| `MoveProgress.MoveCompletes` | cells/move.go:185-359 | a driver left alone ends a move of a resting tenant on its target at epoch + 2, with fence and events saying the same |
| `MoveProgress.ResumeCompletes` | cells/move.go:473-503 | left alone, a resume of a move that is not overdue ends on its target; COMMITTING never counts as overdue |
| `MoveProgress.RollbackCompletes` | cells/move.go:413-466 | left alone, a rollback ends on the source at epoch + 2 |
| `MoveProgress.LateRollsBack` | cells/move.go:491-495 | an overdue move is rolled back by Resume and by a Move that finds it |
| `MoveProgress.FailedCallRollsBack` | cells/move.go:213-219 | after any failed call of a move, with or without its effect, the driver takes the tenant back to its source |
| `MoveProgress.AdoptsExactly` | cells/move.go:392-402 | a lost compare-and-set is adopted if and only if the stored record is in the wanted state at no lower epoch |
| `MoveProgress.AssignCompletes` | cells/move.go:508-531 | a first placement stores the tenant on its cell at epoch 1, fence first |
| `MoveProgress.SoloIsRun` | cells/move.go:185-545 | what a lone driver does is a run of the concurrent system |
| `Planes.MemTable.Get` | cells/memtable.go:35-46 | the stored record, or none |
| `Routes.StatesSplit` | cells/route.go:36-54 | every state either admits new work or is one of the four phases of a move |
| `Planes.MemTable.CompareAndSet` | cells/memtable.go:49-76 | verdict against the stored (epoch, state), including creation, regression and the empty id; only success changes the table |
| `Planes.MemFencer.Seal` | cells/plane.go:74-83 | seals at the barrier epoch and keeps the owner, refuses to go back |
| `Planes.MemFencer.SetOwner` | cells/plane.go:86-95 | unseals for an owner and epoch, refuses to go back |
| `Planes.MemFencer.Allow` | cells/plane.go:102-113 | unknown tenants pass; otherwise unsealed, same owner and same epoch |
| `Planes.MemEventBarrier.SetPolicy` | cells/plane.go:135-146 | policy and epoch are replaced unless the epoch would fall |
| `MoveControl.MoveController.ContinueMove` | cells/move.go:261-359 | fails exactly when it stalls: the source did not drain, the publisher did not flush, or a plane is already past the barrier; else it ends on the target at epoch + 2, crash after any effect included; joint invariant kept |
| `MoveControl.MoveController.Cas` | cells/move.go:386-406 | stores, or adopts exactly a record already in the wanted state at no lower epoch |
| `MoveControl.MoveController.FenceAndPause` | cells/move.go:291-316 | DRAINING reaches COPYING with the fence sealed and events paused at the barrier epoch, unless a plane is past it or the publisher did not flush |
| `MoveControl.MoveController.Commit` | cells/move.go:329-357 | hand-over, event resume and resting record on the target; nothing in it can fail |
| `MoveControl.MoveController.Rollback` | cells/move.go:413-466 | never fails: no plane is past the epoch it installs; a moving tenant rests on its source at epoch + 2 |
| `MoveControl.MoveController.TakeBack` | cells/move.go:425-459 | fence, events and record go back to the source at epoch + 2; nothing in it can fail |
| `MoveControl.MoveController.ResumeFrom` | cells/move.go:487-503 | an overdue move succeeds on its source; any other fails, back on its source, exactly when it stalls, and else succeeds on its target; COMMITTING always finishes forward |
| `MoveControl.MoveController.Resume` | cells/move.go:473-503 | from every reachable state, run to its end, the tenant rests at epoch + 2 on source or target, on the target if it was COMMITTING, with the fence unsealed on exactly that cell and epoch and events normal |
| `MoveControl.MoveController.Drive` | cells/move.go:229-256 | opens the barrier and carries the move on, or settles the move it found |
| `MoveControl.MoveController.DriveOrRollBack` | cells/move.go:213-219 | driving the record read and rolling back on an error settles it at no lower epoch |
| `MoveControl.MoveController.Move` | cells/move.go:185-224 | a tenant read resting ends on the target exactly when the move is allowed and both waits succeed, else on the source at no lower epoch; for one found mid-move the outcome is exactly that of that move; other tenants untouched, epochs never fall, crashed or not |
| `MoveControl.MoveController.Assign` | cells/move.go:508-545 | first placement at epoch 1, or a move with the meaning Move gives success; on the empty id it never returns and stores nothing |
| `MoveControl.EmptyIdConflicts` | cells/memtable.go:49-52 | the placement is refused as a lost race in every state of the table if and only if the tenant id is empty |
| `MoveControl.SuccessOnTargetExactly` | cells/move.go:208-235 | success means the plan's target for all tenants read in a state if and only if that state is a resting one |
| `MoveControl.SucceedsElsewhere` | cells/move.go:229-235 | a run in which Move succeeds and the tenant rests on another cell than the plan's target |
| `MoveControl.RollsBackHomeExactly` | cells/move.go:243-250 | a rollback returns to the cell the tenant was on if and only if the plan named that cell or none as its source |
| `MoveControl.RollsBackElsewhere` | cells/move.go:425-457 | a run in which recovery succeeds on a cell the tenant was never on |
| `MoveControl.MoveController.MoveCohort` | cells/move.go:573-607 | for distinct members resting on their sources it fails exactly at the first member whose surroundings refuse; success puts every member on its target, failure puts every earlier member back on its source but exactly those whose way back is refused, which are reported; for any members epochs never fall |
| `MoveControl.MoveController.Reverse` | cells/move.go:584-601 | each committed member is moved back past the budget gate, and is reported exactly when preflight, drain or flush refuse that move |
| `MoveControl.MoveController.MoveMember` | cells/move.go:575-577 | from its source a member's move succeeds exactly when preflight, budget or force, drain and flush let it through |
| `Gates.RunKeeps` | cells/gate.go:126-231 | over every run admission numbers strictly increase, the gate epoch never falls, and admissions are of non-decreasing epochs between the gate's first and last |
| `Gates.AdmittedExactly` | cells/gate.go:126-150 | after any run a call is admitted, under the next number, if and only if there is no gate yet or it is open, accepting and of the call's epoch |
| `Gates.NoneBelowOpen` | cells/gate.go:182-191 | once a gate was opened at an epoch nobody is ever admitted below it |
| `Gates.BarredUntilOpen` | cells/gate.go:126-231 | a barred gate admits nobody and only drains until the next Open |
| `Gates.BarrierHolds` | cells/gate.go:195-205 | from the flip of a gate that is not closed to the next Open: no admission, in-flight numbers at most the cutoff, drained stays drained |
| `Gates.FlipCutsOffUnlessClosed` | cells/gate.go:195-205 | the cutoff bounds what is in flight for all gates of a state if and only if the state is not CLOSED |
| `Gates.ClosedGateCutoff` | cells/gate.go:195-231 | a run to a closed gate whose flip leaves a number in flight above the cutoff |
| `Gates.GateRegistry.TryEnter` | cells/gate.go:126-150 | admitted exactly on a missing gate or an open, accepting one of the same epoch; a stale epoch exactly on one of another epoch; the token carries the next number, now in flight |
| `Gates.GateRegistry.Leave` | cells/gate.go:154-165 | removes one number; an unknown tenant is ignored |
| `Gates.GateRegistry.Open` | cells/gate.go:182-191 | reopens at no lower epoch |
| `Gates.GateRegistry.BeginDrain` | cells/gate.go:195-205 | flips to draining and freezes the cutoff unless closed |
| `Gates.GateRegistry.CloseGate` | cells/gate.go:224-231 | closes without draining |
| `Gates.GateRegistry.CloseForBarrier` | cells/gate.go:238-274 | with any operations of others during the wait: the reported cutoff is the flip's, drained and forced are exact, and the cutoff bounds what is in flight |
| `Gates.GateRegistry.Reconcile` | cells/gate.go:280-289 | drains as source, opens as active cell, closes elsewhere, and leaves every other route alone |
| `Admission.Router.Apply` | cells/router.go:109-118 | the cache holds only records that were stored |
| `Admission.Router.Resolve` | cells/router.go:124-200 | the decision of the cached record, or of the stored one on a miss, or the default cell at epoch 0; stale exactly on an aged record or an unreachable miss; always a stored record of the tenant |
| `Admission.Router.Admit` | cells/middleware.go:160-196 | moving, wrong cell and uncertain mutation are answered exactly when they hold, aged cached routes included; refused by the gate only when it is not open, not accepting or of another epoch; every token carries its instance's cell and a stored, admitting record's cell and epoch, or the default |
| `Outbox.StringOrder` | persistence/memory_outbox.go:134-139 | string comparison is a strict total order |
| `Outbox.FirstDifference` | persistence/memory_outbox.go:134-139 | ids compare at their first difference, a proper beginning first |
| `Outbox.RowOrder` | persistence/memory_outbox.go:134-139 | (created_time, id) is a strict weak order |
| `Outbox.SortRowsSorts` | persistence/memory_outbox.go:107-118 | the scanned copy is a sorted permutation |
| `Outbox.MemoryOutboxStore.Append` | persistence/memory_outbox.go:82-100 | refused outside the store's transaction; a missing time is stamped |
| `Outbox.MemoryOutboxStore.ReadAfter` | persistence/memory_outbox.go:107-130 | the rows after the cursor, earlier created first and then by id, at most the limit of them (100 by default), and none left out before one returned |
| `Outbox.Scan` | persistence/memory_outbox.go:119-130 | the scan loop takes exactly the first rows after the cursor |
| `Outbox.TakeAfterIsFirst` | persistence/memory_outbox.go:107-152 | what the scan takes are the first rows after the cursor in (created_time, id) order |
| `Outbox.ScanIsNextRows` | persistence/memory_outbox.go:107-152 | with rows appended in order, the scan from the cursor after n rows is exactly the next rows |
| `Outbox.ScannedExactlyWhenAfter` | persistence/memory_outbox.go:107-152 | in any append order, a long enough scan returns a row if and only if it is stored and sorts after the cursor |
| `Outbox.BackdatedRowIsSkipped` | persistence/memory_outbox.go:144-152 | a row sorting before the row at the cursor is invisible at that cursor and at every later one |
| `Outbox.AppendSorted` | persistence/memory_outbox.go:107-152 | an appended row takes its place in the scan order, after the cursor exactly when it sorts after it |
| `Dispatch.KeysApartExactly` | events/dispatcher.go:137-139 | two event ids never share a marker key if and only if neither continues the other behind the separator |
| `Dispatch.KeyInjective` | events/dispatcher.go:137-139 | keys of separator-free ids determine event and handler |
| `Dispatch.Consumer.ApplyOnce` | events/consumer.go:182-199 | fails exactly when the handler does; otherwise effect and marker commit together, or a marker of that name rolls the duplicate effect back |
| `Dispatch.Consumer.MarkedIsApplied` | events/dispatcher.go:88-111 | a marker exists exactly when a handler of that name committed its effect for the event |
| `Dispatch.Consumer.AllRanExactlyWhenDistinct` | events/consumer.go:161-201 | an event whose handler names have all run ran all its handlers if and only if the names are distinct |
| `Dispatch.Consumer.Deliver` | events/consumer.go:161-201 | acknowledged only when every handler name has run, and then every handler ran if and only if names are distinct; no effect is ever committed twice, however many deliveries by others fall in between and whichever markers Seen misses |
| `Dispatch.CursorStore.SaveCursor` | persistence/memory_outbox.go:250-256 | one cursor and its failure count are replaced |
| `Dispatch.CursorStore.DeadLetter` | persistence/memory_outbox.go:258-269 | the row joins the dead letters, cursors untouched |
| `Dispatch.Dispatcher.Publish` | persistence/memory_outbox.go:82-100 | a row may be appended at any place in the order: it is skipped exactly when it sorts at or before the cursor, and everything delivered so far stays delivered |
| `Dispatch.Dispatcher.PumpOnce` | events/relay.go:163-209 | every row at or before the cursor was skipped at its append, is dead-lettered, or is published with every handler name's effect committed exactly once; at most one row is dead-lettered, and none before the attempts are used up; with nothing failing the whole batch is published; while rows are appended in turn accepted publishes never go back and at most one row is early; an uncrashed pump decreases (rows left, attempts left) |
| `Dispatch.Dispatcher.PumpBatch` | events/relay.go:172-208 | the batch loop stops at the first row not published, and moves the cursor or the failure count |
| `Dispatch.Dispatcher.ResolvedRanAll` | events/relay.go:163-209 | a row at or before the cursor that was neither skipped nor dead-lettered was published, and ran all its handlers if and only if their names are distinct |
| `Dispatch.Dispatcher.PumpRow` | events/relay.go:172-207 | accepted, the row is passed; refused with attempts left, it stays the head with one more failure counted; refused at the last attempt, it and only it is dead-lettered and passed |
| `Dispatch.Dispatcher.DeadOnlyWhenRefused` | events/relay.go:183-194 | a dead-lettered row was refused at least maxAttempts times itself, as long as no row was appended in front of a head with failures |
| `Dispatch.BuriedEarly` | events/relay.go:163-194 | a run in which a row appended in front of a failing head is dead-lettered after one refusal |
| `Dispatch.Dispatcher.DeliverHead` | events/dispatcher.go:340-350 | a publish succeeds only when the consumer acknowledged the head row |
| `Dispatch.Dispatcher.Drain` | events/dispatcher.go:273-281 | uncrashed pumping gets through any backlog, whatever fails |
| `Dispatch.Dispatcher.DrainedExactly` | events/relay.go:163-209 | once drained, a stored row was published or dead-lettered if and only if it sorted after the cursor when it was appended |
| `Dispatch.EnlistKeeps` | persistence/memory_outbox.go:82-131 | an append anywhere keeps cursor, skipped rows and accepted publishes consistent |
| `Dispatch.AcceptKeeps` | events/relay.go:176-207 | accepting the head row keeps accepted publishes in order and skipped rows untouched |
| `Dispatch.AdvanceKeeps` | events/relay.go:201-207 | moving the cursor keeps at most the next row early |
| `IdempotencyStore.ScopesMeetExactly` | servicekit/idempotency.go:301-303 | two callers can meet on one store key if and only if one scope begins with the other |
| `IdempotencyStore.MemKeyInjective` | servicekit/idempotency.go:301-303 | keys without NUL in tenant or method never collide |
| `IdempotencyStore.CollectInvisible` | servicekit/idempotency.go:342-414 | GC never changes an answer of Lookup or Claim if and only if its time is not in the future |
| `TransactionalDedup.GateKeysApart` | middleware/idempotency.go:398-421 | two keyed requests meet on one record if and only if tenant, method and request id agree |
| `TransactionalDedup.CommitKeeps` | middleware/idempotency.go:240-270 | committing a run whose key was free keeps one open execution per key and nothing in progress |
| `TransactionalDedup.CollectKeeps` | servicekit/idempotency.go:403-414 | collection keeps every open execution's record |
| `TransactionalDedup.DedupServer.LiveKeyRanOnce` | middleware/idempotency.go:219-279 | a live key has exactly one committed open execution, the one its record replays |
| `TransactionalDedup.DedupServer.GC` | servicekit/idempotency.go:403-414 | collection up to now keeps the invariant and changes no lookup |
| `TransactionalDedup.DedupServer.FastReplay` | middleware/idempotency.go:429-443 | answers exactly on a live key whose lookup succeeds, with that record's response or a mismatch |
| `TransactionalDedup.DedupServer.ReplayLive` | middleware/idempotency.go:475-480 | both fingerprints present and different is a mismatch; anything else replays the record's own response; never a conflict |
| `TransactionalDedup.DedupServer.RunClaimed` | middleware/idempotency.go:259-272 | a fresh claim succeeds exactly when the handler does, and then commits one effect and its completed record together; otherwise both are restored exactly |
| `TransactionalDedup.DedupServer.LiveStays` | servicekit/idempotency.go:342-414 | a live record is the same record for as long as it is live, whatever ran in between |
| `TransactionalDedup.DedupServer.SlowPath` | middleware/idempotency.go:240-277 | a live key runs nothing and gets exactly the live record's response or a mismatch; a free key succeeds exactly when its handler does, with one committed effect and record, else an exact restore |
| `TransactionalDedup.DedupServer.Call` | middleware/idempotency.go:219-279 | a success carries an execution of the key still open when the request came, with an agreeing fingerprint; a key live from start to end is answered from that one record, others running in between |
| `TransactionalDedup.DedupServer.Unary` | middleware/idempotency.go:398-421 | no request id or validate-only passes through, an over-long id is refused, neither touching records; keyed requests get the answers of Call |
| `ReserveDedup.ApplyKeeps` | middleware/idempotency.go:317-385 | every step keeps one running handler per key, each owning a live reservation |
| `ReserveDedup.RunKeeps` | middleware/idempotency.go:317-385 | the same over every interleaving |
| `ReserveDedup.CompletedStays` | servicekit/idempotency.go:353-414 | claim, complete, abandon and collect leave an unexpired completed record alone |
| `ReserveDedup.CompletedSurvives` | middleware/idempotency.go:317-385 | over every run of timely handlers a completed record survives to its expiry; a later caller with another non-empty fingerprint gets a mismatch, every other one its response |
| `ReserveDedup.ReleasedIsFree` | middleware/idempotency.go:359-366 | a released reservation can be claimed again at once |
| `ReserveDedup.FinishedReplays` | middleware/idempotency.go:376-383 | a completed reservation replays its response to every caller without another fingerprint |
| `ReserveDedup.RunningConflicts` | middleware/idempotency.go:348-355 | while a handler runs every other caller of its key gets a conflict |
| `ReserveDedup.CollectForgets` | servicekit/idempotency.go:403-414 | collection forgets exactly the records expired by then |
| `ReserveDedup.LateHandlerOverlaps` | middleware/idempotency.go:317-385 | a handler that outlives its TTL runs beside a second one |
| `ReserveDedup.ExclusiveExactlyWhenTimely` | middleware/idempotency.go:317-385 | handlers of a key exclude each other in every run if and only if all settle within the TTL |
| `ReserveDedup.LateFinishOverwrites` | middleware/idempotency.go:376-382 | a late handler completes over another handler's unexpired completed response |
| `ReserveDedup.DurableExactlyWhenTimely` | middleware/idempotency.go:311-316 | completed records survive unchanged to their expiry in every run if and only if all handlers settle within the TTL |
| `MemoryRepo.AfterKeeps` | persistence/memory.go:153-310 | every operation keeps the four structures in step: keys without repetition, an etag per item, tombstones among items |
| `MemoryRepo.UndeleteUndoes` | persistence/memory.go:205-310 | Delete and Undelete are exact inverses |
| `MemoryRepo.UpdatedAt` | persistence/memory.go:248-268 | a key takes its last update of the batch, with that update's etag |
| `MemoryRepo.UntouchedKept` | persistence/memory.go:248-268 | a key outside the batch keeps entity and etag |
| `MemoryRepo.UpdatedKeeps` | persistence/memory.go:248-268 | a batch update keeps the structures, key order and tombstones |
| `MemoryRepo.MemoryRepository.Get` | persistence/memory.go:58-72 | tombstones and missing keys are not found |
| `MemoryRepo.MemoryRepository.Write` | persistence/memory.go:153-310 | create, conditional update, delete and undelete with their errors: an update of a present key goes through exactly when one of the two etags is empty or they agree; an error changes nothing |
| `MemoryRepo.OneUpdatePerVersion` | persistence/memory.go:176-199 | of two conditional updates of one key holding the same version at most one succeeds, whatever runs in between |
| `MemoryRepo.VersionGone` | persistence/memory.go:176-199 | a replaced version never comes back while new etags are new to everybody |
| `MemoryRepo.MemoryRepository.BatchUpdate` | persistence/memory.go:248-268 | all or nothing, with results in input order |
| `MemoryRepo.MemoryRepository.BatchDelete` | persistence/memory.go:273-291 | all or nothing |
| `TxParticipants.LockOrderIdentifies` | persistence/memory_outbox.go:11-17 | lock keys identify participants if and only if the repository counter stays out of the outbox range or no store exists |
| `TxParticipants.NewMemoryTxRunner` | persistence/memory_tx.go:251-269 | each participant once, in non-descending lock order, strictly ascending when keys identify them |
| `TxParticipants.WithParticipants` | persistence/memory_tx.go:278-285 | the union, in lock order |
| `TxParticipants.LockListUnique` | persistence/memory_tx.go:264-268 | the lock list of a set is unique, so any two runners agree on the order |
| `NestedTx.JoinedIsPlain` | persistence/memory_tx.go:288-295 | inside a transaction a joining call, failed or not, is just its writes, refused appends left out |
| `NestedTx.OpenedDecides` | persistence/memory_tx.go:296-325 | a call that opens a transaction keeps every write on success and restores its participants on failure |
| `NestedTx.OutermostDecides` | persistence/memory_tx.go:288-325 | over any tree of joining calls nothing blocks and the outermost result alone decides; failure gives back the whole database if and only if nothing outside the participants was left changed |
| `NestedTx.DisjointInnerSurvives` | persistence/memory_tx.go:288-325 | a nested call over other participants commits even when the outer one fails |
| `NestedTx.UnenrolledWriteSurvives` | persistence/memory_tx.go:289-295 | a partly overlapping nested call's repository write outside the outer set is not rolled back |
| `NestedTx.UndoneExactly` | persistence/memory_tx.go:289-295 | a write in a joining nested call is undone by the outer failure on every database if and only if it goes to the outer set or is an append |
| `NestedTx.HangsExactly` | persistence/memory_tx.go:207-212 | any tree of calls hangs if and only if some call neither joins the innermost transaction nor finds its locks free, or some repository write goes to an outer participant the innermost one does not enrol |
| `NestedTx.JoinedHangFree` | persistence/memory_tx.go:288-299 | where every call joins, only a repository write to somebody locked outside hangs |
| `NestedTx.NestedCall` | persistence/memory_tx.go:288-325 | a nested call joins, is its own transaction, or hangs, each exactly when its runner and writes say so, with the resulting database |
| `NestedTx.NestedWriteHangsExactly` | persistence/memory_tx.go:207-212 | one write in a nested call hangs if and only if it is a repository write to the outer set and the two runners share nobody |
| `NestedTx.EmptyInnerHangs` | persistence/memory_tx.go:207-212 | in particular a nested runner without participants blocks on every repository write to the outer set |
| `NestedTx.RowsNeedEnrolment` | persistence/memory_outbox.go:82-100 | in any tree an outbox store that no call enrols keeps exactly its rows, whatever is appended to it |
| `TxStores.AppendIsLast` | persistence/memory_outbox.go:82-90 | a committed append is the last row of its store |
| `TxStores.WriteIsRepoWrite` | persistence/memory.go:153-310 | a committed repository write is what the repository alone makes of it |
| `NestedTx.Memory.Execute` | persistence/memory_tx.go:207-212 | running a body step by step is the interpreter's outcome, locks given back |
| `NestedTx.Memory.Atomically` | persistence/memory_tx.go:288-325 | lock, snapshot, run, restore and unlock loops are the interpreter's outcome |
| `NestedTx.Memory.Lock` | persistence/memory_tx.go:297-299 | succeeds exactly on distinct, free participants |
| `NestedTx.Memory.Restore` | persistence/memory_tx.go:304-310 | every participant back to its snapshot, nobody else touched |
| `TxSystem.RunKeeps` | persistence/memory_tx.go:288-325 | each lock has one holder and each running body works on the serial state of its participants, over every run |
| `TxSystem.Serializable` | persistence/memory_tx.go:219-229 | every interleaving is serial in commit order: a body sees the committed transactions and its own writes, and at rest the database is the committed transactions alone |
| `TxSystem.MutualExclusion` | persistence/memory_tx.go:296-299 | bodies running at once share no participant |
| `TxSystem.BodyWrites` | persistence/memory_tx.go:207-212 | a running body's writes reach the database and its log, in order |
| `TxSystem.BodyDecides` | persistence/memory_tx.go:300-325 | a success commits exactly the writes of the body, a failure commits nothing and gives the database back |
| `TxProgress.NoWaitCycle` | persistence/memory_tx.go:264-268 | the wait-for relation has no cycle in any reachable state |
| `TxProgress.Progress` | persistence/memory_tx.go:296-315 | while a call is unfinished some call can take a step that shortens the work left |
| `TxProgress.Finishes` | persistence/memory_tx.go:288-325 | every call under way can be brought to its end |
| `TxProgress.NeverStuckExactlyWhenOrdered` | persistence/memory_tx.go:264-268 | no reachable state is stuck if and only if all runners take locks in the one order |
| `Aggregates.SaveFrame` | persistence/memory_aggregate.go:92-150 | a Save changes nothing unless members changed; then only that aggregate: its members, its root body and the fresh etag |
| `Aggregates.AggregateRepository.Load` | persistence/memory_aggregate.go:79-86 | version and body of the first read, members of the second, with other sessions saving in between; or not found |
| `Aggregates.AggregateRepository.Save` | persistence/memory_aggregate.go:92-150 | the answer and the exact new state, restored on every error |
| `Aggregates.AggregateRepository.SaveInTx` | persistence/memory_aggregate.go:99-145 | version check, member writes and one conditional etag bump |
| `Aggregates.AggregateRepository.CheckPrecondition` | persistence/memory_aggregate.go:164-187 | stale exactly when both versions are present and differ |
| `Aggregates.RunKeeps` | persistence/memory_aggregate.go:92-187 | over every run, torn loads included, commits form a chain and each session at the stored version holds the stored members |
| `Aggregates.UpdateLost` | persistence/memory_aggregate.go:182-185 | without versions, or with an empty etag, a run in which one session overwrites an update of another unseen |
| `Aggregates.NoLostUpdateExactly` | persistence/memory_aggregate.go:92-187 | at most one committed change per loaded version and no lost update, in every run, if and only if versions are compared and never empty |
| `TopoSorting.TopoSort` | persistence/upsert.go:298-340 | fails if and only if the in-set graph has a cycle; otherwise the input in its one import order: every item after all it references, roots first in input order, any two in the order of release |
| `TopoSorting.BuildGraph` | persistence/upsert.go:299-316 | in-degrees and child lists count exactly the in-set references, repeated ones included, child lists in input order |
| `TopoSorting.Kahn` | persistence/upsert.go:324-335 | the queue loop places every item whose references are placed, in order of release |
| `TopoSorting.Release` | persistence/upsert.go:329-334 | decrementing the children queues exactly those left with no unplaced reference, in input order |
| `TopoSorting.StuckHasCycle` | persistence/upsert.go:336-338 | items left over contain a cycle |
| `TopoSorting.OrderRefutesCycle` | persistence/upsert.go:339-340 | a complete order refutes every cycle |
| `TopoSorting.RefersByKey` | persistence/upsert.go:300-316 | on distinct keys the graph is exactly "names the key of another item" |
| `TopoSorting.ImportOrderByKey` | persistence/upsert.go:291-297 | on distinct keys an item comes after every item whose key it names |
| `TopoSorting.InputOrderKeptExactly` | persistence/upsert.go:296-323 | of any two items the earlier one stays first if and only if the last of its references is placed no later than the other's |
| `TopoSorting.ImportOrderUnique` | persistence/upsert.go:317-335 | there is only one import order, so every choice of the algorithm is pinned down |
| `TopoSorting.NotStable` | persistence/upsert.go:296-323 | on a three-item input an item overtakes an earlier independent one in every order the algorithm can give |
| `LikePattern.EscapedPrefix` | persistence/repository.go:72-89 | an escaped term consumes exactly itself |
| `LikePattern.AnyRun` | persistence/repository.go:72-89 | a leading percent sign matches at any offset |
| `LikePattern.LikeMeaning` | persistence/repository.go:72-89 | the matcher on one wildcard, one escaped and one plain character |
| `LikePattern.EscapedTermIsLiteral` | persistence/repository.go:72-89 | %term% with the term escaped matches exactly the texts that contain it literally |
| `LikePattern.RawTermIsLiteralExactly` | persistence/repository.go:72-89 | without escaping a term still matches exactly the texts that contain it if and only if it has no special character |
| `TokenBuckets.TokenBucket.Allow` | resilience/ratelimit.go:55-70 | refill, cap and take as the specification of one call |
| `TokenBuckets.CallKeeps` | resilience/ratelimit.go:55-70 | the stock stays between 0 and burst and a call costs what it admits |
| `TokenBuckets.Paid` | resilience/ratelimit.go:44-70 | over every run what is admitted is paid by stock and refill |
| `TokenBuckets.WindowBound` | resilience/ratelimit.go:44-70 | between any two calls at most burst + rps * elapsed are admitted |
| `TokenBuckets.RefusedOnlyWhenSpent` | resilience/ratelimit.go:55-70 | a call is refused only when all but less than one of the tokens held and earned, since the start or since the bucket was full, were given out |
| `RulesFeed.StaticSource.Set` | rules/static.go:53-60 | one change, one revision, one event behind what waits in the buffer |
| `RulesFeed.StaticSource.Delete` | rules/static.go:63-74 | a missing tenant changes nothing; otherwise one change, one revision, one event |
| `RulesFeed.StaticSource.Replace` | rules/static.go:78-93 | ends at the given document through consecutively numbered changes, all of them sent, those that fit waiting in order in the buffer |
| `RulesFeed.StaticSource.Broadcast` | rules/static.go:127-134 | queued while the buffer has room, dropped otherwise |
| `RulesFeed.Cache.LoadSnapshot` | rules/cache.go:60-72 | the snapshot and its revision become the cache |
| `RulesFeed.Cache.Apply` | rules/cache.go:91-106 | events at or below the applied revision are skipped |
| `RulesFeed.RunKeeps` | rules/cache.go:54-106 | source, queue and cache agree over every run |
| `RulesFeed.CacheFollowsSource` | rules/cache.go:54-106 | with no event dropped the cache is the fold of the source's history up to its revision at every step, and equals the source once drained |
| `RulesFeed.DrainCatchesUp` | rules/cache.go:74-84 | delivering what waits makes a loaded cache that lost nothing equal to the source |

## Left out

- 64-bit wrap-around of epochs, revisions, sequence numbers and lock keys, which are unbounded here.
- `MemTable.Delete`, `FileTable`, `GateRegistry.Reset` and re-assignment after deletion: a removed route carries no epoch.
- Lossy route watches and the freshness of the router cache: decisions are only known to come from a record that was once stored.
- Route fields that no decision reads (data high-water mark, controller class, cohort id) and the budget arithmetic.
- Condition-variable wake-ups, tickers, channels and real clocks: waits are runs of other callers, deadlines an arbitrary answer.
- `MoveControl.MoveController.MoveCohort`: for repeated tenants, or members not resting on their plan's source, it promises only the joint invariant and rising epochs.
- `Dispatch.Dispatcher.Publish`: keeps the delivery invariant only for events under ids of their own, one type per id; ids are assumed unique throughout.
- `TransactionalDedup.DedupServer.GC`: keeps the invariant only up to the current time; `IdempotencyStore.CollectInvisible` says why.
- A marker lookup that reports a marker nobody wrote; only missed markers are modelled.
- The asynchronous bus, leader election and several relays sharing one cursor; `DropPartitionsBefore` retention.
- Tenant scoping of a delivered event's context and the payload of events.
- Nested `memDurableStore.Atomically` and the host's choice of a store per module.
- Protobuf marshalling, SHA-256 fingerprints, UUIDs, base64 and JSON: a round trip, a value or a fresh argument.
- Shared read locks of repositories: a read outside a transaction is modelled as a short exclusive call, and reflection-based deep copies as values.
- `TxSystem.Step`: bodies touch only enrolled participants; what other writes do is stated in `NestedTx` for one goroutine.
- Aggregates whose backend keeps the etag inside the root row (no `LoadEtag`), roots whose version is read after their members, and root updates that bypass `Save`.
- List pagination, BatchGet, Upsert and BatchUpsert: mostly single-branch additions.
- Rounding of floating-point token counts.
- Servers, gateways, clients, authorization, feature flags, tagging, schema building, configuration, logging and metrics.
