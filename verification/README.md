# 2D PvP Duel: models and proofs

A duel runs on an authoritative server. Two clients send movement and sequenced action commands in datagrams that may
be lost; a room simulates the fight tick by tick; snapshots go back the same way. These Dafny files model that core
and prove what the game relies on.

- **The duel simulation.** `RoomModel` gives the room's value and one tick as a function on it. `Room` is the room as
  the server runs it, its fields updated in place, phase after phase, and is proved to follow the function. The results
  over all runs are in `RoomLifecycle` (outcome and termination), `RoomTimeline` (action phases), `RoomSchedule` (a
  second definition of the tick by the clock, and what attacks do over a run), `RoomKnockout` (how early a knockout can
  be), `RoomMovement`, `RoomHitbox`, `RoomCommands` (hostile inputs), `RoomOrder` and `RoomCapacity` (order and
  repetition) and `RoomFairness` (exchanging and mirroring the players). `RoomWrapped` is the tick in the server's 32
  bits, `RoomWidths` says where it agrees with the unbounded one, and `RoomBounds` has the knockout and movement bounds
  for it.
- **Command delivery.** `ActionQueue`, `MatchController` and `Prediction` are the client; `Delivery` composes client,
  a network that drops, repeats and reorders, and the real room, and proves the composition a reliable queue;
  `Lockout` says when a player's datagrams stop being accepted, `ClientRuns` which button presses become commands, and
  `Reconciliation` what the prediction is worth.
- **The match server.** `RoomLoop` is the loop around the room, `Mailbox` its one-slot snapshot channel, `Rendezvous`
  the meeting of two ticket holders, `TerminalOutcome` the race of room, broadcaster and disconnects. Goroutines are
  steps of a state machine that may interleave in any way; a channel is its contents.
- **Around it.** `Framing` (length-prefixed messages), `Matchmaking`, `Interpolation`, `Sessions` (refresh tokens) and
  `Profile` (statistics from repeated reports).

A class stands where the source updates an object in place. Its methods state the new value of the object as a function
of the old one; what the source promises is then proved of these functions over all runs. `dafny verify dfyconfig.toml`
checks everything.

Clocks, match IDs, tokens, the outcome of network operations, and whether a byte string parses are parameters.

Some promises hold only under conditions the code does not check. These have a failing input and an exact condition:
spawns (`RoomMovement.InsideIffSpawnedInside`), hitbox sizes (`RoomHitbox.HitsAreContactsIff`), places in the command
queue (`RoomCapacity.OrderIsInvisibleIff`), the time between the two clock readings of `Authenticate`
(`Rendezvous.OneMatchPerIDIff`), and the delivery of anything a client sends, which ends once its ticks have run 120
past the last one the room accepted (`Lockout.LockedOutIff`, and an honest player's execution in
`Lockout.HonestPlayerIsLockedOut`).

The 32-bit ranges are a condition too. Over all positions of the arena and all ticks of a match, whether a run reaches
them or not, and for sensible hitbox sizes, the room they must leave is exact (`RoomWidths.AgreesIffRoomy`). The two
bounds over all runs need less of it and have sufficient conditions of their own, each with a failing run:
`RoomBounds.NoEarlyKnockout32` with `CooldownsCanVanish`, and `RoomBounds.MovementIsBounded32` with
`StepsCanCrossTheArena`.

## Model

Paths are relative to the repository's root.

| member | source | states |
|---|---|---|
| `Room.Room.NewWithRuleset` | backend/internal/room/room.go:196-215 | Invalid players, an invalid ruleset or a room, each exactly when it is due; a room that is built is in the start state of its ruleset. |
| `Room.Room.PlayerIndex` | backend/internal/room/room.go:488-495 | The lookup loop finds the first player with that ID, or reports that there is none. |
| `Room.Room.SubmitInput` | backend/internal/room/room.go:223-247 | In place, on fields indexed by player: the new value of the room is `RoomModel.Submit` of the old one; an unknown player is an error and changes nothing. |
| `Room.Room.QueueCommands` | backend/internal/room/room.go:240-245 | The loop over a datagram's commands queues them one after the other for this player and leaves the other player alone. |
| `Room.Room.QueueActionAt` | backend/internal/room/room.go:249-266 | Window test, duplicate scan, capacity test, append and sort together amount to an ordered insertion, whatever the library sort does with ties. |
| `Room.Room.Step` | backend/internal/room/room.go:268-297 | A tick run phase by phase over both players refines `RoomModel.Step`, which ticks each player as a whole; the returned snapshot is that of the new state. |
| `Room.Room.TickPlayers` | backend/internal/room/room.go:288-290 | The three phase loops in sequence equal both players ticked separately: phases of different players do not interfere before attacks are resolved. |
| `Room.Room.TakeSnapshot` | backend/internal/room/room.go:299-310 | Reads every published field without changing the room. |
| `Room.Room.AcknowledgeRejectedActions` | backend/internal/room/room.go:312-319 | Empties both queues and acknowledges the last command of each, as the countdown does. |
| `Room.Room.AdvanceActionStates` | backend/internal/room/room.go:321-348 | The loop counts down and switches the phases of both players as `AdvanceSlot` does of one. |
| `Room.Room.ApplyMovement` | backend/internal/room/room.go:350-372 | The movement loop over both players is `MoveSlot` of each. |
| `Room.Room.ProcessActions` | backend/internal/room/room.go:386-399 | The nested command loops are `ProcessSlot` of each player, in queue order. |
| `Room.Room.ApplyActiveAttacks` | backend/internal/room/room.go:435-459 | Both blows are decided before either is applied, so the result is the simultaneous exchange `ResolveAttacks`. |
| `Room.Room.FinishFromKO` | backend/internal/room/room.go:461-475 | Finishes the match exactly when a player has no HP left, for the survivor if there is one. |
| `CommandOrder.SortedArrangementIsUnique` | backend/internal/room/room.go:262-265 | A list without repeated sequence numbers has one sorted arrangement, so an unstable sort leaves no choice. |
| `CommandOrder.SortBySequenceSorts` | backend/internal/room/room.go:263-265 | The stand-in for the library sort yields an ascending rearrangement of its input. |
| `CommandOrder.ElementsDetermineOrder` | backend/internal/room/room.go:249-266 | A strictly ascending queue is determined by which commands are in it. |
| `RoomSlots.OneActionPerTick` | backend/internal/room/room.go:386-433 | However many commands a tick processes, at most one starts an action, and all are acknowledged. |
| `RoomSlots.TickSlotFrame` | backend/internal/room/room.go:321-433 | What a tick never changes for a player before attacks: HP, ID, held input; and that it empties the queue and acknowledges its last command. |
| `RoomSlots.SubmitFrame` | backend/internal/room/room.go:223-247 | Accepting an input touches held input, queue and input tick and nothing else. |
| `RoomLifecycle.ConsistentIsKept` | backend/internal/room/room.go:223-297 | Every input and every tick keeps the lifecycle invariant: clock against active ticks, HP range, outcome fields by status. |
| `RoomLifecycle.FinishIsRightful` | backend/internal/room/room.go:461-486 | A fight that decides the match declares the rightful winner and reason; one that does not goes on. |
| `RoomLifecycle.ReachableIsConsistent` | backend/internal/room/room.go:196-297 | In every reachable state: while active, tick = countdown + active ticks and both HPs are positive; KO exactly when an HP is 0, time limit only at full duration, winner the one who is better off or nobody. |
| `RoomLifecycle.TickMakesProgress` | backend/internal/room/room.go:268-297 | A tick strictly decreases the ticks left of an unfinished match, and they never go below 0. |
| `RoomLifecycle.EveryMatchEnds` | backend/internal/room/room.go:268-297 | After countdown plus match duration ticks every run is finished with its rightful outcome, whatever was submitted in between. |
| `RoomLifecycle.FinishedIsAbsorbing` | backend/internal/room/room.go:268-271 | No further run changes what a finished room publishes. |
| `RoomLifecycle.SnapshotCountsDown` | backend/internal/room/room.go:299-310 | The published tick is the room's, and the published countdowns are exactly the ticks left in their phase and 0 outside it. |
| `RoomCommands.QueueSafetyOverRuns` | backend/internal/room/room.go:249-266 | For arbitrary, dishonest inputs over every run: the queue stays strictly ascending, at most 8 long and inside (ack, ack+64]; the consumed sequence numbers rise strictly over the whole run and end in the acknowledgement. |
| `RoomCommands.InputsAreRecorded` | backend/internal/room/room.go:223-247 | An input of anybody changes only what its player holds and has queued, and that only if its tick is among the next 120 in 32 bits: a newer one is held from then on, by the signs of its axes, and a single command is queued exactly if it is one of the next 64, new, and finds one of the eight places. |
| `RoomCommands.TickAcknowledges` | backend/internal/room/room.go:386-399 | A tick of an unfinished match empties the queue and acknowledges its last command, in countdown and match alike. |
| `RoomCommands.CountdownIsInert` | backend/internal/room/room.go:274-284 | Whatever arrives during the countdown is acknowledged but never carried out: when the match opens both players are as spawned, with no held movement, and the next tick is the first on which an action may start. |
| `RoomTimeline.TimelyIsKept` | backend/internal/room/room.go:321-459 | Every input and tick keeps the closed-form action timeline of both players. |
| `RoomTimeline.PublishedTimeline` | backend/internal/room/room.go:321-384 | In every reachable state of every ruleset the remaining ticks are the closed form of start tick and current tick, per phase; the start tick is 0 exactly in Idle and Move; facing stays locked through all three attack phases. |
| `RoomSchedule.TicksFollowTheSchedule` | backend/internal/room/room.go:268-459 | A second definition of the tick, with absolute start and end times in place of counted phases and of the three passes: in every reachable active state the server's next tick is the scheduled one, for both players and every field. |
| `RoomSchedule.HeldInputIsCarriedOut` | backend/internal/room/room.go:350-384 | On every active tick of every run the player acknowledges the held input and faces its direction (the horizontal one first) if free, while an attack keeps its facing; unless it dashes or is struck it has walked exactly one step that way, up to the wall. |
| `RoomSchedule.CommandsTakeEffect` | backend/internal/room/room.go:386-433 | A player that is not struck starts exactly the first queued command whose cooldown is over, if it is free to, and that cooldown starts anew; otherwise nothing starts. |
| `RoomSchedule.AttacksRunTheirCourse` | backend/internal/room/room.go:321-348 | Over any stretch of any run of an active match in which the player loses no HP: an attack started on tick s is in windup, active and recovery on exactly the ticks from s, s + windup and s + windup + active on, and over when recovery is, unless a new action starts then. |
| `RoomSchedule.AttacksTakeHP` | backend/internal/room/room.go:435-459 | On every tick of every run a player's HP falls by the damage, to 0 at least, exactly if the opponent's attack is in its active phase by the clock and touches it, also if the opponent is struck on the same tick; otherwise it stays. |
| `RoomSchedule.DownIffDead` | backend/internal/room/room.go:445-458 | In every reachable state a player is knocked out exactly if it has no HP left. |
| `RoomKnockout.ActiveStepIsBalanced` | backend/internal/room/room.go:321-459 | Every HP loss is paid for by one attack's active ticks: the account of attacks started and landed is kept by each active tick. |
| `RoomKnockout.RunsAreBalanced` | backend/internal/room/room.go:268-297 | ... and over every run, for either attacker. |
| `RoomKnockout.NoEarlyKnockout` | backend/internal/room/room.go:419-459 | With unbounded clocks, for every ruleset with damage and any number of active ticks: no reachable state with a knockout comes before countdown + 1 + (n-1) * cooldown + windup, n being the attacks a knockout takes, rounded up. |
| `RoomKnockout.NoEarlyKnockoutByDefault` | backend/internal/room/room.go:11-27 | With the rules of every match, in either arena, that is tick 154. |
| `RoomMovement.MovementIsBounded` | backend/internal/room/room.go:350-417 | With unbounded positions, from any reachable state, over any run with k ticks, each axis changes by at most k steps plus one dash per started dash cooldown. |
| `RoomMovement.PositionsStayInside` | backend/internal/room/room.go:364-365 | No reachable state has a player outside the arena if both spawns are inside. |
| `RoomMovement.InsideIffSpawnedInside` | backend/internal/room/room.go:196-215 | The constructor does not check spawns: all positions of all runs are inside exactly when both spawns are. |
| `RoomMovement.SpawnsAreNotChecked` | backend/internal/room/room.go:200-205 | A ruleset the constructor accepts that spawns a player outside. |
| `RoomMovement.DashGoesForward` | backend/internal/room/room.go:406-417 | A dash moves along the facing only, never backwards, and falls short of its distance only at the wall ahead. |
| `RoomHitbox.HitsAreContactsIff` | backend/internal/room/room.go:521-538 | The four-way test means that the attack's rectangle, given by facing, and the target's square share a point, for all positions and facings, exactly when the unchecked sizes are non-negative or too negative for any hit. |
| `RoomHitbox.NegativeSizesHitThinAir` | backend/internal/room/room.go:521-534 | For every other choice of sizes, two positions that hit without a common point. |
| `RoomHitbox.BlowsCanHitThinAir` | backend/internal/room/room.go:200-205 | It happens in a match: an accepted ruleset and a reachable state in which a player has been hit by an attack that touches nothing. |
| `RoomHitbox.BlowsLandOnContact` | backend/internal/room/room.go:438-444 | In every reachable state, an attack in its active phase strikes exactly when it touches the target in the published facing. |
| `RoomWidths.NothingOverflows` | backend/internal/room/room.go:268-459 | The tick with the server's wrapping 32-bit clocks, cooldowns, positions and hitbox edges, over every run: it equals the unbounded one for every roomy ruleset with its spawns inside. |
| `RoomWidths.AgreesIffRoomy` | backend/internal/room/room.go:350-534 | For sensible hitbox sizes, wrapped and unbounded moves, dashes, cooldowns and hit tests agree at every position of the arena and every tick of a match, reached by a run or not, if and only if the ruleset is roomy, a check on its constants. |
| `RoomBounds.NoEarlyKnockout32` | backend/internal/room/room.go:419-459 | On the 32-bit server, for every accepted ruleset with damage whose last match tick plus attack cooldown is below 2^32, whatever its arena, spawns, hitboxes and dashes: no run has a knockout before that tick. |
| `RoomBounds.MovementIsBounded32` | backend/internal/room/room.go:350-417 | On the 32-bit server, for every accepted ruleset with its spawns inside, room for a step and for a dash at both ends of the range, and last match tick plus dash cooldown below 2^32: over any stretch of any run with k ticks each axis changes by at most k steps plus one dash per started dash cooldown, and every position is inside. |
| `RoomBounds.CooldownsCanVanish` | backend/internal/room/room.go:428 | Where only the attack cooldown does not fit the clock: an accepted ruleset and a run of the 32-bit server in which the wrapped cooldown is over at once and a knockout comes on tick 3, before the bound. |
| `RoomBounds.StepsCanCrossTheArena` | backend/internal/room/room.go:364 | Where a step has no room at the end of the range: an accepted ruleset and a run in which one step wraps from the right wall to the left one. |
| `RoomWidths.DefaultRulesAreRoomy` | backend/internal/matchserver/manager.go:167-169 | The rules of every match are roomy, in either arena. |
| `RoomFairness.SwapStep` | backend/internal/room/room.go:268-297 | A tick commutes with exchanging the two players, in any state. |
| `RoomFairness.SwapRun` | backend/internal/room/room.go:223-297 | So does every run: the player index decides nothing. |
| `RoomFairness.MirrorStep` | backend/internal/room/room.go:321-534 | On an arena symmetric about x = 0 a tick commutes with reflecting positions, facings and inputs. |
| `RoomFairness.MirrorRun` | backend/internal/room/room.go:223-297 | So does every run, with everybody's inputs reflected. |
| `RoomFairness.DefaultRulesAreSymmetric` | backend/internal/matchserver/manager.go:167-169 | The rules of every match are symmetric, in either arena. |
| `RoomFairness.MirroredPlayersDraw` | backend/internal/room/room.go:268-534 | If between ticks player B receives the mirror images of what A receives, interleaved in any way, the players are mirror images after every tick, nobody ever wins, and the match ends on time. |
| `RoomOrder.BatchMerges` | backend/internal/room/room.go:223-266 | Submitting a batch merges it: the queue gains exactly the fresh commands offered, the held movement becomes that of the newest accepted input. |
| `RoomOrder.MergedIsUnique` | backend/internal/room/room.go:223-266 | There is one state that merges a given batch. |
| `RoomOrder.OrderAndRepetitionDoNotMatter` | backend/internal/room/room.go:223-266 | Between two ticks any order and repetition of a batch gives the same state, held movement included, if equal ticks and sequences carry equal content, no tick is past the horizon and the fresh commands fit the queue. |
| `RoomCapacity.OrderIsInvisibleIff` | backend/internal/room/room.go:249-266 | The exact capacity condition: for every queue and every set of fresh in-window commands, all accepted deliveries of them, in any inputs, order and repetition, leave the same queue if and only if all of them fit the eight places or the queue is full already. |
| `RoomCapacity.PlaceAll` | backend/internal/room/room.go:249-266 | Places are given first come, first served, and refused only when there is none left. |
| `RoomCapacity.NinthCommandDependsOnOrder` | backend/internal/room/room.go:259-261 | The smallest failing case: with one place left, two inputs of one command each leave different rooms in the two orders. |
| `RoomOrder.RoundSplits` | backend/internal/room/loop.go:39-86 | Inputs of the two players between two ticks do not interact, however interleaved. |
| `RoomOrder.LoopOrderDoesNotMatter` | backend/internal/room/loop.go:39-86 | Whatever order a round's inputs of both players reach the room in, the next tick starts from the same state. |
| `RoomLoop.Loop.Run` | backend/internal/room/loop.go:39-65 | The event loop, with its queue, snapshot slot and stop flag updated in place, follows `Next` for every schedule of arrivals and `select` choices. |
| `RoomLoop.Loop.DrainInputs` | backend/internal/room/loop.go:67-80 | Submits everything queued, in order, and stops listening to a channel it has seen closed and empty. |
| `RoomLoop.Loop.Publish` | backend/internal/room/loop.go:88-115 | The new snapshot replaces an unread one; only a terminal one whose slot is full can be given up, if the wait for the receiver ends that way. (That this takes a cancellation is part of `TerminalOutcome`.) |
| `RoomLoop.CopyActions` | backend/internal/matchserver/manager.go:362-371 | The session's copy loop keeps the first eight commands. |
| `RoomLoop.AdmissionIsTransparent` | backend/internal/matchserver/manager.go:362-380 | For any 32-bit axes: what the session clamps and cuts, the room would have clamped and cut to the same slot. |
| `RoomLoop.LoopIsDirect` | backend/internal/room/loop.go:39-115 | For every schedule the loop refines one without a queue that hands each accepted input to the room at once: queueing, draining and the choices of `select` do not show in room, snapshot slot or stop. |
| `RoomLoop.TicksSeeEveryInput` | backend/internal/room/loop.go:55-63 | After a tick nothing is queued and the room itself is in the direct loop's state. |
| `RoomLoop.SelectDoesNotMatter` | backend/internal/room/loop.go:41-63 | Two schedules with the same accepted inputs, ticks and takes leave the room in the same state. |
| `RoomLoop.LoopStaysReachable` | backend/internal/room/loop.go:39-86 | Whatever the loop does, its room stays in a reachable state, so all results about reachable states hold in production. |
| `RoomLoop.RunsUntilFinished` | backend/internal/room/loop.go:57-62 | A loop that still runs has an unfinished room: it stops with the tick that finishes the match. |
| `Mailbox.SoundIsKept` | backend/internal/room/loop.go:88-115 | Each atomic channel operation of producer or consumer keeps the mailbox sound: nothing taken twice or out of order, the newest value never the one discarded. |
| `Mailbox.LatestValueWins` | backend/internal/room/loop.go:88-115 | In every interleaving the consumer sees an in-order subsequence without repetition, the newest value is in the slot or taken whenever no publication is under way, and a terminal one is lost only by giving up. |
| `Mailbox.PublishingNeverWaits` | backend/internal/matchserver/manager.go:252-266 | A publication can always go on without the consumer. |
| `ActionQueue.PendingActionQueue.Enqueue` | client/game/input/input.cpp:44-50 | Refuses exactly non-edge actions, a full queue and used-up sequence numbers; the counter wraps to 0. |
| `ActionQueue.PendingActionQueue.Acknowledge` | client/game/input/input.cpp:52-56 | Keeps, in order, exactly the commands past the acknowledgement. |
| `MatchController.MatchController.FixedTick` | client/game/match/match_controller.cpp:54-93 | The client's tick in place: what is enqueued, predicted and sent; nothing unless a started match is active. |
| `MatchController.MatchController.ApplySnapshot` | client/game/match/match_controller.cpp:103-128 | A stale snapshot changes nothing; a fresh one acknowledges and reconciles the local player, feeds the other one to the interpolation buffer, settles the arena and becomes the world. |
| `MatchController.ArenaIsImmutable` | client/game/match/match_controller.cpp:120-127 | Over any sequence of snapshots the arena stays the first one named, in the model and in the world shown. |
| `MatchController.WorldNeverGoesBack` | client/game/match/match_controller.cpp:104-106 | Over any sequence of snapshots, in any order, a started client's world is at least as new as every one of them. |
| `Delivery.InvariantIsKept` | client/game/match/match_controller.cpp:54-118 | Each step of client, lossy network, room or opponent keeps the protocol invariant. |
| `Delivery.ExactlyOnceInOrder` | backend/internal/room/room.go:386-399 | In every execution with dropping, repeating and reordering in both directions: the commands the room has consumed are those the client enqueued, up to the acknowledgement; the client still holds all later ones. |
| `Delivery.HonestCommandsAreKept` | backend/internal/room/room.go:249-266 | An accepted honest datagram extends the queue to all it carries: neither the 8 places nor the window of 64 turns a command away. |
| `Delivery.NothingHonestIsTurnedAway` | backend/internal/room/room.go:223-266 | Over all executions: after an accepted datagram each of its commands is acknowledged or pending. |
| `Delivery.OneDatagramSuffices` | backend/internal/room/room.go:223-297 | One accepted datagram followed by one tick of an unfinished match acknowledges everything it carries. |
| `Delivery.QueueDrains` | client/game/match/match_controller.cpp:103-112 | A fresh snapshot that acknowledges the whole log empties the client's queue. |
| `Lockout.AcceptedIffInReach` | backend/internal/room/room.go:223-247 | The price of the input-tick guard, over any run of the room with ticks and anybody's inputs in it: some input of a player is accepted if and only if one is delivered whose tick is within 120 of the last tick accepted before the run. |
| `Lockout.LockedOutForGood` | backend/internal/room/room.go:228-230 | So once nothing in reach is delivered any more, every input of that player is refused for good and the guard never moves. |
| `Lockout.HeardIffInReach` | client/game/match/match_controller.cpp:54-93 | The same for every stretch of every execution of client, network and room. |
| `Lockout.LockedOutIff` | backend/internal/room/room.go:228-230 | Exactly when it happens: in every execution from the start of a match, nothing a playing client still sends will ever be accepted if and only if its ticks, which run on whatever is lost, have reached the horizon of the room's guard. |
| `Lockout.HonestPlayerIsLockedOut` | client/game/match/match_controller.cpp:54-93 | It happens to honest players: for every accepted ruleset an execution in which the match opens, the client plays 120 ticks while the network loses every datagram, and is locked out of the match that has just begun. |
| `ClientRuns.CommandsAreThePresses` | client/game/match/match_controller.cpp:9-93 | In every execution the commands the client has sent out are the button presses it has accepted, one for one and in order: a dash for each dash button, a light attack for each attack button. Accepted are a tick's dashes, then the attack, while fewer than eight wait. |
| `ClientRuns.PressesAreConsumed` | backend/internal/room/room.go:386-399 | So the room has consumed the presses up to its acknowledgement, each exactly once, as what they were. |
| `ClientRuns.HeldAttackRepeats` | client/game/match/match_controller.cpp:79-93 | While its button is pressed or held, a light attack is due exactly if every accepted one is 15 ticks old or older, over every execution in which the ticks do not wrap. |
| `Reconciliation.SnapshotsReconcile` | client/game/match/match_controller.cpp:103-118 | In every execution in which the ticks do not wrap, a snapshot that is not out of date leaves exactly the inputs the client has predicted past the acknowledged input tick, and the position they lead to from the one it shows. |
| `Reconciliation.PredictionIsCurrent` | client/game/prediction.cpp:21-49 | The same at every moment in between, for the snapshot the world was taken from. |
| `Reconciliation.RoomHoldsWhatWasPredicted` | backend/internal/room/room.go:230-238 | In every execution, what the room holds for the player is what the client predicted for that tick, or nothing. |
| `Reconciliation.SnapshotsAreShown` | client/game/match/match_controller.cpp:103-128 | A snapshot that is not out of date becomes the world, leaves exactly the commands past its acknowledgement waiting, and is the opponent's newest point unless a later one is known. |
| `Reconciliation.OpponentIsWhereShown` | client/game/match/match_controller.cpp:112-118 | In every execution, each point the opponent is interpolated between is a position the room has published for it, under its own tick. |
| `Prediction.LocalPrediction.ApplyInput` | client/game/prediction.cpp:21-25 | Appends the clamped input and moves the prediction by it. |
| `Prediction.LocalPrediction.Reconcile` | client/game/prediction.cpp:34-42 | The pop and replay loops yield the server's rule run from the authoritative position over what is left. |
| `Prediction.ServerMovesTheSame` | backend/internal/room/room.go:350-372 | The server's movement of a movable player under the rules of every match is the client's predicted step. |
| `Prediction.ServingIsReplaying` | backend/internal/room/room.go:268-372 | Over a run of the whole room, with anything delivered in between: if on each tick the player is movable, holds the next of the inputs and starts no dash, the run ends where the client's replay of the inputs ends. |
| `Prediction.PredictionIsReplay` | client/game/prediction.cpp:21-49 | Over every run of inputs and snapshots the prediction is the movement rule run from the last authoritative position over the unacknowledged inputs. |
| `Prediction.ReplayNeverDiverges` | client/game/prediction.cpp:75-90 | Replaying the same inputs from two positions never moves them further apart on either axis. |
| `Prediction.CorrectionIsBounded` | client/game/prediction.cpp:34-42 | A snapshot moves the prediction, per axis, at most by the distance between the authoritative position and the client's own prediction for the acknowledged tick. |
| `Prediction.FaithfulServerCorrectsNothing` | client/game/prediction.cpp:34-42 | If the room, run from the state the client last heard of, served exactly the inputs its snapshot acknowledges, that snapshot leaves the prediction where it was. |
| `Prediction.AckedArePopped` | client/game/prediction.cpp:35-37 | With ascending ticks, popping from the front removes exactly the acknowledged inputs. |
| `TerminalOutcome.InvariantIsKept` | backend/internal/matchserver/manager.go:227-340 | Each atomic step of the room's goroutine, broadcaster, handlers and clients keeps the termination invariant. |
| `TerminalOutcome.OneTerminalOutcome` | backend/internal/matchserver/manager.go:292-317 | In every interleaving both players and the reporter are told at most once each, and all the same: the finished room's outcome, or the defeat of a player whose handler has left; the winner is then the other one. |
| `TerminalOutcome.BlamesIsKept` | backend/internal/matchserver/manager.go:227-340 | Each atomic step keeps that: a handler only ever reports its own player, and a disconnect is finalized only against a player who has left. |
| `TerminalOutcome.FinalizeNeverBlocks` | backend/internal/matchserver/manager.go:292-299 | Inside `finalize` the channel of each player its loop has still to visit is open and empty. |
| `TerminalOutcome.ClosedAfterDelivery` | backend/internal/matchserver/manager.go:227-233 | A terminal channel is closed only after the event was delivered and reported, unless nobody ever held the sessions. |
| `TerminalOutcome.BarrierClosesOnce` | backend/internal/matchserver/manager.go:268-275 | The start barrier is closed at most once, exactly when both players have acknowledged, and no tick precedes it. |
| `TerminalOutcome.TerminalSnapshotArrives` | backend/internal/matchserver/manager.go:235-245 | Without a cancellation the broadcaster does not shut down before it has finalized the finished room's outcome. |
| `TerminalOutcome.OutcomeGetsThrough` | backend/internal/room/loop.go:102-109 | While an uncancelled finished room's outcome is due, a step of the room, the broadcaster or whoever is inside `finalize` is always enabled and strictly brings it closer; nine suffice. |
| `TerminalOutcome.NothingDelaysTheOutcome` | backend/internal/matchserver/manager.go:227-315 | ... and no step of anybody in between takes it further away, short of a cancellation. |
| `TerminalOutcome.SeenTicksRise` | backend/internal/room/loop.go:88-115 | In every interleaving of room, broadcaster and handlers the snapshots the broadcaster takes have strictly rising server ticks. |
| `TerminalOutcome.UndisturbedOutcomeIsTheRooms` | backend/internal/matchserver/manager.go:235-245 | An outcome that is not a disconnect is the room's own, and rightful: a knockout exactly if somebody has no HP left, else the time limit, and the same winner. |
| `TerminalOutcome.LeavingEndsTheMatch` | backend/internal/matchserver/manager.go:301-317 | Once a player's handler is gone the match is cancelled, and its room then closes after five steps of its own goroutine at most, each of which is always possible. |
| `Rendezvous.OrderIsKept` | backend/internal/matchserver/manager.go:61-141 | Each step of any request keeps waiting, pairing and returned requests consistent with the created matches. |
| `Rendezvous.NobodyWaitsInVain` | backend/internal/matchserver/manager.go:77-95 | In every interleaving each waiting request holds the place of its match, or has been taken up by an opponent that is about to hand over. |
| `Rendezvous.EntryIsDecided` | backend/internal/matchserver/manager.go:69-109 | In every reachable state an entering request fails as used exactly if its match ID has an unexpired used entry, else takes the free place, fails as the same player, or is paired, exactly by who holds the place; a failure leaves all places as they were, and issued tickets never fail to name each other. |
| `Rendezvous.BothOrNeither` | backend/internal/matchserver/manager.go:92-125 | In every interleaving of arrivals and cancellations the two calls of a created match belong to distinct players who name each other, and both return its sessions or both return errors with the match aborted; never one alone. |
| `Rendezvous.SessionsHaveMatches` | backend/internal/matchserver/manager.go:111-125 | A returned session is that of a created match the request belongs to. |
| `Rendezvous.PairingIsNeverStuck` | backend/internal/matchserver/manager.go:117-124 | In every reachable state, a request that holds the other half of a pair can hand over its session or give up the match, and returns either way. |
| `Rendezvous.OneMatchPerID` | backend/internal/matchserver/manager.go:71-76 | If each request enters before its own ticket expires, at most one match is created per match ID, although used entries are purged. |
| `Rendezvous.OneReadingIsPrompt` | backend/internal/matchserver/manager.go:66-72 | That is so whenever each request is checked and enters under the same reading of the clock, with other requests in between. |
| `Rendezvous.OneMatchPerIDIff` | backend/internal/matchserver/manager.go:66-76 | The exact condition: if requests enter at most `lag` after their check, one match per match ID is guaranteed for all tickets and interleavings if and only if `lag` is 0. |
| `Rendezvous.LateEntriesRepeatTheMatch` | backend/internal/matchserver/manager.go:66-76 | With the two readings the code makes it can fail: a run in which repeated requests, checked just before the expiry and entering just after it, create the match again. |
| `Framing.Frame` | client/net/quic_client.cpp:46-62 | The byte vector filled by index is the frame of the payload, or empty if it is too large. |
| `Framing.HeaderRoundTrip` | client/net/quic_client.cpp:52-57 | The four header bytes read back as the size they were written from. |
| `Framing.Decoder.Receive` | client/net/quic_client.cpp:334-389 | One callback: the new buffer, deliveries and failure are those of decoding the old buffer with all new bytes. |
| `Framing.Decoder.DeliverWhole` | client/net/quic_client.cpp:344-388 | The cutting loop, including both ways it fails. |
| `Framing.FragmentationDoesNotMatter` | client/net/quic_client.cpp:334-389 | Any split of any stream into callbacks delivers, keeps and reports what one callback with all the bytes would, faults included. |
| `Framing.FramesSurviveFragmentation` | client/net/quic_client.cpp:334-389 | For any payloads of at most 64 KiB and any split of their frames: after every callback exactly the complete messages have been delivered, in order, and a strict prefix of the next frame is held; at the end all are delivered and nothing is held. |
| `Framing.DecoderAgreesWithReader` | backend/internal/transport/protoframe/protoframe.go:17-36 | One pass of the decoder over the whole stream finds the messages and the fault the blocking reader does. |
| `Framing.ReadersAgree` | client/net/quic_client.cpp:334-389 | So under every split the client's decoder finds the same messages and the same fault as the server's blocking reader, in every byte stream. |
| `Framing.WriteAll` | backend/internal/transport/protoframe/protoframe.go:58-70 | Under arbitrary short writes: exactly the payload arrives, or a prefix of it and an error. |
| `Framing.Write` | backend/internal/transport/protoframe/protoframe.go:38-56 | Exactly the frame arrives on success, a prefix of it on a broken write, nothing of an oversized message. |
| `Matchmaking.Service.Join` | backend/internal/matchmaking/service.go:64-114 | The state after a join and its result, in place, with purge, pop loop, both tickets and both entries. |
| `Matchmaking.Service.PlayerStatus` | backend/internal/matchmaking/service.go:116-124 | Purges, then reports the player's own entry. |
| `Matchmaking.Service.Leave` | backend/internal/matchmaking/service.go:126-133 | Removes the entry and leaves the stale name on the list. |
| `Matchmaking.Service.PopWaiting` | backend/internal/matchmaking/service.go:135-148 | The pop loop skips the asker and stale names, and removes what it has passed. |
| `Matchmaking.Service.PurgeExpired` | backend/internal/matchmaking/service.go:150-163 | The deletion loop removes exactly the expired entries. |
| `Matchmaking.NextWaitingFinds` | backend/internal/matchmaking/service.go:135-148 | However many stale names come first, popping finds the one who waits, if anybody other than the asker does. |
| `Matchmaking.AtMostOneWaits` | backend/internal/matchmaking/service.go:64-163 | In every reachable state at most one player waits and is on the list, and two entries of one match name each other. |
| `Matchmaking.JoiningNeverWastesAWait` | backend/internal/matchmaking/service.go:72-113 | A joiner without an entry is paired with the unexpired waiting player if there is one, and otherwise becomes it; the ticket guard cannot fail after an opponent has been popped. |
| `Matchmaking.WaitersAreFound` | backend/internal/matchmaking/service.go:64-163 | A player who has joined and waits is paired with the next newcomer within the waiting time. |
| `Matchmaking.LeavingIsForGood` | backend/internal/matchmaking/service.go:126-148 | Whoever has left and does not join again is in no entry and nobody's new opponent, over any later calls, although the name stays on the list. |
| `Matchmaking.EntriesLast` | backend/internal/matchmaking/service.go:150-163 | An entry lasts exactly until its waiting time, or its ticket, is over. |
| `Interpolation.InterpolationBuffer.Push` | client/game/interpolation.cpp:10-26 | Ignores ticks that are not newer, appends and drops the oldest beyond the capacity. |
| `Interpolation.InterpolationBuffer.Advance` | client/game/interpolation.cpp:28-37 | Moves the render clock, never past the delayed newest tick or, if later, the oldest point. |
| `Interpolation.InterpolationBuffer.Sample` | client/game/interpolation.cpp:39-66 | The search loop returns what `Sampled` says, without changing the buffer. |
| `Interpolation.BufferStaysOrderly` | client/game/interpolation.cpp:10-37 | Over every run: ticks ascend, the capacity is kept, the render clock never goes back, and past the oldest point it trails the newest by at least the delay. |
| `Interpolation.ClockAdvances` | client/game/interpolation.cpp:28-37 | After any run, a frame moves the render clock by 30 ticks per elapsed second, or to the limit if that comes first, and by nothing if time runs backwards. |
| `Interpolation.PushesAreKept` | client/game/interpolation.cpp:10-26 | After any run, a newer point is kept behind those before it, of which only the oldest go and only beyond the capacity; the first one starts the clock. |
| `Interpolation.SampleInterpolates` | client/game/interpolation.cpp:39-66 | In every reachable non-empty state the sample is on the polyline at the render clock and between its two bracketing points; the final fallback is not reached. |
| `Interpolation.InterpolantIsUnique` | client/game/interpolation.cpp:49-63 | There is only one such position. |
| `Sessions.MemoryStore.RotateRefreshToken` | backend/internal/auth/store.go:94-110 | Removes the presented token in any case; issues the replacement to the same user exactly when the token was known and unexpired. |
| `Sessions.SingleUse` | backend/internal/auth/store.go:87-117 | Once presented, a token never works again, whatever the store is asked afterwards. |
| `Sessions.RotationIsExact` | backend/internal/auth/store.go:94-110 | A rotation takes the presented token, brings the replacement for the same user exactly if it was known and unexpired, and leaves all others alone. |
| `Sessions.TokensStayWithTheirUsers` | backend/internal/auth/store.go:87-117 | After any operations each token belongs to a user who has logged in, however often it has been rotated. |
| `Sessions.RevokedForGood` | backend/internal/auth/store.go:112-117 | A revoked token never works again either. |
| `Sessions.InvariantIsKept` | client/auth/session_manager.cpp:175-209 | Each step of concurrent authenticated requests keeps the session invariant. |
| `Sessions.NoReplay` | client/auth/session_manager.cpp:175-209 | In every interleaving no refresh token is presented twice, and no rejected access token is refreshed twice. |
| `Sessions.PresentedTokensAreLive` | client/auth/session_manager.cpp:191-209 | A presented token is in the store, so it is refused only if it has expired. |
| `Sessions.SessionSurvives` | client/auth/session_manager.cpp:175-209 | Unless a refresh goes unanswered, the session is never cleared and no request fails for want of one. |
| `Sessions.RetriesUseANewerToken` | client/auth/session_manager.cpp:141-159 | In every interleaving, a request that is sent again carries another access token than the one it was rejected with. |
| `Sessions.OnlyAnswersReturn` | client/auth/session_manager.cpp:141-159 | A request returns only with an answer to its first attempt, unless that was rejected, or to its second. |
| `Sessions.OnlyTheRejectedIsRefreshed` | client/auth/session_manager.cpp:179-191 | A session is handed in for a refresh only on behalf of a request that was rejected with it. |
| `Sessions.MutexIsReleased` | client/auth/session_manager.cpp:179-209 | The holder of the refresh mutex can always go on and lets go after three steps at most. |
| `Profile.RecordMatchResult` | backend/internal/profile/service.go:54-73 | Normalises, rejects exactly the invalid results, and inserts a valid one unless its match ID is known. |
| `Profile.WhatIsRecorded` | backend/internal/profile/service.go:54-73 | For every delivery: what is recorded is each field without the spaces around it, exactly if these name a match that is new, two different players, one of three reasons, and one of the players or nobody as the winner. |
| `Profile.MemoryStore.Insert` | backend/internal/profile/store.go:22-30 | Inserts once per match ID. |
| `Profile.MemoryStore.ProfileByUserID` | backend/internal/profile/store.go:32-55 | The counters accumulated over the map in any order are the sizes of the sets of matches played, won, lost and drawn. |
| `Profile.FirstDeliveryCounts` | backend/internal/profile/store.go:22-30 | Over any sequence of deliveries the store holds exactly the first valid one for each match ID. |
| `Profile.PlayedIsTheSum` | backend/internal/profile/store.go:40-53 | For each user played = wins + losses + draws. |
| `Profile.StatisticsTellTheOutcomes` | backend/internal/profile/store.go:40-53 | Won are the matches the user played and is the winner of, lost those with another winner, drawn those without. |
| `Profile.DeliveriesBalance` | backend/internal/profile/store.go:32-55 | After any deliveries, over all participants: wins = losses = decided matches, draws = twice the drawn ones, played = twice all. |
| `Profile.RetryReport` | backend/internal/matchserver/result_reporter.go:94-107 | At most three attempts; the store is as if the result had been recorded once if any attempt got through, and untouched otherwise; it stops early only on an acknowledgement or when the context is done. |

## Left out

- RoomWidths.AgreesIffRoomy: over all positions in the arena and ticks of a match, whether or not a run reaches them; a ruleset that is not roomy may still never wrap in a short match.
- RoomKnockout.NoEarlyKnockout: of unbounded clocks; `RoomBounds.NoEarlyKnockout32` is the statement about the server.
- RoomMovement.MovementIsBounded: of unbounded positions; `RoomBounds.MovementIsBounded32` is the statement about the server.
- RoomBounds.NoEarlyKnockout32: its condition is sufficient. With a cooldown that wraps, whether an attack comes too soon turns on the arena, the hitboxes, the hit points and the length of the match.
- RoomBounds.MovementIsBounded32: its condition is sufficient. With a step or dash that wraps, whether a player moves too far turns on where the walls and spawns are and how long the match lasts; a wrapped dash cooldown matters only if enough of the match is left.
- RoomSchedule.TicksFollowTheSchedule: of unbounded clocks and positions, like the results after it; `RoomWidths.NothingOverflows` says for which rulesets the server's 32-bit runs are these.
- ClientRuns.HeldAttackRepeats: until the client's 32-bit tick counter wraps around.
- Reconciliation.SnapshotsReconcile: until the client's 32-bit tick counter wraps around, like `PredictionIsCurrent` and `RoomHoldsWhatWasPredicted`.
- Lockout.LockedOutIff: until the client's 32-bit tick counter wraps around. Datagrams that are under way already may still arrive in reach; what is never accepted is what the client sends from then on.
- RoomOrder.OrderAndRepetitionDoNotMatter: for inputs whose equal ticks and sequences carry equal content; for those that do not, the first to arrive counts.
- Sessions.NoReplay: for concurrent authenticated requests only; a logout or login racing a refresh, `Restore` and the operating system's key store are not modelled.
- TerminalOutcome.OneTerminalOutcome: the event is winner and reason; the final snapshot inside it, and the snapshots the broadcaster forwards to the players through `publishLatest`, are not part of that state machine. `Mailbox` covers that channel.
- TerminalOutcome.OutcomeGetsThrough: that an enabled step is eventually taken is up to the scheduler and is not modelled.
- MatchController.MatchController.ApplySnapshot: presentation effects are left out, and `MatchStart` and `MatchEnd` are represented by their snapshots; the final one counts as a published one with its status set to finished.
- Interpolation.SampleInterpolates: exact reals; `float` rounding, `AdvanceVisual` and the other visual smoothing are left out.
- Prediction.ServerMovesTheSame: for the rules every match has, as the client has their constants built in.
- RoomLoop.Loop.Run: an arrival during a drain counts as just before or just after it; the ticker itself is a choice of the schedule.
- In `Rendezvous`, requests that fail the ticket check return at once and are not represented; `newMatch` cannot fail for two distinct names, so its error branch is not either. The manager's maps are modelled as values in a step relation, since any request may act between two steps of another.
- Profile.MemoryStore.ProfileByUserID: the user record (login, creation time) and its lookup error.
- Profile.RecordMatchResult: the end time of a result and its default, and a store that fails.
- The room's `MatchWaiting` status, which nothing ever sets, and the choice of arena by hash.
- Protobuf encoding, JWT signing, password hashing, UUIDs, HTTP, QUIC, Postgres, migrations, updater: abstract parameters or not visible here.
- Raylib screens, audio, palettes, key bindings, settings and name tables: finite tables that would only add easy members.
